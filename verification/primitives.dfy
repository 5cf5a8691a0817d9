/** Machine-level values of the Rust code: bytes, the integer widths that
    matter, and file-system paths. */
module Primitives {

  newtype byte = b: int | 0 <= b < 256

  /** `usize` on the 64-bit targets the server and client are built for. */
  const USIZE_MAX: int := 0xFFFF_FFFF_FFFF_FFFF
  type usize = n: int | 0 <= n <= USIZE_MAX

  /** `u16`, the type of an HTTP status code on the wire. */
  const U16_MAX: int := 0xFFFF
  type u16 = n: int | 0 <= n <= U16_MAX

  /** A `Path`/`PathBuf`, as the sequence of its (already normalised)
      components; each component is an `OsStr`, i.e. raw bytes on Unix.
      A leading root directory is a component like any other. */
  datatype Path = Path(components: seq<seq<byte>>)

  /** `Path::strip_prefix` succeeds exactly when `prefix`'s components are a
      leading run of `path`'s components. */
  predicate IsComponentPrefix(prefix: Path, path: Path) {
    |prefix.components| <= |path.components|
    && path.components[..|prefix.components|] == prefix.components
  }
}
