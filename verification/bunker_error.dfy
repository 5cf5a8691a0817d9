/** `BunkerError`, the error type shared by client and server, with its
    stable machine-readable names and its `From` conversions. */
module BunkerErrors {
  import opened Primitives

  /** Payloads of foreign error types whose definitions are not part of this
      model (`signing::Error`, `hash::Error`, `io::Error`), each reduced to
      its description. */
  datatype SigningFailure = SigningFailure(description: string)
  datatype HashFailure = HashFailure(description: string)
  datatype IoFailure = IoFailure(description: string)

  datatype BunkerError =
    | InvalidStorePath(path: Path, reason: string)
    | InvalidStorePathName(baseName: seq<byte>, reason: string)
    | InvalidStorePathHash(hash: string, reason: string)
    | InvalidCacheName(name: string)
    | SigningError(signing: SigningFailure)
    | HashError(hashing: HashFailure)
    | IoError(io: IoFailure)
    | CxxError(exception: string)

  /** The eight stable names, in declaration order. */
  const NAMES: seq<string> := [
    "InvalidStorePath", "InvalidStorePathName", "InvalidStorePathHash", "InvalidCacheName",
    "SigningError", "HashError", "IoError", "CxxError"
  ]

  /** Position of a variant in the declaration. */
  function VariantIndex(e: BunkerError): (i: nat)
    ensures i < |NAMES|
  {
    match e
    case InvalidStorePath(_, _) => 0
    case InvalidStorePathName(_, _) => 1
    case InvalidStorePathHash(_, _) => 2
    case InvalidCacheName(_) => 3
    case SigningError(_) => 4
    case HashError(_) => 5
    case IoError(_) => 6
    case CxxError(_) => 7
  }

  /** `BunkerError::name`: the variant's identifier, which has no colon. */
  function Name(e: BunkerError): (r: string)
    ensures r == NAMES[VariantIndex(e)]
    ensures ':' !in r
  {
    match e
    case InvalidStorePath(_, _) => "InvalidStorePath"
    case InvalidStorePathName(_, _) => "InvalidStorePathName"
    case InvalidStorePathHash(_, _) => "InvalidStorePathHash"
    case InvalidCacheName(_) => "InvalidCacheName"
    case SigningError(_) => "SigningError"
    case HashError(_) => "HashError"
    case IoError(_) => "IoError"
    case CxxError(_) => "CxxError"
  }

  /** The name of every error is the identifier of its variant, and two
      errors share a name exactly when they are the same variant. */
  lemma NameIdentifiesVariant(a: BunkerError, b: BunkerError)
    ensures Name(a) == NAMES[VariantIndex(a)]
    ensures Name(a) == Name(b) <==> VariantIndex(a) == VariantIndex(b)
  {
  }

  /** `From<io::Error>`. */
  function FromIo(error: IoFailure): BunkerError {
    IoError(error)
  }

  /** `From<signing::Error>`. */
  function FromSigning(error: SigningFailure): BunkerError {
    SigningError(error)
  }

  /** `From<hash::Error>`. */
  function FromHash(error: HashFailure): BunkerError {
    HashError(error)
  }

  /** Each conversion wraps its cause unchanged in the matching variant, so
      the cause can be read back and the stable name says where it came from. */
  lemma ConversionsKeepCause(io: IoFailure, signing: SigningFailure, hashing: HashFailure)
    ensures FromIo(io).IoError? && FromIo(io).io == io && Name(FromIo(io)) == "IoError"
    ensures FromSigning(signing).SigningError? && FromSigning(signing).signing == signing
    ensures Name(FromSigning(signing)) == "SigningError"
    ensures FromHash(hashing).HashError? && FromHash(hashing).hashing == hashing
    ensures Name(FromHash(hashing)) == "HashError"
  {
  }

  /** The `Display` text of `InvalidStorePathHash`:
      `Invalid store path hash "{hash}": {reason}`. */
  function InvalidHashMessage(hash: string, reason: string): string {
    "Invalid store path hash \"" + hash + "\": " + reason
  }

  /** Length of the longest prefix of `s` without a quote character. */
  function QuoteFreeLength(s: string): (n: nat)
    ensures n <= |s|
    ensures forall i | 0 <= i < n :: s[i] != '"'
    ensures n < |s| ==> s[n] == '"'
  {
    if |s| == 0 || s[0] == '"' then 0 else 1 + QuoteFreeLength(s[1..])
  }

  /** A quote-free text followed by a quote is exactly the quote-free run. */
  lemma {:induction false} QuoteFreeLengthOf(h: string, rest: string)
    requires '"' !in h
    requires |rest| > 0 && rest[0] == '"'
    ensures QuoteFreeLength(h + rest) == |h|
    decreases |h|
  {
    if |h| == 0 {
      assert h + rest == rest;
    } else {
      assert (h + rest)[1..] == h[1..] + rest;
      QuoteFreeLengthOf(h[1..], rest);
    }
  }

  /** A hash without a quote character can be read back from the message:
      two messages agree exactly when both the hash and the reason do. */
  lemma InvalidHashMessageDeterminesParts(h1: string, r1: string, h2: string, r2: string)
    requires '"' !in h1 && '"' !in h2
    ensures InvalidHashMessage(h1, r1) == InvalidHashMessage(h2, r2) <==> h1 == h2 && r1 == r2
  {
    var prefix := "Invalid store path hash \"";
    var m1, m2 := InvalidHashMessage(h1, r1), InvalidHashMessage(h2, r2);
    if m1 == m2 {
      assert m1[|prefix|..] == h1 + ("\": " + r1);
      assert m2[|prefix|..] == h2 + ("\": " + r2);
      QuoteFreeLengthOf(h1, "\": " + r1);
      QuoteFreeLengthOf(h2, "\": " + r2);
      assert h1 == m1[|prefix|..|prefix| + |h1|];
      assert h2 == m2[|prefix|..|prefix| + |h2|];
      assert r1 == m1[|prefix| + |h1| + 3..];
      assert r2 == m2[|prefix| + |h2| + 3..];
    }
  }
}
