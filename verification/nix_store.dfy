/** Validated Nix store identifiers: the 32-character store-path hash, the
    `<hash>-<name>` base name, and extraction of a base name from a full
    path below the store directory. */
module NixStore {
  import opened Wrappers
  import opened Primitives
  import Utf8
  import opened BunkerErrors
  import Json

  const STORE_PATH_HASH_LEN: nat := 32

  /** Nix's base-32 alphabet: digits and lower-case letters without
      `e`, `o`, `u` and `t`. */
  const HASH_ALPHABET: string := "0123456789abcdfghijklmnpqrsvwxyz"

  const HASH_INVALID_LENGTH: string := "Hash is of invalid length"
  const HASH_INVALID_FORMAT: string := "Hash is of invalid format"
  const NAME_NOT_UTF8: string := "Name contains non-UTF-8 characters"
  const NAME_INVALID_FORMAT: string := "Name is of invalid format"
  const PATH_NOT_IN_STORE: string := "Path is not in store directory"
  const PATH_IS_STORE_DIR: string := "Path is store directory itself"
  const PATH_TOO_SHORT: string := "Path is too short"

  /** The byte `-` separating hash and name. */
  const DASH: byte := 0x2D

  predicate IsHashChar(c: char) {
    c in HASH_ALPHABET
  }

  /** The hash regex `^[0123456789abcdfghijklmnpqrsvwxyz]{32}$`. */
  predicate IsHashString(s: string) {
    |s| == STORE_PATH_HASH_LEN && forall i | 0 <= i < |s| :: IsHashChar(s[i])
  }

  /** The name class of the base-name regex, `[A-Za-z0-9+-._?=]`, read the
      way a regex engine reads it: `+-.` is the range U+002B..U+002E, which
      contains `,` as well as `+`, `-` and `.`. */
  predicate IsNameChar(c: char) {
    || 'A' <= c <= 'Z'
    || 'a' <= c <= 'z'
    || '0' <= c <= '9'
    || '+' <= c <= '.'
    || c == '_' || c == '?' || c == '='
  }

  /** The base-name regex `^[hash alphabet]{32}-[name class]+$` on text. */
  predicate MatchesBaseNameText(s: string) {
    && |s| > STORE_PATH_HASH_LEN + 1
    && (forall i | 0 <= i < STORE_PATH_HASH_LEN :: IsHashChar(s[i]))
    && s[STORE_PATH_HASH_LEN] == '-'
    && (forall i | STORE_PATH_HASH_LEN < i < |s| :: IsNameChar(s[i]))
  }

  predicate IsHashByte(b: byte) {
    b < 0x80 && IsHashChar((b as int) as char)
  }

  predicate IsNameByte(b: byte) {
    b < 0x80 && IsNameChar((b as int) as char)
  }

  /** The same regex on the raw bytes of a base name. Every character the
      regex admits is ASCII, so this agrees with matching the decoded text
      (lemma `BaseNameBytesMatchText`). */
  predicate MatchesBaseName(b: seq<byte>) {
    && |b| > STORE_PATH_HASH_LEN + 1
    && (forall i | 0 <= i < STORE_PATH_HASH_LEN :: IsHashByte(b[i]))
    && b[STORE_PATH_HASH_LEN] == DASH
    && (forall i | STORE_PATH_HASH_LEN < i < |b| :: IsNameByte(b[i]))
  }

  /** `StorePathHash(String)`. */
  datatype StorePathHash = StorePathHash(value: string)

  /** A hash that passed validation: what `new_unchecked` demands of its
      caller is carried in the type instead. */
  type ValidStorePathHash = h: StorePathHash | IsHashString(h.value)
    witness StorePathHash(seq(32, _ => '0'))

  /** `StorePath { base_name: PathBuf }`. */
  datatype StorePath = StorePath(baseName: seq<byte>)

  /** A store path whose base name matches the regex: what
      `from_base_name_unchecked` demands of its caller. */
  type ValidStorePath = p: StorePath | MatchesBaseName(p.baseName)
    witness StorePath(seq(32, _ => 0x30 as byte) + [DASH, 0x61])

  lemma HashCharIsAscii(c: char)
    ensures IsHashChar(c) ==> c as int < 0x80
  {
    if IsHashChar(c) {
      var i :| 0 <= i < |HASH_ALPHABET| && HASH_ALPHABET[i] == c;
    }
  }

  lemma HashStringIsAscii(s: string)
    ensures IsHashString(s) ==> Utf8.IsAsciiText(s)
  {
    if IsHashString(s) {
      forall i | 0 <= i < |s|
        ensures s[i] as int < 0x80
      {
        HashCharIsAscii(s[i]);
      }
    }
  }

  /** `StorePathHash::new`: the byte length is checked first, then the
      alphabet. */
  function NewHash(s: string): (r: Result<ValidStorePathHash, BunkerError>)
    ensures r.Success? <==> IsHashString(s)
    ensures r.Success? ==> r.value.value == s
    ensures r.Failure? ==> r.error.InvalidStorePathHash? && r.error.hash == s
    ensures r.Failure? && r.error.reason == HASH_INVALID_FORMAT ==> |Utf8.Encode(s)| == STORE_PATH_HASH_LEN
    ensures |Utf8.Encode(s)| != STORE_PATH_HASH_LEN ==> r == Failure(InvalidStorePathHash(s, HASH_INVALID_LENGTH))
    ensures |Utf8.Encode(s)| == STORE_PATH_HASH_LEN && !IsHashString(s) ==>
              r == Failure(InvalidStorePathHash(s, HASH_INVALID_FORMAT))
    ensures Utf8.IsAsciiText(s) && |s| != STORE_PATH_HASH_LEN ==> r == Failure(InvalidStorePathHash(s, HASH_INVALID_LENGTH))
  {
    Utf8.EncodeAscii(s);
    HashStringIsAscii(s);
    if |Utf8.Encode(s)| != STORE_PATH_HASH_LEN then
      Failure(InvalidStorePathHash(s, HASH_INVALID_LENGTH))
    else if !IsHashString(s) then
      Failure(InvalidStorePathHash(s, HASH_INVALID_FORMAT))
    else
      Success(StorePathHash(s))
  }

  /** `Deserialize for StorePathHash`: a JSON string, validated by `new`;
      a validation failure becomes a custom error carrying its message. */
  function DeserializeHash(v: Json.Value): (r: Result<ValidStorePathHash, Json.DeError>)
    ensures r.Success? <==> v.Str? && NewHash(v.s).Success?
    ensures r.Success? ==> r.value.value == v.s
    ensures v.Str? && r.Failure? ==>
      r.error == Json.Custom(InvalidHashMessage(v.s, NewHash(v.s).error.reason))
    ensures !v.Str? ==> r == Failure(Json.InvalidType("a string"))
  {
    match v
    case Str(s) =>
      (match NewHash(s)
       case Success(h) => Success(h)
       case Failure(e) => Failure(Json.Custom(InvalidHashMessage(e.hash, e.reason))))
    case _ => Failure(Json.InvalidType("a string"))
  }

  /** `Serialize for StorePathHash`: the bare string, which deserialises
      back to the same hash. */
  function SerializeHash(h: ValidStorePathHash): (v: Json.Value)
    ensures v.Str? && v.s == h.value
    ensures DeserializeHash(v) == Success(h)
  {
    Json.Str(h.value)
  }

  /** `StorePath::from_base_name`: UTF-8 first, then the regex. */
  function FromBaseName(b: seq<byte>): (r: Result<ValidStorePath, BunkerError>)
    ensures r.Success? <==> MatchesBaseName(b)
    ensures r.Success? ==> r.value.baseName == b
    ensures r.Failure? ==> r.error.InvalidStorePathName? && r.error.baseName == b
    ensures r.Failure? ==> (r.error.reason == NAME_NOT_UTF8 <==> !Utf8.ValidUtf8(b))
    ensures r.Failure? ==> r.error.reason in {NAME_NOT_UTF8, NAME_INVALID_FORMAT}
  {
    if !Utf8.ValidUtf8(b) then
      MatchedNameIsValidUtf8(b);
      Failure(InvalidStorePathName(b, NAME_NOT_UTF8))
    else if !MatchesBaseName(b) then
      Failure(InvalidStorePathName(b, NAME_INVALID_FORMAT))
    else
      Success(StorePath(b))
  }

  lemma MatchedNameIsAscii(b: seq<byte>)
    requires MatchesBaseName(b)
    ensures Utf8.IsAsciiBytes(b)
  {
    forall i | 0 <= i < |b|
      ensures b[i] < 0x80
    {
      if i < STORE_PATH_HASH_LEN {
        assert IsHashByte(b[i]);
      } else if i > STORE_PATH_HASH_LEN {
        assert IsNameByte(b[i]);
      }
    }
  }

  lemma MatchedNameIsValidUtf8(b: seq<byte>)
    ensures MatchesBaseName(b) ==> Utf8.ValidUtf8(b)
  {
    if MatchesBaseName(b) {
      MatchedNameIsAscii(b);
      Utf8.AsciiIsValid(b);
    }
  }

  /** `StorePath::to_hash`: the first 32 bytes, read as text. */
  function ToHash(p: ValidStorePath): (h: ValidStorePathHash)
    ensures Utf8.Encode(h.value) == p.baseName[..STORE_PATH_HASH_LEN]
  {
    var bytes := p.baseName[..STORE_PATH_HASH_LEN];
    assert Utf8.IsAsciiBytes(bytes) by {
      forall i | 0 <= i < |bytes|
        ensures bytes[i] < 0x80
      {
        assert IsHashByte(p.baseName[i]);
      }
    }
    var s := Utf8.AsciiDecode(bytes);
    Utf8.AsciiRoundTrip(bytes);
    assert forall i | 0 <= i < |s| :: IsHashChar(s[i]) by {
      forall i | 0 <= i < |s|
        ensures IsHashChar(s[i])
      {
        assert IsHashByte(p.baseName[i]);
        assert s[i] == (p.baseName[i] as int) as char;
      }
    }
    StorePathHash(s)
  }

  /** `StorePath::name`: everything after the dash, read as text. */
  function Name(p: ValidStorePath): (n: string)
    ensures Utf8.Encode(n) == p.baseName[STORE_PATH_HASH_LEN + 1..]
    ensures |n| > 0 && forall i | 0 <= i < |n| :: IsNameChar(n[i])
  {
    var bytes := p.baseName[STORE_PATH_HASH_LEN + 1..];
    assert Utf8.IsAsciiBytes(bytes) by {
      forall i | 0 <= i < |bytes|
        ensures bytes[i] < 0x80
      {
        assert IsNameByte(p.baseName[STORE_PATH_HASH_LEN + 1 + i]);
      }
    }
    var s := Utf8.AsciiDecode(bytes);
    Utf8.AsciiRoundTrip(bytes);
    assert forall i | 0 <= i < |s| :: IsNameChar(s[i]) by {
      forall i | 0 <= i < |s|
        ensures IsNameChar(s[i])
      {
        assert IsNameByte(p.baseName[STORE_PATH_HASH_LEN + 1 + i]);
        assert s[i] == (p.baseName[STORE_PATH_HASH_LEN + 1 + i] as int) as char;
      }
    }
    s
  }

  /** `to_base_name`: strips the store directory and returns the first
      remaining component, which must be at least as long as a hash. */
  function ToBaseName(storeDir: Path, path: Path): (r: Result<seq<byte>, BunkerError>)
    ensures r.Success? ==> |r.value| >= STORE_PATH_HASH_LEN
    ensures r.Success? ==>
              && |path.components| > |storeDir.components|
              && path.components == storeDir.components + [r.value]
                                 + path.components[|storeDir.components| + 1..]
    ensures r.Failure? ==> r.error.InvalidStorePath? && r.error.path == path
  {
    if IsComponentPrefix(storeDir, path) then
      var remaining := path.components[|storeDir.components|..];
      if |remaining| == 0 then
        Failure(InvalidStorePath(path, PATH_IS_STORE_DIR))
      else if |remaining[0]| < STORE_PATH_HASH_LEN then
        Failure(InvalidStorePath(path, PATH_TOO_SHORT))
      else
        Success(remaining[0])
    else
      Failure(InvalidStorePath(path, PATH_NOT_IN_STORE))
  }

  /** The alphabet has 32 symbols in strictly increasing order, hence
      distinct. */
  lemma AlphabetIsSorted()
    ensures |HASH_ALPHABET| == 32
    ensures forall i | 0 <= i < |HASH_ALPHABET| - 1 :: HASH_ALPHABET[i] < HASH_ALPHABET[i + 1]
  {
  }

  /** No `e`, `o`, `u`, `t` or upper-case letter is a hash character. */
  lemma AlphabetExcludes(c: char)
    requires IsHashChar(c)
    ensures c != 'e' && c != 'o' && c != 'u' && c != 't'
    ensures !('A' <= c <= 'Z')
  {
    var i :| 0 <= i < |HASH_ALPHABET| && HASH_ALPHABET[i] == c;
  }

  lemma AsciiByteLength(s: string)
    requires Utf8.IsAsciiText(s)
    ensures |Utf8.Encode(s)| == |s|
  {
    Utf8.EncodeAscii(s);
  }

  /** A Nix hash from the documentation is accepted unchanged. */
  lemma ValidHashExample()
    ensures NewHash("ia70ss13m22znbl8khrf2hq72qmh5drr").Success?
    ensures NewHash("ia70ss13m22znbl8khrf2hq72qmh5drr").value.value == "ia70ss13m22znbl8khrf2hq72qmh5drr"
  {
    var ok := "ia70ss13m22znbl8khrf2hq72qmh5drr";
    forall i | 0 <= i < |ok|
      ensures IsHashChar(ok[i])
    {
    }
  }

  /** The documented invalid examples: a banned letter and upper case fail
      on format (their length is right), a short string fails on length. */
  lemma BannedLetterExample()
    ensures NewHash("eeeeeeeeeeeeeeeeeeeeeeeeeeeeeeee")
            == Failure(InvalidStorePathHash("eeeeeeeeeeeeeeeeeeeeeeeeeeeeeeee", HASH_INVALID_FORMAT))
  {
    var s := "eeeeeeeeeeeeeeeeeeeeeeeeeeeeeeee";
    assert !IsHashChar(s[0]);
    forall i | 0 <= i < |s|
      ensures s[i] as int < 0x80
    {
    }
    AsciiByteLength(s);
  }

  lemma UpperCaseExample()
    ensures NewHash("IA70SS13M22ZNBL8KHRF2HQ72QMH5DRR")
            == Failure(InvalidStorePathHash("IA70SS13M22ZNBL8KHRF2HQ72QMH5DRR", HASH_INVALID_FORMAT))
  {
    var s := "IA70SS13M22ZNBL8KHRF2HQ72QMH5DRR";
    assert s[0] == 'I' && !IsHashChar('I');
    UpperCaseIsAscii();
    AsciiByteLength(s);
  }

  lemma UpperCaseIsAscii()
    ensures Utf8.IsAsciiText("IA70SS13M22ZNBL8KHRF2HQ72QMH5DRR")
  {
    var s := "IA70SS13M22ZNBL8KHRF2HQ72QMH5DRR";
    forall i | 0 <= i < |s|
      ensures s[i] as int < 0x80
    {
    }
  }

  lemma ShortExample()
    ensures NewHash("whatevenisthisthing")
            == Failure(InvalidStorePathHash("whatevenisthisthing", HASH_INVALID_LENGTH))
  {
    var s := "whatevenisthisthing";
    ShortIsAscii();
    AsciiByteLength(s);
  }

  lemma ShortIsAscii()
    ensures Utf8.IsAsciiText("whatevenisthisthing")
  {
    var s := "whatevenisthisthing";
    forall i | 0 <= i < |s|
      ensures s[i] as int < 0x80
    {
    }
  }

  /** The length check counts bytes, not characters: 31 characters one of
      which takes two bytes pass the length check and fail on format. */
  lemma LengthIsInBytes()
    ensures var s := "é" + seq(30, _ => '0');
      |s| == 31 && NewHash(s) == Failure(InvalidStorePathHash(s, HASH_INVALID_FORMAT))
  {
    var s := "é" + seq(30, _ => '0');
    var zeros := seq(30, _ => '0');
    assert s[1..] == zeros;
    Utf8.EncodeAscii(zeros);
    assert |Utf8.Encode(s)| == 32;
  }

  lemma NameCharIsAscii(c: char)
    ensures IsNameChar(c) ==> c as int < 0x80
  {
  }

  lemma MatchedTextIsAscii(s: string)
    requires MatchesBaseNameText(s)
    ensures Utf8.IsAsciiText(s)
  {
    forall i | 0 <= i < |s|
      ensures s[i] as int < 0x80
    {
      if i < STORE_PATH_HASH_LEN {
        HashCharIsAscii(s[i]);
      } else if i > STORE_PATH_HASH_LEN {
        NameCharIsAscii(s[i]);
      }
    }
  }

  /** Matching the regex on the decoded text and matching its bytes agree,
      so checking the bytes after the UTF-8 check is the regex check. */
  lemma BaseNameBytesMatchText(s: string)
    ensures MatchesBaseName(Utf8.Encode(s)) <==> MatchesBaseNameText(s)
  {
    var b := Utf8.Encode(s);
    Utf8.EncodeAscii(s);
    if MatchesBaseName(b) {
      MatchedNameIsAscii(b);
    }
    if MatchesBaseNameText(s) {
      MatchedTextIsAscii(s);
    }
    if Utf8.IsAsciiText(s) {
      assert |b| == |s|;
      forall i | 0 <= i < |s|
        ensures (b[i] as int) as char == s[i]
      {
        assert b[i] as int == s[i] as int;
      }
    }
  }

  /** `from_base_name` on the bytes of a text accepts exactly the texts the
      base-name regex matches. */
  lemma FromBaseNameIsRegex(s: string)
    ensures FromBaseName(Utf8.Encode(s)).Success? <==> MatchesBaseNameText(s)
  {
    BaseNameBytesMatchText(s);
  }

  /** A base name is its hash, a dash and its name. */
  lemma BaseNameSplits(p: ValidStorePath)
    ensures Utf8.Encode(ToHash(p).value + "-" + Name(p)) == p.baseName
  {
    var h := ToHash(p).value;
    var n := Name(p);
    Utf8.EncodeAppend(h + "-", n);
    Utf8.EncodeAppend(h, "-");
    assert Utf8.Encode("-") == [DASH];
    assert p.baseName == p.baseName[..STORE_PATH_HASH_LEN] + [DASH] + p.baseName[STORE_PATH_HASH_LEN + 1..];
  }

  /** Joining a valid hash and a non-empty name drawn from the name class
      gives a base name that validates and projects back onto both parts. */
  lemma {:induction false} JoinValidates(h: ValidStorePathHash, n: string)
    requires |n| > 0 && forall i | 0 <= i < |n| :: IsNameChar(n[i])
    ensures var r := FromBaseName(Utf8.Encode(h.value + "-" + n));
      r.Success? && ToHash(r.value) == h && Name(r.value) == n
  {
    var s := h.value + "-" + n;
    JoinedTextMatches(h, n);
    BaseNameBytesMatchText(s);
    var p := FromBaseName(Utf8.Encode(s)).value;
    JoinedHashReadsBack(h, n, p);
    JoinedNameReadsBack(h, n, p);
  }

  lemma JoinedTextMatches(h: ValidStorePathHash, n: string)
    requires |n| > 0 && forall i | 0 <= i < |n| :: IsNameChar(n[i])
    ensures MatchesBaseNameText(h.value + "-" + n)
  {
    var s := h.value + "-" + n;
    assert forall i | 0 <= i < STORE_PATH_HASH_LEN :: s[i] == h.value[i];
    assert forall i | STORE_PATH_HASH_LEN < i < |s| :: s[i] == n[i - STORE_PATH_HASH_LEN - 1];
  }

  lemma JoinedHashReadsBack(h: ValidStorePathHash, n: string, p: ValidStorePath)
    requires MatchesBaseNameText(h.value + "-" + n)
    requires FromBaseName(Utf8.Encode(h.value + "-" + n)) == Success(p)
    ensures ToHash(p) == h
  {
    var s := h.value + "-" + n;
    MatchedTextIsAscii(s);
    Utf8.EncodeAscii(s);
    Utf8.EncodeAscii(ToHash(p).value);
    forall i | 0 <= i < STORE_PATH_HASH_LEN
      ensures ToHash(p).value[i] == h.value[i]
    {
      assert Utf8.Encode(ToHash(p).value)[i] == p.baseName[i];
      assert s[i] == h.value[i];
    }
  }

  lemma JoinedNameReadsBack(h: ValidStorePathHash, n: string, p: ValidStorePath)
    requires MatchesBaseNameText(h.value + "-" + n)
    requires FromBaseName(Utf8.Encode(h.value + "-" + n)) == Success(p)
    ensures Name(p) == n
  {
    var s := h.value + "-" + n;
    MatchedTextIsAscii(s);
    Utf8.EncodeAscii(s);
    Utf8.EncodeAscii(Name(p));
    forall i | 0 <= i < |n|
      ensures Name(p)[i] == n[i]
    {
      assert Utf8.Encode(Name(p))[i] == p.baseName[STORE_PATH_HASH_LEN + 1 + i];
      assert s[STORE_PATH_HASH_LEN + 1 + i] == n[i];
    }
  }

  /** The name class as the regex is written admits `,`, which the list in
      the documentation (`A-Za-z0-9` and `+-._?=`) does not mention. */
  lemma CommaIsAdmitted(h: ValidStorePathHash)
    ensures FromBaseName(Utf8.Encode(h.value + "-a,b")).Success?
  {
    var n := "a,b";
    assert IsNameChar(n[0]) && IsNameChar(n[1]) && IsNameChar(n[2]);
    JoinValidates(h, n);
    assert h.value + "-" + n == h.value + "-a,b" by {
      assert "-" + n == "-a,b";
      assert h.value + "-" + n == h.value + ("-" + n);
    }
  }

  /** The three ways `to_base_name` fails, each with its own reason: the
      store directory is not a component prefix, nothing remains after it,
      or the first remaining component is shorter than a hash. */
  lemma ToBaseNameReasons(storeDir: Path, path: Path)
    ensures !IsComponentPrefix(storeDir, path) ==>
              ToBaseName(storeDir, path) == Failure(InvalidStorePath(path, PATH_NOT_IN_STORE))
    ensures IsComponentPrefix(storeDir, path) && |path.components| == |storeDir.components| ==>
              ToBaseName(storeDir, path) == Failure(InvalidStorePath(path, PATH_IS_STORE_DIR))
    ensures IsComponentPrefix(storeDir, path) && |path.components| > |storeDir.components|
            && |path.components[|storeDir.components|]| < STORE_PATH_HASH_LEN ==>
              ToBaseName(storeDir, path) == Failure(InvalidStorePath(path, PATH_TOO_SHORT))
  {
  }

  /** Any path below the store directory yields its first component below
      the store directory, whatever lies deeper, as long as it is at least as
      long as a hash; a store directory is never "not in" itself. */
  lemma ToBaseNameOfChild(storeDir: Path, first: seq<byte>, deeper: seq<seq<byte>>)
    requires |first| >= STORE_PATH_HASH_LEN
    ensures ToBaseName(storeDir, Path(storeDir.components + [first] + deeper)) == Success(first)
    ensures ToBaseName(storeDir, storeDir) == Failure(InvalidStorePath(storeDir, PATH_IS_STORE_DIR))
  {
    var path := Path(storeDir.components + [first] + deeper);
    assert path.components[..|storeDir.components|] == storeDir.components;
    assert storeDir.components[..|storeDir.components|] == storeDir.components;
  }

  /** The full path of a valid store path gives back its base name, which
      validates as that same store path. */
  lemma FullPathValidates(storeDir: Path, p: ValidStorePath, deeper: seq<seq<byte>>)
    ensures var r := ToBaseName(storeDir, Path(storeDir.components + [p.baseName] + deeper));
      r.Success? && FromBaseName(r.value) == Success(p)
  {
    ToBaseNameOfChild(storeDir, p.baseName, deeper);
  }
}
