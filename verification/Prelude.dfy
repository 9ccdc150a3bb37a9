/** Types shared by every module: machine words as integer subranges, and the two usual wrappers. */
module Prelude {
  type byte = x: int | 0 <= x < 0x100
  type u32 = x: int | 0 <= x < 0x1_0000_0000
  type u64 = x: int | 0 <= x < 0x1_0000_0000_0000_0000

  /** A secure string, a plain string and a byte buffer are all byte sequences here. */
  type bytes = seq<byte>

  datatype Option<+T> = None | Some(value: T)

  datatype Result<+T, +E> = Ok(value: T) | Err(error: E)

  /** Readings of the wall clock, by call number. `std::time` never returns zero. */
  type Instant = x: int | 1 <= x < 0x1_0000_0000_0000_0000 witness 1
  type Clock = nat -> Instant

  function Min(a: nat, b: nat): nat {
    if a <= b then a else b
  }

  /** The truncating cast of a length to 32 bits. */
  function Low32(n: nat): (r: u32)
    ensures r <= n
  {
    n % 0x1_0000_0000
  }

  lemma Low32Exact(n: nat)
    requires n < 0x1_0000_0000
    ensures Low32(n) == n
  {
  }

  /** The characters of a literal, as bytes. */
  function Ascii(s: string): (b: bytes)
    ensures |b| == |s|
  {
    seq(|s|, i requires 0 <= i < |s| => s[i] as int % 256)
  }

  /** A byte string as C code sees it: up to its first NUL. */
  function CStr(s: bytes): bytes {
    if s == [] || s[0] == 0 then [] else [s[0]] + CStr(s[1..])
  }

  lemma {:induction false} CStrMeaning(s: bytes)
    ensures CStr(s) <= s && 0 !in CStr(s)
    ensures CStr(s) == s || s[|CStr(s)|] == 0
    ensures 0 !in s ==> CStr(s) == s
  {
    if s != [] && s[0] != 0 {
      CStrMeaning(s[1..]);
      assert s == [s[0]] + s[1..];
    }
  }

  /** The exceptions of the program, one constructor per kind of message. */
  datatype Failure =
    | FileTooLarge
    | Truncated
    | NotAVault
    | UnsupportedVersion
    | KdfLimits
    | CryptoFailure
    | WrongPassword
    | MalformedBody
    | IoError
    | EmptyMasterPassword
    | EmptyService
    | EmptyUsername
    | EmptyPassword
    | ServiceExists
    | ServiceNotFound
    | BadBase32
    | NoTotpSecret
    | BadTotpParameter
}
