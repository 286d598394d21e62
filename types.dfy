/** Basic values shared by the CardOS 5 codec model: bytes, status codes, results. */
module Types {

  /** An unsigned 8-bit value (uint8_t). */
  type byte = b: int | 0 <= b < 0x100

  /** The OpenSC status codes the codec returns. */
  datatype Status =
    | Success           // SC_SUCCESS
    | WrongLength       // SC_ERROR_WRONG_LENGTH
    | NoCardSupport     // SC_ERROR_NO_CARD_SUPPORT
    | InvalidArguments  // SC_ERROR_INVALID_ARGUMENTS
    | BufferTooSmall    // SC_ERROR_BUFFER_TOO_SMALL
    | NotSupported      // SC_ERROR_NOT_SUPPORTED

  /** A value, or the status that stopped its computation. */
  datatype Result<T> = Ok(value: T) | Err(status: Status)

  datatype Option<T> = Nothing | Some(value: T)

  /** `n` zero bytes, as memset or calloc leave them. */
  function Zeros(n: nat): (z: seq<byte>)
    ensures |z| == n
    ensures forall i :: 0 <= i < n ==> z[i] == 0
  {
    seq(n, _ => 0)
  }

  /** The unsigned big-endian value of a byte string. */
  function BeValue(s: seq<byte>): nat
  {
    if s == [] then 0 else BeValue(s[..|s| - 1]) * 0x100 + s[|s| - 1]
  }

  function Pow256(n: nat): (p: nat)
    ensures p >= 1
  {
    if n == 0 then 1 else 0x100 * Pow256(n - 1)
  }

  /** The two bytes of a 16-bit value, most significant first (the `>> 8` / `& 0xff` pairs). */
  function Be16(n: nat): (r: seq<byte>)
    requires n <= 0xFFFF
    ensures |r| == 2 && BeValue(r) == n
  {
    var r := [n / 0x100, n % 0x100];
    assert r[..1] == [n / 0x100] && [n / 0x100][..0] == [];
    assert BeValue([n / 0x100]) == n / 0x100;
    r
  }

  /** Prepending a byte weighs it by 256 to the power of the length it precedes. */
  lemma {:induction false} BeValueCons(b: byte, s: seq<byte>)
    ensures BeValue([b] + s) == b * Pow256(|s|) + BeValue(s)
    decreases |s|
  {
    if s != [] {
      var t := s[..|s| - 1];
      assert ([b] + s)[..|s|] == [b] + t;
      BeValueCons(b, t);
    }
  }

  lemma SeqAssoc<T>(a: seq<T>, b: seq<T>, c: seq<T>)
    ensures (a + b) + c == a + (b + c)
  {
  }
}
