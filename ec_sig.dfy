/**
 * The EC signature re-encoder of card-cardos5.c (extract_coordinate, get_point, encode_ec_sig):
 * the card returns the two coordinates r and s of an ECDSA signature as fixed-width big-endian
 * strings, and the driver rewrites them in place as the ECDSA-Sig-Value of section 2.2.3 of
 * RFC 3279, SEQUENCE { INTEGER r, INTEGER s }, with INTEGERs as section 8.3 of ITU-T X.690
 * writes them.
 */
module EcSig {
  import opened Types
  import opened Tlv
  import opened Buffer

  /** The card types encode_ec_sig tells apart: CardOS 5.0, CardOS 5.3 and any other. */
  datatype CardType = CardOs50 | CardOs53 | OtherCard

  const INTEGER_TAG: byte := 0x02
  const SEQUENCE_TAG: byte := 0x30

  /** The largest coordinate extract_coordinate accepts is one below INT8_MAX. */
  const MAX_RAW_LEN: nat := 127

  /** The bytes CardOS 5.0 puts after each coordinate, which the re-encoder skips. */
  function Gap(card: CardType): nat
  {
    if card == CardOs50 then 2 else 0
  }

  /** The argument checks of encode_ec_sig: at least 4 bytes, an even count, within the buffer, a known card. */
  predicate ValidArgs(card: CardType, siglen: nat, bufsize: nat)
  {
    4 <= siglen <= bufsize && siglen % 2 == 0 && card != OtherCard
  }

  /** The length of each coordinate: two gap bytes apiece come off on CardOS 5.0. */
  function RawLength(card: CardType, siglen: nat): (n: nat)
    requires siglen >= 4 && siglen % 2 == 0
    ensures 2 * n + 2 * Gap(card) <= siglen
  {
    if card == CardOs50 then (siglen - 4) / 2 else siglen / 2
  }

  /** The value of an INTEGER's content octets, in two's complement (X.690 section 8.3.3). */
  function IntegerValue(c: seq<byte>): int
  {
    if c != [] && c[0] >= 0x80 then BeValue(c) - Pow256(|c|) else BeValue(c)
  }

  /**
   * Content octets as DER requires them (X.690 sections 8.3.1 and 8.3.2): at least one, and
   * the first nine bits neither all zero nor all one.
   */
  predicate MinimalInteger(c: seq<byte>)
  {
    |c| >= 1 && (|c| >= 2 ==> !(c[0] == 0 && c[1] < 0x80) && !(c[0] == 0xFF && c[1] >= 0x80))
  }

  /** A string without its leading zero bytes. */
  function StripZeros(s: seq<byte>): (r: seq<byte>)
    ensures |r| <= |s|
    ensures r == [] || r[0] != 0
  {
    if s != [] && s[0] == 0 then StripZeros(s[1..]) else s
  }

  /** The content octets of the INTEGER for a raw unsigned coordinate: its significant bytes, after a zero byte when the top bit is set. */
  function IntegerContent(raw: seq<byte>): (c: seq<byte>)
    ensures 1 <= |c| <= |raw| + 1
  {
    var d := StripZeros(raw);
    if d == [] then [0] else if d[0] >= 0x80 then [0] + d else d
  }

  /** The INTEGER record of a raw coordinate. */
  function DerInteger(raw: seq<byte>): seq<byte>
    requires |raw| < MAX_RAW_LEN
  {
    ShortTlv(INTEGER_TAG, IntegerContent(raw))
  }

  /**
   * The INTEGER extract_coordinate writes as the source stands: the raw coordinate, after a
   * zero byte when `lead`, the byte at the cursor, has its top bit set. Leading zero bytes of
   * the coordinate are kept.
   */
  function CoordinateAsWritten(lead: byte, raw: seq<byte>): seq<byte>
    requires |raw| < MAX_RAW_LEN
  {
    if lead >= 0x80 then [INTEGER_TAG, |raw| + 1, 0] + raw else [INTEGER_TAG, |raw|] + raw
  }

  /** The first coordinate of a raw signature. */
  function RawX(card: CardType, sig: seq<byte>): seq<byte>
    requires |sig| >= 4 && |sig| % 2 == 0
  {
    sig[..RawLength(card, |sig|)]
  }

  /** The second coordinate of a raw signature, after the first and its gap. */
  function RawY(card: CardType, sig: seq<byte>): seq<byte>
    requires |sig| >= 4 && |sig| % 2 == 0
  {
    var n := RawLength(card, |sig|);
    sig[n + Gap(card)..2 * n + Gap(card)]
  }

  /** The content of the signature sequence: the INTEGER for X, then the one for Y. */
  function Point(card: CardType, sig: seq<byte>): (p: seq<byte>)
    requires |sig| >= 4 && |sig| % 2 == 0 && RawLength(card, |sig|) < MAX_RAW_LEN
    ensures |p| <= 2 * RawLength(card, |sig|) + 6
  {
    DerInteger(RawX(card, sig)) + DerInteger(RawY(card, sig))
  }

  /**
   * What encode_ec_sig leaves in a buffer `buf` whose first `siglen` bytes are the card's raw
   * signature: INVALID_ARGUMENTS for bad arguments, BUFFER_TOO_SMALL for a coordinate of 127
   * bytes or more or an encoding longer than the buffer, otherwise the signature sequence.
   */
  function EcSig(card: CardType, buf: seq<byte>, siglen: nat): Result<seq<byte>>
  {
    if !ValidArgs(card, siglen, |buf|) then Err(InvalidArguments)
    else if RawLength(card, siglen) >= MAX_RAW_LEN then Err(BufferTooSmall)
    else
      var out := BerTlv(SEQUENCE_TAG, Point(card, buf[..siglen]));
      if |out| > |buf| then Err(BufferTooSmall) else Ok(out)
  }

  /**
   * What the buffer holds after BUFFER_TOO_SMALL: zeros, behind as much of the sequence header
   * as fitted when the coordinates were read.
   */
  function Leftover(card: CardType, buf: seq<byte>, siglen: nat): seq<byte>
    requires ValidArgs(card, siglen, |buf|)
  {
    var partial :=
      if RawLength(card, siglen) >= MAX_RAW_LEN then []
      else BerPartial(SEQUENCE_TAG, |Point(card, buf[..siglen])|, |buf|);
    partial + Zeros(|buf| - |partial|)
  }

  lemma {:induction false} StripZerosValue(s: seq<byte>)
    ensures BeValue(StripZeros(s)) == BeValue(s)
    decreases |s|
  {
    if s != [] && s[0] == 0 {
      StripZerosValue(s[1..]);
      assert s == [0] + s[1..];
      BeValueCons(0, s[1..]);
    }
  }

  /**
   * The corrected INTEGER is DER: minimal, non-negative, and of the coordinate's value read
   * as an unsigned big-endian number.
   */
  lemma IntegerContentCorrect(raw: seq<byte>)
    ensures MinimalInteger(IntegerContent(raw))
    ensures IntegerContent(raw)[0] < 0x80
    ensures IntegerValue(IntegerContent(raw)) == BeValue(raw)
  {
    var d := StripZeros(raw);
    StripZerosValue(raw);
    if d == [] {
      assert BeValue([0]) == 0 by {
        assert [0 as byte][..0] == [];
      }
    } else if d[0] >= 0x80 {
      BeValueCons(0, d);
    }
  }

  /**
   * As written, the INTEGER keeps its value and its sign, but a coordinate with a leading zero
   * byte is not DER: [0x00, 0x01] comes out as 02 02 00 01 where DER wants 02 01 01.
   */
  lemma CoordinateAsWrittenNotMinimal()
    ensures CoordinateAsWritten(0, [0, 1]) == [INTEGER_TAG, 2, 0, 1]
    ensures !MinimalInteger([0, 1])
    ensures DerInteger([0, 1]) == [INTEGER_TAG, 1, 1]
  {
    var one: seq<byte> := [1];
    var zeroOne: seq<byte> := [0, 1];
    assert StripZeros(one) == one;
    assert zeroOne[1..] == one;
    assert StripZeros(zeroOne) == one;
    assert IntegerContent(zeroOne) == one;
  }

  /** What the INTEGER as written does get right: its content has the coordinate's value and reads as non-negative. */
  lemma CoordinateAsWrittenValue(raw: seq<byte>)
    requires 1 <= |raw| < MAX_RAW_LEN
    ensures var t := CoordinateAsWritten(raw[0], raw);
      t[1] as nat == |t| - 2 && t[2] < 0x80 && IntegerValue(t[2..]) == BeValue(raw)
  {
    var t := CoordinateAsWritten(raw[0], raw);
    if raw[0] >= 0x80 {
      assert t[2..] == [0] + raw;
      BeValueCons(0, raw);
    } else {
      assert t[2..] == raw;
    }
  }

  /**
   * The signature sequence reads back as two INTEGERs, each DER and of its coordinate's
   * value, whatever the card's two coordinates are.
   */
  lemma EcSigReadsBack(card: CardType, buf: seq<byte>, siglen: nat)
    requires EcSig(card, buf, siglen).Ok?
    ensures ParseFields(EcSig(card, buf, siglen).value).Some?
    ensures var top := ParseFields(EcSig(card, buf, siglen).value).value;
      && |top| == 1 && top[0].tag == SEQUENCE_TAG
      && var fs := ParseFields(top[0].value);
      && fs.Some? && |fs.value| == 2
      && fs.value[0].tag == INTEGER_TAG && fs.value[1].tag == INTEGER_TAG
      && MinimalInteger(fs.value[0].value) && MinimalInteger(fs.value[1].value)
      && IntegerValue(fs.value[0].value) == BeValue(RawX(card, buf[..siglen]))
      && IntegerValue(fs.value[1].value) == BeValue(RawY(card, buf[..siglen]))
  {
    var sig := buf[..siglen];
    var p := Point(card, sig);
    var cx, cy := IntegerContent(RawX(card, sig)), IntegerContent(RawY(card, sig));
    BerTlvRoundTrip(SEQUENCE_TAG, p, []);
    assert BerTlv(SEQUENCE_TAG, p) + [] == BerTlv(SEQUENCE_TAG, p);
    assert ParseFields([]) == Some([]);
    var fields := [Field(INTEGER_TAG, cx), Field(INTEGER_TAG, cy)];
    EncodeFieldsOne(fields[0]);
    EncodeFieldsOne(fields[1]);
    EncodeFieldsAppend([fields[0]], [fields[1]]);
    assert [fields[0]] + [fields[1]] == fields;
    EncodeFieldsRoundTrip(fields);
    IntegerContentCorrect(RawX(card, sig));
    IntegerContentCorrect(RawY(card, sig));
  }

  /**
   * A buffer ten bytes longer than the raw signature always holds its encoding: each INTEGER
   * grows by at most three bytes and the sequence header is at most four.
   */
  lemma EcSigFits(card: CardType, buf: seq<byte>, siglen: nat)
    requires ValidArgs(card, siglen, |buf|) && RawLength(card, siglen) < MAX_RAW_LEN
    requires |buf| >= siglen + 10
    ensures EcSig(card, buf, siglen).Ok?
    ensures |EcSig(card, buf, siglen).value| <= siglen + 10
  {
  }

  /**
   * A 64-byte CardOS 5.3 signature whose coordinates both have the top bit set needs 72 bytes,
   * so it does not fit back into a 64-byte buffer. The content test as bertlv_put_tag writes it
   * lets those 70 content bytes through behind the 2 header bytes.
   */
  lemma EcSigTooSmallExample()
    ensures var buf := seq(64, _ => 0xFF);
      && |Point(CardOs53, buf)| == 70
      && EcSig(CardOs53, buf, 64) == Err(BufferTooSmall)
      && EcSig(CardOs53, buf + Zeros(8), 64).Ok?
      && !ContentCheckAsWritten(2, 64, 70)
  {
    var buf: seq<byte> := seq(64, _ => 0xFF);
    var x := RawX(CardOs53, buf);
    assert x[0] == 0xFF;
    assert IntegerContent(x) == [0] + x;
    var y := RawY(CardOs53, buf);
    assert y[0] == 0xFF;
    assert IntegerContent(y) == [0] + y;
    var big := buf + Zeros(8);
    assert big[..64] == buf;
    ContentCheckAsWrittenOverflow();
  }

  /** The leading zero bytes of `data[start..end]`: the index of the first significant byte. */
  method SkipZeros(data: array<byte>, start: nat, end: nat) returns (first: nat)
    requires start <= end <= data.Length
    ensures start <= first <= end
    ensures data[first..end] == StripZeros(data[start..end])
  {
    first := start;
    while first < end && data[first] == 0
      invariant start <= first <= end
      invariant StripZeros(data[start..end]) == StripZeros(data[first..end])
    {
      assert data[first..end][1..] == data[first + 1..end];
      first := first + 1;
    }
  }

  /**
   * extract_coordinate, corrected: reads `rawLen` bytes at the cursor of `signature` and
   * returns their DER INTEGER, then moves the cursor past them and, on CardOS 5.0, past the two
   * bytes that follow. BUFFER_TOO_SMALL when the input runs out or the coordinate is 127 bytes
   * or longer.
   */
  method ExtractCoordinate(card: CardType, rawLen: nat, signature: Buf) returns (status: Status, encoded: seq<byte>)
    requires signature.Valid()
    modifies signature
    ensures signature.Valid() && signature.data == old(signature.data)
    ensures status == Success || status == BufferTooSmall
    ensures status == Success <==>
      && old(signature.used) + rawLen + Gap(card) <= signature.data.Length
      && rawLen < MAX_RAW_LEN
    ensures status == Success ==>
      && encoded == DerInteger(signature.data[old(signature.used)..old(signature.used) + rawLen])
      && signature.used == old(signature.used) + rawLen + Gap(card)
    ensures status != Success ==>
      && encoded == []
      && signature.used == (if old(signature.used) + rawLen <= signature.data.Length && rawLen < MAX_RAW_LEN
                            then old(signature.used) + rawLen  // only the CardOS 5.0 gap was missing
                            else old(signature.used))
  {
    if signature.data.Length - signature.used < rawLen || rawLen >= MAX_RAW_LEN {
      return BufferTooSmall, [];
    }
    var start := signature.used;
    var end := start + rawLen;
    // Leading zero bytes are not part of the INTEGER.
    var first := SkipZeros(signature.data, start, end);
    var content: seq<byte>;
    if first == end {
      content := [0];
    } else if signature.data[first] >= 0x80 {
      content := [0] + signature.data[first..end];  // the padding byte
    } else {
      content := signature.data[first..end];
    }
    encoded := [INTEGER_TAG, |content| as byte] + content;
    signature.used := end;
    if card == CardOs50 {
      if signature.data.Length - signature.used < 2 {
        return BufferTooSmall, [];
      }
      signature.used := signature.used + 2;
    }
    return Success, encoded;
  }

  /** Where the coordinates lie in the raw signature. */
  lemma CoordinateSlices(card: CardType, sig: seq<byte>)
    requires |sig| >= 4 && |sig| % 2 == 0
    ensures var n := RawLength(card, |sig|);
      RawX(card, sig) == sig[0..n] && RawY(card, sig) == sig[n + Gap(card)..2 * n + Gap(card)]
  {
  }

  /** The two extract_coordinate calls of encode_ec_sig, X then Y, on a cursor at the start of the raw signature. */
  method ExtractCoordinates(card: CardType, rawLen: nat, rawSig: Buf) returns (status: Status, x: seq<byte>, y: seq<byte>)
    requires rawSig.Valid() && rawSig.used == 0
    requires 2 * rawLen + 2 * Gap(card) <= rawSig.data.Length
    modifies rawSig
    ensures rawSig.Valid() && rawSig.data == old(rawSig.data)
    ensures status == Success || status == BufferTooSmall
    ensures status == Success <==> rawLen < MAX_RAW_LEN
    ensures status == Success ==>
      && x == DerInteger(rawSig.data[0..rawLen])
      && y == DerInteger(rawSig.data[rawLen + Gap(card)..2 * rawLen + Gap(card)])
  {
    status, x := ExtractCoordinate(card, rawLen, rawSig);
    if status != Success {
      return status, x, [];
    }
    status, y := ExtractCoordinate(card, rawLen, rawSig);
  }

  /**
   * get_point: the two INTEGERs, one after the other, inside a SEQUENCE written with
   * bertlv_put_tag. INVALID_ARGUMENTS for a point over 0xFFFF bytes, BUFFER_TOO_SMALL when the
   * sequence does not fit.
   */
  method GetPoint(x: seq<byte>, y: seq<byte>, encodedSig: Buf) returns (status: Status)
    requires encodedSig.Valid()
    modifies encodedSig, encodedSig.data
    ensures encodedSig.Valid() && encodedSig.data == old(encodedSig.data)
    ensures status == Success || status == InvalidArguments || status == BufferTooSmall
    ensures status == InvalidArguments <==> |x| + |y| > 0xFFFF
    ensures status == InvalidArguments ==>
      encodedSig.used == old(encodedSig.used) && encodedSig.data[..] == old(encodedSig.data[..])
    ensures status == Success <==>
      |x| + |y| <= 0xFFFF && old(encodedSig.used) + |BerTlv(SEQUENCE_TAG, x + y)| <= encodedSig.data.Length
    ensures status == Success ==> encodedSig.Contents() == old(encodedSig.Contents()) + BerTlv(SEQUENCE_TAG, x + y)
    ensures status == BufferTooSmall ==>
      encodedSig.Contents()
      == old(encodedSig.Contents()) + BerPartial(SEQUENCE_TAG, |x| + |y|, encodedSig.data.Length - old(encodedSig.used))
    ensures encodedSig.data[encodedSig.used..] == old(encodedSig.data[..])[encodedSig.used..]
  {
    var point := x + y;
    if |point| > 0xFFFF {
      return InvalidArguments;
    }
    var ok := encodedSig.PutBerTlv(SEQUENCE_TAG, point);
    if !ok {
      return BufferTooSmall;
    }
    return Success;
  }

  /** The argument checks and coordinate length of encode_ec_sig; the EcSig record when they pass. */
  lemma EcSigUnfold(card: CardType, buf: seq<byte>, siglen: nat)
    requires ValidArgs(card, siglen, |buf|) && RawLength(card, siglen) < MAX_RAW_LEN
    ensures |Point(card, buf[..siglen])| <= 0xFFFF
    ensures var out := BerTlv(SEQUENCE_TAG, Point(card, buf[..siglen]));
      EcSig(card, buf, siglen) == if |out| > |buf| then Err(BufferTooSmall) else Ok(out)
  {
  }

  /** A coordinate of 127 bytes or more fails before anything is written into the zeroed buffer. */
  lemma LeftoverEarly(card: CardType, buf: seq<byte>, siglen: nat)
    requires ValidArgs(card, siglen, |buf|) && RawLength(card, siglen) >= MAX_RAW_LEN
    ensures EcSig(card, buf, siglen) == Err(BufferTooSmall)
    ensures Leftover(card, buf, siglen) == Zeros(|buf|)
  {
    assert [] + Zeros(|buf|) == Zeros(|buf|);
  }

  /** A sequence that does not fit leaves what fitted of its header in the zeroed buffer. */
  lemma LeftoverLate(card: CardType, buf: seq<byte>, siglen: nat, final: seq<byte>, written: nat)
    requires ValidArgs(card, siglen, |buf|) && RawLength(card, siglen) < MAX_RAW_LEN
    requires |Point(card, buf[..siglen])| <= 0xFFFF
    requires written <= |final| == |buf|
    requires final[..written] == BerPartial(SEQUENCE_TAG, |Point(card, buf[..siglen])|, |buf|)
    requires final[written..] == Zeros(|buf| - written)
    ensures final == Leftover(card, buf, siglen)
  {
    assert final == final[..written] + final[written..];
  }

  /** The memcpy and memset of encode_ec_sig: a fresh copy of the raw signature, and the buffer zeroed. */
  method CopyAndClear(sig: array<byte>, siglen: nat) returns (raw: array<byte>)
    requires siglen <= sig.Length
    modifies sig
    ensures fresh(raw) && raw[..] == old(sig[..siglen])
    ensures sig[..] == Zeros(sig.Length)
  {
    raw := new byte[siglen];
    forall i | 0 <= i < siglen {
      raw[i] := sig[i];
    }
    forall i | 0 <= i < sig.Length {
      sig[i] := 0;
    }
  }

  /** get_point over the zeroed buffer: the sequence from its start, or what fitted of its header. */
  method WritePoint(sig: array<byte>, x: seq<byte>, y: seq<byte>) returns (status: Status, written: nat)
    requires sig[..] == Zeros(sig.Length) && |x| + |y| <= 0xFFFF
    modifies sig
    ensures written <= sig.Length && sig[written..] == Zeros(sig.Length - written)
    ensures status == Success || status == BufferTooSmall
    ensures status == Success <==> |BerTlv(SEQUENCE_TAG, x + y)| <= sig.Length
    ensures status == Success ==> sig[..written] == BerTlv(SEQUENCE_TAG, x + y)
    ensures status == BufferTooSmall ==> sig[..written] == BerPartial(SEQUENCE_TAG, |x| + |y|, sig.Length)
  {
    var encodedSig := new Buf.Init(sig);
    status := GetPoint(x, y, encodedSig);
    written := encodedSig.used;
    assert sig[written..] == Zeros(sig.Length)[written..];
  }

  /** The memcpy, memset and both extract_coordinate calls: the two INTEGERs of the raw signature, over a zeroed buffer. */
  method ReadPoint(card: CardType, sig: array<byte>, siglen: nat, rawLen: nat) returns (status: Status, x: seq<byte>, y: seq<byte>)
    requires ValidArgs(card, siglen, sig.Length) && rawLen == RawLength(card, siglen)
    modifies sig
    ensures sig[..] == Zeros(sig.Length)
    ensures status == Success || status == BufferTooSmall
    ensures status == Success <==> rawLen < MAX_RAW_LEN
    ensures status == Success ==> x + y == Point(card, old(sig[..])[..siglen])
  {
    ghost var raw := sig[..siglen];
    CoordinateSlices(card, raw);
    var rawSigBuf := CopyAndClear(sig, siglen);
    var rawSig := new Buf.Init(rawSigBuf);
    status, x, y := ExtractCoordinates(card, rawLen, rawSig);
    if status == Success {
      assert rawSigBuf[0..rawLen] == raw[0..rawLen];
      assert rawSigBuf[rawLen + Gap(card)..2 * rawLen + Gap(card)] == raw[rawLen + Gap(card)..2 * rawLen + Gap(card)];
    }
  }

  /**
   * The part of encode_ec_sig after its argument checks: copies the raw signature aside, zeroes
   * the buffer, extracts both coordinates and writes the signature sequence from the start.
   */
  method Reencode(card: CardType, sig: array<byte>, siglen: nat, rawLen: nat) returns (status: Status, written: nat)
    requires ValidArgs(card, siglen, sig.Length) && rawLen == RawLength(card, siglen)
    modifies sig
    ensures written <= sig.Length
    ensures status == Success ==>
      && EcSig(card, old(sig[..]), siglen) == Ok(sig[..written])
      && sig[written..] == Zeros(sig.Length - written)
    ensures status != Success ==> status == BufferTooSmall
    ensures status != Success ==> EcSig(card, old(sig[..]), siglen) == Err(status)
    ensures status != Success ==> sig[..] == Leftover(card, old(sig[..]), siglen)
  {
    ghost var input := sig[..];
    var x, y;
    status, x, y := ReadPoint(card, sig, siglen, rawLen);
    if status != Success {
      LeftoverEarly(card, input, siglen);
      return status, 0;
    }
    EcSigUnfold(card, input, siglen);
    status, written := WritePoint(sig, x, y);
    if status != Success {
      LeftoverLate(card, input, siglen, sig[..], written);
      return status, 0;
    }
  }

  /**
   * encode_ec_sig: rewrites the raw signature in the first `siglen` bytes of `sig` as the
   * signature sequence, zeroing the rest of the buffer, and returns how many bytes it wrote.
   * Bad arguments leave the buffer as it was; any later failure leaves it zeroed, apart from
   * what fitted of the sequence header.
   */
  method EncodeEcSig(card: CardType, sig: array<byte>, siglen: nat) returns (status: Status, written: nat)
    modifies sig
    ensures written <= sig.Length
    ensures status == Success ==>
      && EcSig(card, old(sig[..]), siglen) == Ok(sig[..written])
      && sig[written..] == Zeros(sig.Length - written)
    ensures status != Success ==> EcSig(card, old(sig[..]), siglen) == Err(status)
    ensures status == InvalidArguments ==> sig[..] == old(sig[..])
    ensures status == BufferTooSmall ==> sig[..] == Leftover(card, old(sig[..]), siglen)
  {
    if siglen < 4 || siglen > sig.Length || siglen % 2 != 0 {
      return InvalidArguments, 0;
    }
    var rawLen: nat;
    if card == CardOs50 {
      rawLen := (siglen - 4) / 2;
    } else if card == CardOs53 {
      rawLen := siglen / 2;
    } else {
      return InvalidArguments, 0;
    }
    status, written := Reencode(card, sig, siglen, rawLen);
  }
}
