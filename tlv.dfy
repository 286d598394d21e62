/**
 * Tag-length-value byte layouts (ITU-T X.690 section 8.1) and a reader for them.
 * The writer in module Buffer appends these layouts; the reader is their partner.
 */
module Tlv {
  import opened Types

  /** A record with a one-byte tag and one short-form length byte, as sc_asn1_put_tag writes it. */
  function ShortTlv(tag: byte, content: seq<byte>): seq<byte>
    requires |content| < 0x80
  {
    [tag, |content|] + content
  }

  /**
   * BER length octets (X.690 section 8.1.3) in their shortest form: the short form below 0x80,
   * otherwise the long form with one or two subsequent octets.
   */
  function BerLength(n: nat): (r: seq<byte>)
    requires n <= 0xFFFF
    ensures 1 <= |r| <= 3
  {
    if n < 0x80 then [n]
    else if n <= 0xFF then [0x81, n]
    else [0x82, n / 0x100, n % 0x100]
  }

  /** The length octets bertlv_put_tag writes: its test `length < 0xFF` sends 0xFF to the three-octet form. */
  function BerLengthAsWritten(n: nat): (r: seq<byte>)
    requires n <= 0xFFFF
  {
    if n < 0x80 then [n]
    else if n < 0xFF then [0x81, n]
    else [0x82, n / 0x100, n % 0x100]
  }

  function BerHeader(tag: byte, n: nat): seq<byte>
    requires n <= 0xFFFF
  {
    [tag] + BerLength(n)
  }

  /** A record with a one-byte tag and BER length octets. */
  function BerTlv(tag: byte, content: seq<byte>): seq<byte>
    requires |content| <= 0xFFFF
  {
    BerHeader(tag, |content|) + content
  }

  /**
   * Reads definite-form length octets at the start of `s` (X.690 section 8.1.3): the length
   * and the number of octets that encode it. The indefinite form (0x80) and the reserved
   * initial octet 0xFF are refused.
   */
  function ParseBerLength(s: seq<byte>): (r: Option<(nat, nat)>)
    ensures r.Some? ==> 1 <= r.value.1 <= |s|
  {
    if s == [] then Nothing
    else if s[0] < 0x80 then Some((s[0], 1))
    else if s[0] == 0x80 || s[0] == 0xFF then Nothing
    else
      var k := s[0] - 0x80;
      if |s| < 1 + k then Nothing else Some((BeValue(s[1..1 + k]), 1 + k))
  }

  datatype Parsed = Parsed(tag: byte, content: seq<byte>, rest: seq<byte>)

  /** Reads one record with a one-byte tag and BER length octets at the start of `s`. */
  function ParseBerTlv(s: seq<byte>): (r: Option<Parsed>)
    ensures r.Some? ==> |r.value.rest| + 2 + |r.value.content| <= |s|
  {
    if |s| < 1 then Nothing
    else match ParseBerLength(s[1..])
      case Nothing => Nothing
      case Some((n, k)) =>
        if |s| < 1 + k + n then Nothing
        else Some(Parsed(s[0], s[1 + k..1 + k + n], s[1 + k + n..]))
  }

  datatype Field = Field(tag: byte, value: seq<byte>)

  /** Reads a concatenation of records, as the body of a constructed value is read. */
  function ParseFields(s: seq<byte>): Option<seq<Field>>
    decreases |s|
  {
    if s == [] then Some([])
    else match ParseBerTlv(s)
      case Nothing => Nothing
      case Some(p) =>
        match ParseFields(p.rest)
        case Nothing => Nothing
        case Some(fs) => Some([Field(p.tag, p.content)] + fs)
  }

  lemma BeValueOne(b: byte)
    ensures BeValue([b]) == b
  {
    assert [b][..0] == [];
  }

  /** The length octets read back as the length they encode, whatever follows them. */
  lemma BerLengthRoundTrip(n: nat, rest: seq<byte>)
    requires n <= 0xFFFF
    ensures ParseBerLength(BerLength(n) + rest) == Some((n, |BerLength(n)|))
  {
    var s := BerLength(n) + rest;
    if 0x80 <= n <= 0xFF {
      assert s[1..2] == [n];
      BeValueOne(n);
    } else if n > 0xFF {
      assert s[1..3] == Be16(n);
    }
  }

  /**
   * No definite-form encoding of a length is shorter than BerLength's: the writer's length
   * octets are the minimal ones DER asks for (X.690 section 10.1).
   */
  lemma BerLengthMinimal(s: seq<byte>)
    requires ParseBerLength(s).Some? && ParseBerLength(s).value.0 <= 0xFFFF
    ensures |BerLength(ParseBerLength(s).value.0)| <= ParseBerLength(s).value.1
  {
    if s[0] == 0x81 {
      assert s[1..2] == [s[1]];
      BeValueOne(s[1]);
    }
  }

  /** bertlv_put_tag's length octets for 0xFF are decodable BER but one octet longer than needed. */
  lemma BerLengthAsWrittenNotMinimal()
    ensures ParseBerLength(BerLengthAsWritten(0xFF)) == Some((0xFF, 3))
    ensures |BerLength(0xFF)| == 2
    ensures forall n :: 0 <= n <= 0xFFFF && n != 0xFF ==> BerLengthAsWritten(n) == BerLength(n)
  {
    var s := BerLengthAsWritten(0xFF);
    assert s == [0x82, 0, 0xFF];
    assert s[1..3] == Be16(0xFF);
  }

  /** A record reads back as its tag and content, leaving what follows it. */
  lemma BerTlvRoundTrip(tag: byte, content: seq<byte>, rest: seq<byte>)
    requires |content| <= 0xFFFF
    ensures ParseBerTlv(BerTlv(tag, content) + rest) == Some(Parsed(tag, content, rest))
  {
    var s := BerTlv(tag, content) + rest;
    var h := BerLength(|content|);
    assert s[1..] == h + (content + rest);
    BerLengthRoundTrip(|content|, content + rest);
    assert s[1 + |h|..1 + |h| + |content|] == content;
    assert s[1 + |h| + |content|..] == rest;
  }

  /** A short-form record is a BER record. */
  lemma ShortTlvIsBer(tag: byte, content: seq<byte>)
    requires |content| < 0x80
    ensures ShortTlv(tag, content) == BerTlv(tag, content)
  {
  }

  /** A short-form record at the head of a list of records reads back as its first field. */
  lemma ParseFieldsShort(tag: byte, content: seq<byte>, rest: seq<byte>)
    requires |content| < 0x80
    ensures ParseFields(ShortTlv(tag, content) + rest)
         == (match ParseFields(rest)
             case Nothing => Nothing
             case Some(fs) => Some([Field(tag, content)] + fs))
  {
    ShortTlvIsBer(tag, content);
    BerTlvRoundTrip(tag, content, rest);
  }

  /** Fields whose values fit a short-form length. */
  predicate ShortFields(fields: seq<Field>)
  {
    forall i :: 0 <= i < |fields| ==> |fields[i].value| < 0x80
  }

  /** Fields written one after the other as short-form records. */
  function EncodeFields(fields: seq<Field>): seq<byte>
    requires ShortFields(fields)
  {
    if fields == [] then [] else ShortTlv(fields[0].tag, fields[0].value) + EncodeFields(fields[1..])
  }

  /** Short-form records written one after the other read back as the fields they were written from. */
  lemma {:induction false} EncodeFieldsRoundTrip(fields: seq<Field>)
    requires ShortFields(fields)
    ensures ParseFields(EncodeFields(fields)) == Some(fields)
  {
    if fields != [] {
      EncodeFieldsRoundTrip(fields[1..]);
      ParseFieldsShort(fields[0].tag, fields[0].value, EncodeFields(fields[1..]));
      assert [fields[0]] + fields[1..] == fields;
    }
  }

  lemma EncodeFieldsOne(x: Field)
    requires |x.value| < 0x80
    ensures ShortFields([x]) && EncodeFields([x]) == ShortTlv(x.tag, x.value)
  {
    assert [x][1..] == [];
  }

  /** Writing two lists of fields is writing their concatenation. */
  lemma {:induction false} EncodeFieldsAppend(a: seq<Field>, b: seq<Field>)
    requires ShortFields(a) && ShortFields(b)
    ensures ShortFields(a + b) && EncodeFields(a + b) == EncodeFields(a) + EncodeFields(b)
    decreases |a|
  {
    if a == [] {
      assert a + b == b;
    } else {
      assert (a + b)[1..] == a[1..] + b;
      EncodeFieldsAppend(a[1..], b);
      SeqAssoc(ShortTlv(a[0].tag, a[0].value), EncodeFields(a[1..]), EncodeFields(b));
    }
  }
}
