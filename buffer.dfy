/**
 * The buf_t cursor of card-cardos5.c: a byte array filled front to back, with the
 * writers asn1_put_tag, asn1_put_tag0, asn1_put_tag1 and bertlv_put_tag.
 */
module Buffer {
  import opened Types
  import opened Tlv

  /** What a failed bertlv_put_tag leaves behind when `room` bytes were free. */
  function BerPartial(tag: byte, n: nat, room: nat): seq<byte>
    requires n <= 0xFFFF
  {
    if room == 0 then []
    else if room < |BerHeader(tag, n)| then [tag]
    else BerHeader(tag, n)
  }

  /** A buf_t: `data` is the array `ptr` walks over, its length is `size`, `used` is `bytes_used`. */
  class Buf {
    var data: array<byte>
    var used: nat

    ghost predicate Valid()
      reads this
    {
      used <= data.Length
    }

    /** The bytes written so far. */
    function Contents(): seq<byte>
      reads this, data
      requires Valid()
    {
      data[..used]
    }

    /** buf_init: a cursor at the start of `a`, whose size is the array's length. */
    constructor Init(a: array<byte>)
      ensures Valid() && data == a && used == 0
    {
      data := a;
      used := 0;
    }

    /** Copies `bytes` to the cursor and advances it (the memcpy and pointer bump of the writers). */
    method Write(bytes: seq<byte>)
      requires Valid() && used + |bytes| <= data.Length
      modifies this, data
      ensures Valid() && data == old(data)
      ensures used == old(used) + |bytes|
      ensures Contents() == old(Contents()) + bytes
      ensures data[used..] == old(data[..])[used..]
    {
      forall i | 0 <= i < |bytes| {
        data[used + i] := bytes[i];
      }
      used := used + |bytes|;
    }

    /**
     * asn1_put_tag: one short-form record. sc_asn1_put_tag refuses a content of 0x80 bytes
     * or more and a record that does not fit, and then writes nothing.
     */
    method PutTag(tag: byte, content: seq<byte>) returns (ok: bool)
      requires Valid()
      modifies this, data
      ensures Valid() && data == old(data)
      ensures ok <==> |content| < 0x80 && old(used) + 2 + |content| <= data.Length
      ensures ok ==> Contents() == old(Contents()) + ShortTlv(tag, content)
      ensures !ok ==> used == old(used) && data[..] == old(data[..])
      ensures data[used..] == old(data[..])[used..]
    {
      if |content| >= 0x80 || data.Length - used < 2 + |content| {
        return false;
      }
      Write(ShortTlv(tag, content));
      return true;
    }

    /** asn1_put_tag0: a record with no content. */
    method PutTag0(tag: byte) returns (ok: bool)
      requires Valid()
      modifies this, data
      ensures Valid() && data == old(data)
      ensures ok <==> old(used) + 2 <= data.Length
      ensures ok ==> Contents() == old(Contents()) + [tag, 0]
      ensures !ok ==> used == old(used) && data[..] == old(data[..])
      ensures data[used..] == old(data[..])[used..]
    {
      ok := PutTag(tag, []);
    }

    /** asn1_put_tag1: a record holding one byte. */
    method PutTag1(tag: byte, value: byte) returns (ok: bool)
      requires Valid()
      modifies this, data
      ensures Valid() && data == old(data)
      ensures ok <==> old(used) + 3 <= data.Length
      ensures ok ==> Contents() == old(Contents()) + [tag, 1, value]
      ensures !ok ==> used == old(used) && data[..] == old(data[..])
      ensures data[used..] == old(data[..])[used..]
    {
      ok := PutTag(tag, [value]);
    }

    /**
     * bertlv_put_tag: one record with BER length octets. It refuses contents over 0xFFFF bytes;
     * otherwise it writes the tag, the length octets and the content for as long as they fit,
     * and succeeds exactly when the whole record fits.
     */
    method PutBerTlv(tag: byte, content: seq<byte>) returns (ok: bool)
      requires Valid()
      modifies this, data
      ensures Valid() && data == old(data)
      ensures ok <==> |content| <= 0xFFFF && old(used) + |BerTlv(tag, content)| <= data.Length
      ensures ok ==> Contents() == old(Contents()) + BerTlv(tag, content)
      ensures !ok && |content| <= 0xFFFF ==>
                Contents() == old(Contents()) + BerPartial(tag, |content|, data.Length - old(used))
      ensures |content| > 0xFFFF ==> used == old(used) && data[..] == old(data[..])
      ensures data[used..] == old(data[..])[used..]
    {
      var length := |content|;
      if length > 0xFFFF {
        return false;
      }
      ok := PutBerHeader(tag, length);
      if !ok {
        return;
      }
      ghost var mid := data[..];
      // The content test, as corrected: the room left must hold the content.
      if data.Length - used < length {
        return false;
      }
      Write(content);
      assert data[used..] == mid[used..];
      return true;
    }

    /** The tag and length octets of bertlv_put_tag, each length form with its own room test. */
    method PutBerHeader(tag: byte, length: nat) returns (ok: bool)
      requires Valid() && length <= 0xFFFF
      modifies this, data
      ensures Valid() && data == old(data)
      ensures ok <==> old(used) + |BerHeader(tag, length)| <= data.Length
      ensures ok ==> Contents() == old(Contents()) + BerHeader(tag, length)
      ensures !ok ==> Contents() == old(Contents()) + BerPartial(tag, length, data.Length - old(used))
      ensures data[used..] == old(data[..])[used..]
    {
      if used == data.Length {
        return false;
      }
      ghost var orig := data[..];
      Write([tag]);
      // The three length forms of X.690 section 8.1.3.
      if length < 0x80 {
        if used == data.Length {
          return false;
        }
      } else if length <= 0xFF {
        if data.Length - used < 2 {
          return false;
        }
      } else {
        if data.Length - used < 3 {
          return false;
        }
      }
      ghost var mid := data[..];
      ghost var before := old(Contents());
      assert Contents() == before + [tag];
      Write(BerLength(length));
      SuffixKept(orig, mid, data[..], old(used) + 1, used);
      assert Contents() == before + [tag] + BerLength(length);
      assert before + [tag] + BerLength(length) == before + BerHeader(tag, length);
      return true;
    }
  }

  /** Two writes each keep what lies past their end, so together they keep what lies past the second. */
  lemma SuffixKept(a: seq<byte>, b: seq<byte>, c: seq<byte>, i: nat, j: nat)
    requires i <= j <= |a| && |a| == |b| == |c|
    requires b[i..] == a[i..] && c[j..] == b[j..]
    ensures c[j..] == a[j..]
  {
    forall k | j <= k < |a|
      ensures c[k] == a[k]
    {
      assert c[k] == c[j..][k - j] && b[k] == b[j..][k - j];
      assert b[k] == b[i..][k - i] && a[k] == a[i..][k - i];
    }
  }

  /** size_t is 64 bits wide. */
  const SizeRange: nat := 0x1_0000_0000_0000_0000

  /** The content test of bertlv_put_tag as written, `bytes_used - size < length` on size_t: true when it refuses. */
  predicate ContentCheckAsWritten(used: nat, size: nat, length: nat)
    requires used <= size < SizeRange
  {
    (used - size) % SizeRange < length
  }

  /**
   * The test as written refuses nothing unless the buffer is already full: with room left,
   * the wrapped difference is far above any length bertlv_put_tag accepts.
   */
  lemma ContentCheckAsWrittenIneffective(used: nat, size: nat, length: nat)
    requires used < size <= 0xFFFF_FFFF && length <= 0xFFFF
    ensures !ContentCheckAsWritten(used, size, length)
  {
    assert (used - size) % SizeRange == SizeRange - (size - used);
  }

  /**
   * The overflow that follows: a 72-byte signature sequence (2 header bytes, 70 content bytes)
   * passes the test as written in a 64-byte buffer, where the corrected test refuses it.
   */
  lemma ContentCheckAsWrittenOverflow()
    ensures !ContentCheckAsWritten(2, 64, 70)
    ensures 64 - 2 < 70
  {
    ContentCheckAsWrittenIneffective(2, 64, 70);
  }
}
