/**
 * The Access Rule List decoders parse_ef_arl, parse_df_arl and parse_arl
 * (card-cardos5.c:284-471). The two record loops of the source differ only in their table and
 * in whether command records are let through, so one loop stands for both.
 */
module ArlDecode {
  import opened Types
  import opened Tlv
  import opened Defs
  import opened AclEncode

  /** The first row of `table` whose access-mode byte is `amByte`, or |table| when none is. */
  function RowOf(table: seq<Row>, amByte: byte): (i: nat)
    ensures i <= |table|
    ensures i < |table| ==> table[i].amByte == amByte
    ensures forall j :: 0 <= j < i ==> table[j].amByte != amByte
  {
    if table == [] then 0
    else if table[0].amByte == amByte then 0
    else 1 + RowOf(table[1..], amByte)
  }

  /** The entry a decoded row adds: none for a row whose operation is -1U. */
  function RowEntries(row: Row, c: Condition): seq<AclEntry>
  {
    match row.mapping
    case Unmapped => []
    case Maps(op) => [AclEntry(op, c)]
  }

  function Prepend(entries: seq<AclEntry>, r: Result<seq<AclEntry>>): Result<seq<AclEntry>>
  {
    match r
    case Ok(rest) => Ok(entries + rest)
    case Err(e) => Err(e)
  }

  lemma PrependNothing(r: Result<seq<AclEntry>>)
    ensures Prepend([], r) == r
  {
    if r.Ok? {
      assert [] + r.value == r.value;
    }
  }

  lemma PrependTwice(a: seq<AclEntry>, b: seq<AclEntry>, r: Result<seq<AclEntry>>)
    ensures Prepend(a, Prepend(b, r)) == Prepend(a + b, r)
  {
    if r.Ok? {
      assert a + (b + r.value) == (a + b) + r.value;
    }
  }

  /** A decoded standard record: its table row, its condition and its length. */
  datatype Step = Step(row: nat, cond: Condition, size: nat)

  /**
   * One standard record: access-mode-byte tag and length, a byte the table knows, then an
   * always or never record (5 bytes in all) or a user-authentication template (11 bytes).
   * Anything else is NO_CARD_SUPPORT; a template cut short is WRONG_LENGTH.
   */
  function StdRecord(table: seq<Row>, arl: seq<byte>): (r: Result<Step>)
    requires |arl| >= 5
    ensures r.Ok? ==> r.value.row < |table| && 5 <= r.value.size <= |arl|
  {
    if arl[0] != AM_TAG || arl[1] != AM_LEN then Err(NoCardSupport)
    else
      var i := RowOf(table, arl[2]);
      if i == |table| then Err(NoCardSupport)
      else if arl[3] == ALWAYS_TAG then
        if arl[4] != ALWAYS_LEN then Err(NoCardSupport)
        else Ok(Step(i, Condition(AcNone, KeyRefNone), 5))
      else if arl[3] == NEVER_TAG then
        if arl[4] != NEVER_LEN then Err(NoCardSupport)
        else Ok(Step(i, Condition(AcNever, KeyRefNone), 5))
      else if arl[3] == USER_AUTH_TAG then
        if |arl| < 11 then Err(WrongLength)
        else if arl[4] != USER_AUTH_LEN || arl[5] != PINREF_TAG || arl[6] != PINREF_LEN then Err(NoCardSupport)
        else if arl[8] != KUQ_TAG || arl[9] != KUQ_LEN || arl[10] != KUQ_USER_AUTH then Err(NoCardSupport)
        else Ok(Step(i, Condition(AcChv, arl[7] % BACKTRACK_PIN), 11))
      else Err(NoCardSupport)
  }

  /** A command record's length: 8 bytes, and after a user-authentication tag the template it announces. */
  function CommandSize(arl: seq<byte>): nat
    requires |arl| >= 8
  {
    if arl[6] == USER_AUTH_TAG then arl[7] as nat + 8 else 8
  }

  /**
   * The record loop of parse_ef_arl and parse_df_arl: records while five bytes or more remain,
   * and then nothing may remain. `commands` lets command records through (the DF loop only).
   */
  function Records(table: seq<Row>, commands: bool, arl: seq<byte>): Result<seq<AclEntry>>
    decreases |arl|
  {
    if |arl| < 5 then
      if |arl| == 0 then Ok([]) else Err(WrongLength)
    else if commands && arl[0] == COMMAND_TAG then
      if |arl| < 8 || |arl| < CommandSize(arl) then Err(WrongLength)
      else Records(table, commands, arl[CommandSize(arl)..])
    else
      match StdRecord(table, arl)
      case Err(e) => Err(e)
      case Ok(s) => Prepend(RowEntries(table[s.row], s.cond), Records(table, commands, arl[s.size..]))
  }

  /** The root directory's "allow everything" pattern, of which only bytes 5 to 8 are examined. */
  predicate IsRootSentinel(arl: seq<byte>)
  {
    |arl| == 9 && arl[5] == DUMMY_TAG && arl[6] == DUMMY_LEN && arl[7] == ALWAYS_TAG && arl[8] == ALWAYS_LEN
  }

  /** NONE for every mapped row of `table`, in table order. */
  function AllowAll(table: seq<Row>): seq<AclEntry>
  {
    if table == [] then []
    else AllowAll(table[..|table| - 1]) + RowEntries(table[|table| - 1], Condition(AcNone, KeyRefNone))
  }

  function EfArlDecode(arl: seq<byte>): Result<seq<AclEntry>>
  {
    Records(EfAcl, false, arl)
  }

  function DfArlDecode(arl: seq<byte>): Result<seq<AclEntry>>
  {
    if IsRootSentinel(arl) then Ok(AllowAll(DfAcl)) else Records(DfAcl, true, arl)
  }

  function ArlDecode(kind: FileType, arl: seq<byte>): Result<seq<AclEntry>>
  {
    match kind
    case Df => DfArlDecode(arl)
    case WorkingEf => EfArlDecode(arl)
    case OtherType => Err(InvalidArguments)
  }

  /**
   * The record loop, walking the input as the source walks `arl` and `len`. It returns the
   * status and the entries passed to sc_file_add_acl_entry; on success they are the decoding.
   */
  method ParseRecords(table: seq<Row>, commands: bool, arl: seq<byte>) returns (r: Status, added: seq<AclEntry>)
    ensures r == Success ==> Records(table, commands, arl) == Ok(added)
    ensures r != Success ==> Records(table, commands, arl) == Err(r)
  {
    var rest := arl;
    added := [];
    PrependNothing(Records(table, commands, arl));
    while |rest| >= 5
      invariant Records(table, commands, arl) == Prepend(added, Records(table, commands, rest))
      decreases |rest|
    {
      if commands && rest[0] == COMMAND_TAG {
        // A command record, which is how ACCUMULATE OBJECT DATA is allowed; it adds no entry.
        if |rest| < 8 {
          return WrongLength, added;
        }
        ghost var n := CommandSize(rest);
        ghost var before := rest;
        if rest[6] == USER_AUTH_TAG {
          var skip: nat := rest[7];
          if |rest| < skip + 8 {
            return WrongLength, added;
          }
          rest := rest[skip..];
        }
        rest := rest[8..];
        assert rest == before[n..];
        continue;
      }
      if rest[0] != AM_TAG || rest[1] != AM_LEN {
        return NoCardSupport, added;
      }
      var i := 0;
      while i < |table| && table[i].amByte != rest[2]
        invariant i <= |table|
        invariant forall j :: 0 <= j < i ==> table[j].amByte != rest[2]
      {
        i := i + 1;
      }
      if i == |table| {
        return NoCardSupport, added;
      }
      var ac: AcMethod, ref: nat, size: nat;
      if rest[3] == ALWAYS_TAG {
        if rest[4] != ALWAYS_LEN {
          return NoCardSupport, added;
        }
        ac, ref, size := AcNone, KeyRefNone, 5;
      } else if rest[3] == NEVER_TAG {
        if rest[4] != NEVER_LEN {
          return NoCardSupport, added;
        }
        ac, ref, size := AcNever, KeyRefNone, 5;
      } else if rest[3] == USER_AUTH_TAG {
        if |rest| < 11 {
          return WrongLength, added;
        }
        if rest[4] != USER_AUTH_LEN || rest[5] != PINREF_TAG || rest[6] != PINREF_LEN {
          return NoCardSupport, added;
        }
        if rest[8] != KUQ_TAG || rest[9] != KUQ_LEN || rest[10] != KUQ_USER_AUTH {
          return NoCardSupport, added;
        }
        ac, ref, size := AcChv, rest[7] % BACKTRACK_PIN, 11;  // & BACKTRACK_MASK
      } else {
        return NoCardSupport, added;
      }
      assert StdRecord(table, rest) == Ok(Step(i, Condition(ac, ref), size));
      PrependTwice(added, RowEntries(table[i], Condition(ac, ref)), Records(table, commands, rest[size..]));
      if table[i].mapping.Maps? {
        added := added + [AclEntry(table[i].mapping.op, Condition(ac, ref))];
      } else {
        assert added + [] == added;
      }
      rest := rest[size..];
    }
    if |rest| != 0 {
      return WrongLength, added;
    }
    assert added + [] == added;
    return Success, added;
  }

  /** parse_ef_arl. */
  method ParseEfArl(arl: seq<byte>) returns (r: Status, added: seq<AclEntry>)
    ensures r == Success ==> EfArlDecode(arl) == Ok(added)
    ensures r != Success ==> EfArlDecode(arl) == Err(r)
  {
    r, added := ParseRecords(EfAcl, false, arl);
  }

  /** parse_df_arl: the root directory's pattern, otherwise the record loop with command records. */
  method ParseDfArl(arl: seq<byte>) returns (r: Status, added: seq<AclEntry>)
    ensures r == Success ==> DfArlDecode(arl) == Ok(added)
    ensures r != Success ==> DfArlDecode(arl) == Err(r)
  {
    if |arl| == 9 && arl[5] == DUMMY_TAG && arl[6] == DUMMY_LEN && arl[7] == ALWAYS_TAG && arl[8] == ALWAYS_LEN {
      added := [];
      for i := 0 to |DfAcl|
        invariant added == AllowAll(DfAcl[..i])
      {
        assert DfAcl[..i + 1][..i] == DfAcl[..i];
        if DfAcl[i].mapping.Maps? {
          added := added + [AclEntry(DfAcl[i].mapping.op, Condition(AcNone, KeyRefNone))];
        }
      }
      assert DfAcl[..|DfAcl|] == DfAcl;
      return Success, added;
    }
    r, added := ParseRecords(DfAcl, true, arl);
  }

  /** parse_arl: dispatch on the file type; any other type is INVALID_ARGUMENTS. */
  method ParseArl(kind: FileType, arl: seq<byte>) returns (r: Status, added: seq<AclEntry>)
    ensures r == Success ==> ArlDecode(kind, arl) == Ok(added)
    ensures r != Success ==> ArlDecode(kind, arl) == Err(r)
  {
    match kind {
      case Df =>
        r, added := ParseDfArl(arl);
      case WorkingEf =>
        r, added := ParseEfArl(arl);
      case OtherType =>
        r, added := InvalidArguments, [];
    }
  }

  /** What the decoders produce: NONE or NEVER without a key reference, or CHV with a reference below the backtrack bit. */
  predicate Decoded(c: Condition)
  {
    c == Canonical(c) && Encodable(c)
  }

  /** A standard record is read from its own bytes: what follows it does not matter. */
  lemma StdRecordPrefix(table: seq<Row>, a: seq<byte>, b: seq<byte>)
    requires |a| >= 5 && StdRecord(table, a).Ok?
    ensures StdRecord(table, a + b) == StdRecord(table, a)
  {
    var ab := a + b;
    assert ab[..5] == a[..5];
    if a[3] == USER_AUTH_TAG {
      assert ab[..11] == a[..11];
    }
  }

  /**
   * Records decode one after the other: the decoding of a well-formed list followed by more
   * bytes is the list's entries followed by the decoding of the rest.
   */
  lemma {:induction false} RecordsAppend(table: seq<Row>, commands: bool, a: seq<byte>, b: seq<byte>)
    requires Records(table, commands, a).Ok?
    ensures Records(table, commands, a + b) == Prepend(Records(table, commands, a).value, Records(table, commands, b))
    decreases |a|
  {
    if |a| < 5 {
      assert a + b == b;
      PrependNothing(Records(table, commands, b));
    } else if commands && a[0] == COMMAND_TAG {
      var n := CommandSize(a);
      assert (a + b)[..8] == a[..8];
      assert (a + b)[n..] == a[n..] + b;
      RecordsAppend(table, commands, a[n..], b);
    } else {
      StdRecordPrefix(table, a, b);
      var st := StdRecord(table, a).value;
      assert (a + b)[st.size..] == a[st.size..] + b;
      RecordsAppend(table, commands, a[st.size..], b);
      PrependTwice(RowEntries(table[st.row], st.cond), Records(table, commands, a[st.size..]).value,
        Records(table, commands, b));
    }
  }

  /** One to four bytes after a well-formed list of records make the whole list WRONG_LENGTH. */
  lemma TrailingBytesRejected(table: seq<Row>, commands: bool, a: seq<byte>, t: seq<byte>)
    requires Records(table, commands, a).Ok? && 1 <= |t| <= 4
    ensures Records(table, commands, a + t) == Err(WrongLength)
  {
    RecordsAppend(table, commands, a, t);
  }

  /** A record whose access-mode byte no table row has is NO_CARD_SUPPORT, whatever follows it. */
  lemma UnknownAccessModeRejected(table: seq<Row>, commands: bool, arl: seq<byte>)
    requires |arl| >= 5 && arl[0] == AM_TAG && arl[1] == AM_LEN
    requires forall r :: r in table ==> r.amByte != arl[2]
    ensures Records(table, commands, arl) == Err(NoCardSupport)
  {
  }

  /**
   * A user-authentication record decodes to CHV with the PIN reference's backtrack bit
   * cleared, for every reference byte.
   */
  lemma UserAuthRecordMasked(table: seq<Row>, i: nat, ref: byte, rest: seq<byte>)
    requires i < |table| && RowOf(table, table[i].amByte) == i
    ensures var arl := [AM_TAG, AM_LEN, table[i].amByte, USER_AUTH_TAG, USER_AUTH_LEN,
                        PINREF_TAG, PINREF_LEN, ref, KUQ_TAG, KUQ_LEN, KUQ_USER_AUTH] + rest;
      StdRecord(table, arl) == Ok(Step(i, Condition(AcChv, ref % BACKTRACK_PIN), 11))
  {
    var a := [AM_TAG, AM_LEN, table[i].amByte, USER_AUTH_TAG, USER_AUTH_LEN,
              PINREF_TAG, PINREF_LEN, ref, KUQ_TAG, KUQ_LEN, KUQ_USER_AUTH];
    assert a[0] == AM_TAG && a[1] == AM_LEN && a[2] == table[i].amByte;
    assert a[3] == USER_AUTH_TAG != ALWAYS_TAG && a[3] != NEVER_TAG;
    assert a[4] == USER_AUTH_LEN && a[5] == PINREF_TAG && a[6] == PINREF_LEN && a[7] == ref;
    assert a[8] == KUQ_TAG && a[9] == KUQ_LEN && a[10] == KUQ_USER_AUTH;
    assert StdRecord(table, a) == Ok(Step(i, Condition(AcChv, ref % BACKTRACK_PIN), 11));
    StdRecordPrefix(table, a, rest);
  }

  /** Every condition the record loop yields is one the encoder accepts and leaves as it is. */
  lemma {:induction false} RecordsDecoded(table: seq<Row>, commands: bool, arl: seq<byte>)
    requires Records(table, commands, arl).Ok?
    ensures forall e :: e in Records(table, commands, arl).value ==> Decoded(e.cond)
    decreases |arl|
  {
    if |arl| < 5 {
    } else if commands && arl[0] == COMMAND_TAG {
      RecordsDecoded(table, commands, arl[CommandSize(arl)..]);
    } else {
      var st := StdRecord(table, arl).value;
      RecordsDecoded(table, commands, arl[st.size..]);
      assert Decoded(st.cond);
    }
  }

  /** Every operation the record loop yields is one a row of the table maps to. */
  lemma {:induction false} RecordsOps(table: seq<Row>, commands: bool, arl: seq<byte>)
    requires Records(table, commands, arl).Ok?
    ensures forall e :: e in Records(table, commands, arl).value ==> exists j :: 0 <= j < |table| && table[j].mapping == Maps(e.op)
    decreases |arl|
  {
    if |arl| < 5 {
    } else if commands && arl[0] == COMMAND_TAG {
      RecordsOps(table, commands, arl[CommandSize(arl)..]);
    } else {
      var st := StdRecord(table, arl).value;
      RecordsOps(table, commands, arl[st.size..]);
    }
  }
}
