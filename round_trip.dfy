/**
 * The Access Rule Lists the builders write and the ones the decoders read are two sides of
 * one format: what construct_ef_fcp and construct_df_fcp encode for a file, parse_ef_arl and
 * parse_df_arl decode back to the file's access rules, up to the forms the card distinguishes.
 */
module RoundTrip {
  import opened Types
  import opened Tlv
  import opened Defs
  import opened AclEncode
  import opened ArlDecode
  import opened Fcp

  /** The entries the decoder yields for the rules of `rows`: each mapped row with its condition in decoded form. */
  function Expected(rows: seq<Row>, acl: map<Op, Condition>): seq<AclEntry>
    decreases |rows|
  {
    if rows == [] then []
    else
      var last := rows[|rows| - 1];
      Expected(rows[..|rows| - 1], acl) + RowEntries(last, Canonical(RowCondition(last, acl)))
  }

  /** A NONE or NEVER rule is one 5-byte standard record for its row. */
  lemma PlainRuleRecord(table: seq<Row>, i: nat, c: Condition)
    requires WellFormedTable(table) && i < |table| && (c.ac == AcNone || c.ac == AcNever)
    ensures AclTag(table[i].amByte, c.ac, c.keyRef).Some?
    ensures var t := AclTag(table[i].amByte, c.ac, c.keyRef).value;
      |t| == 5 && StdRecord(table, t) == Ok(Step(i, Canonical(c), 5))
  {
    var b := table[i].amByte;
    assert RowOf(table, b) == i;
    var t := AclTag(b, c.ac, c.keyRef).value;
    if c.ac == AcNone {
      assert t == [AM_TAG, AM_LEN, b, ALWAYS_TAG, ALWAYS_LEN];
    } else {
      assert t == [AM_TAG, AM_LEN, b, NEVER_TAG, NEVER_LEN];
    }
  }

  /** A PIN rule is one 11-byte standard record for its row, read back as CHV with the same reference. */
  lemma PinRuleRecord(table: seq<Row>, i: nat, c: Condition)
    requires WellFormedTable(table) && i < |table| && c.ac in {AcChv, AcTerm, AcAut} && c.keyRef < 0x80
    ensures AclTag(table[i].amByte, c.ac, c.keyRef).Some?
    ensures var t := AclTag(table[i].amByte, c.ac, c.keyRef).value;
      |t| == 11 && StdRecord(table, t) == Ok(Step(i, Canonical(c), 11))
  {
    var b := table[i].amByte;
    assert RowOf(table, b) == i;
    var t := AclTag(b, c.ac, c.keyRef).value;
    assert t == [AM_TAG, AM_LEN, b, USER_AUTH_TAG, USER_AUTH_LEN,
                 PINREF_TAG, PINREF_LEN, c.keyRef, KUQ_TAG, KUQ_LEN, KUQ_USER_AUTH] + [];
    UserAuthRecordMasked(table, i, c.keyRef, []);
  }

  /** A row's rule decodes to the row's entry in decoded form, whatever follows it. */
  lemma RuleDecodes(table: seq<Row>, commands: bool, i: nat, c: Condition, rest: seq<byte>)
    requires WellFormedTable(table) && i < |table| && Encodable(c)
    ensures AclTag(table[i].amByte, c.ac, c.keyRef).Some?
    ensures Records(table, commands, AclTag(table[i].amByte, c.ac, c.keyRef).value + rest)
         == Prepend(RowEntries(table[i], Canonical(c)), Records(table, commands, rest))
  {
    if c.ac == AcNone || c.ac == AcNever {
      PlainRuleRecord(table, i, c);
    } else {
      PinRuleRecord(table, i, c);
    }
    var t := AclTag(table[i].amByte, c.ac, c.keyRef).value;
    StdRecordPrefix(table, t, rest);
    var s := t + rest;
    assert s[0] == AM_TAG && s[|t|..] == rest;
  }

  /** A command record guarded by any encodable condition adds no entry in a DF's rules. */
  lemma CommandRuleSkipped(table: seq<Row>, header: seq<byte>, c: Condition, rest: seq<byte>)
    requires |header| == 4 && Encodable(c)
    ensures AclTag(0xFF, c.ac, c.keyRef).Some?
    ensures Records(table, true, ShortTlv(COMMAND_TAG, header) + AclTag(0xFF, c.ac, c.keyRef).value + rest)
         == Records(table, true, rest)
  {
    AclTagDefined(0xFF, c.ac, c.keyRef);
    var t := ShortTlv(COMMAND_TAG, header) + AclTag(0xFF, c.ac, c.keyRef).value;
    var arl := t + rest;
    assert arl[0] == COMMAND_TAG;
    if c.ac in {AcChv, AcTerm, AcAut} {
      assert arl[6] == USER_AUTH_TAG && arl[7] == USER_AUTH_LEN && |t| == 14;
    } else {
      assert arl[6] != USER_AUTH_TAG && |t| == 8;
    }
    assert arl[|t|..] == rest;
  }

  /** An always-allowed command record adds no entry in a DF's rules. */
  lemma CommandAlwaysSkipped(table: seq<Row>, header: seq<byte>, rest: seq<byte>)
    requires |header| == 4
    ensures Records(table, true, CommandAlways(header) + rest) == Records(table, true, rest)
  {
    CommandRuleSkipped(table, header, Condition(AcNone, KeyRefNone), rest);
  }

  /** The rules of the first k rows of a table decode to those rows' entries, whatever follows them. */
  lemma {:induction false} RowsDecode(table: seq<Row>, commands: bool, k: nat, acl: map<Op, Condition>, rest: seq<byte>)
    requires WellFormedTable(table) && k <= |table| && RowsArl(table[..k], acl).Some?
    ensures Records(table, commands, RowsArl(table[..k], acl).value + rest)
         == Prepend(Expected(table[..k], acl), Records(table, commands, rest))
  {
    if k == 0 {
      assert RowsArl(table[..k], acl).value + rest == rest;
      PrependNothing(Records(table, commands, rest));
    } else {
      var rows := table[..k];
      assert rows[..k - 1] == table[..k - 1];
      var c := RowCondition(table[k - 1], acl);
      var a := RowsArl(table[..k - 1], acl).value;
      var t := AclTag(table[k - 1].amByte, c.ac, c.keyRef).value;
      assert RowsArl(rows, acl).value == a + t;
      AclTagDefined(table[k - 1].amByte, c.ac, c.keyRef);
      SeqAssoc(a, t, rest);
      RowsDecode(table, commands, k - 1, acl, t + rest);
      RuleDecodes(table, commands, k - 1, c, rest);
      PrependTwice(Expected(table[..k - 1], acl), RowEntries(table[k - 1], Canonical(c)), Records(table, commands, rest));
    }
  }

  /** The end of a list of records: nothing more to decode. */
  lemma RecordsDone(table: seq<Row>, commands: bool, entries: seq<AclEntry>)
    ensures Prepend(entries, Records(table, commands, [])) == Ok(entries)
  {
    assert entries + [] == entries;
  }

  /** Round trip of an EF's rules: the decoder reads back what the builder wrote, for every encodable ACL. */
  lemma EfRoundTrip(acl: map<Op, Condition>)
    requires EfArl(acl).Some?
    ensures EfArlDecode(EfArl(acl).value) == Ok(Expected(EfAcl, acl))
  {
    TablesWellFormed();
    assert EfAcl[..|EfAcl|] == EfAcl;
    assert EfArl(acl).value + [] == EfArl(acl).value;
    RowsDecode(EfAcl, false, |EfAcl|, acl, []);
    RecordsDone(EfAcl, false, Expected(EfAcl, acl));
  }

  /** Round trip of a DF's rules: the command records add nothing, the rows read back as written. */
  lemma DfRoundTrip(acl: map<Op, Condition>)
    requires DfArl(acl).Some?
    ensures DfArlDecode(DfArl(acl).value) == Ok(Expected(DfAcl, acl))
  {
    TablesWellFormed();
    var p := PutDataRule(acl).value;
    var r := RowsArl(DfAcl, acl).value;
    var arl := DfArl(acl).value;
    assert arl == p + r + DfTrailer;
    assert |DfTrailer| == 24;
    assert !IsRootSentinel(arl);
    // The three trailing command records decode to nothing.
    var t2 := CommandAlways(ACCUMULATE_APPEND_CMD);
    var t1 := CommandAlways(ACCUMULATE_NEW_CMD) + t2;
    assert DfTrailer == CommandAlways(PHASE_CONTROL_CMD) + t1;
    CommandAlwaysSkipped(DfAcl, ACCUMULATE_APPEND_CMD, []);
    assert t2 + [] == t2;
    CommandAlwaysSkipped(DfAcl, ACCUMULATE_NEW_CMD, t2);
    CommandAlwaysSkipped(DfAcl, PHASE_CONTROL_CMD, t1);
    assert Records(DfAcl, true, DfTrailer) == Ok([]);
    // The rows.
    assert DfAcl[..|DfAcl|] == DfAcl;
    RowsDecode(DfAcl, true, |DfAcl|, acl, DfTrailer);
    RecordsDone(DfAcl, true, Expected(DfAcl, acl));
    // The PUT DATA rule in front of them.
    SeqAssoc(p, r, DfTrailer);
    if Update in acl {
      var c := acl[Update];
      AclTagDefined(0xFF, c.ac, c.keyRef);
      CommandRuleSkipped(DfAcl, PUT_DATA_ECD_CMD, c, r + DfTrailer);
    } else {
      assert p + (r + DfTrailer) == r + DfTrailer;
    }
  }

  /** The decoded form of the file's entry for `op`. */
  function EntryOf(acl: map<Op, Condition>, op: Op): AclEntry
  {
    AclEntry(op, Canonical(Lookup(acl, op)))
  }

  lemma ExpectedStep(table: seq<Row>, k: nat, acl: map<Op, Condition>)
    requires k < |table|
    ensures Expected(table[..k + 1], acl)
         == Expected(table[..k], acl) + RowEntries(table[k], Canonical(RowCondition(table[k], acl)))
  {
    assert table[..k + 1][..k] == table[..k];
  }

  lemma ExpectedEfFront(acl: map<Op, Condition>)
    ensures Expected(EfAcl[..5], acl)
         == [EntryOf(acl, Delete), EntryOf(acl, Rehabilitate), EntryOf(acl, Invalidate), EntryOf(acl, Write)]
  {
    assert EfAcl[..0] == [];
    ExpectedStep(EfAcl, 0, acl);
    ExpectedStep(EfAcl, 1, acl);
    ExpectedStep(EfAcl, 2, acl);
    ExpectedStep(EfAcl, 3, acl);
    ExpectedStep(EfAcl, 4, acl);
  }

  /** An EF's rules decode to its six operations in table order, each with its entry in decoded form or NEVER. */
  lemma ExpectedEf(acl: map<Op, Condition>)
    ensures Expected(EfAcl, acl)
         == [EntryOf(acl, Delete), EntryOf(acl, Rehabilitate), EntryOf(acl, Invalidate),
             EntryOf(acl, Write), EntryOf(acl, Update), EntryOf(acl, Read)]
  {
    ExpectedEfFront(acl);
    ExpectedStep(EfAcl, 5, acl);
    ExpectedStep(EfAcl, 6, acl);
    ExpectedStep(EfAcl, 7, acl);
    ExpectedStep(EfAcl, 8, acl);
    assert EfAcl[..9] == EfAcl;
  }

  lemma ExpectedDfFront(acl: map<Op, Condition>)
    ensures Expected(DfAcl[..6], acl)
         == [EntryOf(acl, Delete), EntryOf(acl, Rehabilitate), EntryOf(acl, Invalidate),
             EntryOf(acl, Create), EntryOf(acl, Create)]
  {
    assert DfAcl[..0] == [];
    ExpectedStep(DfAcl, 0, acl);
    ExpectedStep(DfAcl, 1, acl);
    ExpectedStep(DfAcl, 2, acl);
    ExpectedStep(DfAcl, 3, acl);
    ExpectedStep(DfAcl, 4, acl);
    ExpectedStep(DfAcl, 5, acl);
  }

  /**
   * A DF's rules decode to its operations in table order: the two create rows and the two
   * PUT DATA rows other than UPDATE all carry the CREATE entry.
   */
  lemma ExpectedDf(acl: map<Op, Condition>)
    ensures Expected(DfAcl, acl)
         == [EntryOf(acl, Delete), EntryOf(acl, Rehabilitate), EntryOf(acl, Invalidate),
             EntryOf(acl, Create), EntryOf(acl, Create), EntryOf(acl, Create),
             EntryOf(acl, Update), EntryOf(acl, Create)]
  {
    ExpectedDfFront(acl);
    ExpectedStep(DfAcl, 6, acl);
    ExpectedStep(DfAcl, 7, acl);
    ExpectedStep(DfAcl, 8, acl);
    ExpectedStep(DfAcl, 9, acl);
    ExpectedStep(DfAcl, 10, acl);
    assert DfAcl[..11] == DfAcl;
  }
}
