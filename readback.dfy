/**
 * What the card reads back from a File Control Parameter template: the builders' output parsed
 * record by record, the root directory's pattern, and what the EF builder's cast does to the
 * rules it writes.
 */
module Readback {
  import opened Types
  import opened Tlv
  import opened Defs
  import opened AclEncode
  import opened ArlDecode
  import opened Fcp
  import opened FcpProps
  import opened RoundTrip

  /** Every operation allowed to everyone. */
  const AllNone: map<Op, Condition> :=
    map op | op in {Delete, Rehabilitate, Invalidate, Write, Update, Read, Create} :: Condition(AcNone, KeyRefNone)

  lemma AllNoneTotal(op: Op)
    ensures op in AllNone && AllNone[op] == Condition(AcNone, KeyRefNone)
  {
    match op
    case Delete =>
    case Rehabilitate =>
    case Invalidate =>
    case Write =>
    case Update =>
    case Read =>
    case Create =>
  }

  lemma {:induction false} AllowAllIsExpected(rows: seq<Row>)
    ensures AllowAll(rows) == Expected(rows, AllNone)
    decreases |rows|
  {
    if rows != [] {
      AllowAllIsExpected(rows[..|rows| - 1]);
      var last := rows[|rows| - 1];
      if last.mapping.Maps? {
        AllNoneTotal(last.mapping.op);
      }
      assert RowEntries(last, Canonical(RowCondition(last, AllNone))) == RowEntries(last, Condition(AcNone, KeyRefNone));
    }
  }

  /**
   * The root directory's pattern decodes to what the rules of a DF open to everyone decode
   * to: NONE for each of the DF's operations, in table order.
   */
  lemma RootSentinelAllowsAll(arl: seq<byte>)
    requires IsRootSentinel(arl)
    ensures DfArl(AllNone).Some?
    ensures DfArlDecode(arl) == DfArlDecode(DfArl(AllNone).value)
    ensures var none := Condition(AcNone, KeyRefNone);
      DfArlDecode(arl)
      == Ok([AclEntry(Delete, none), AclEntry(Rehabilitate, none), AclEntry(Invalidate, none),
             AclEntry(Create, none), AclEntry(Create, none), AclEntry(Create, none),
             AclEntry(Update, none), AclEntry(Create, none)])
  {
    AllowAllIsExpected(DfAcl);
    ExpectedDf(AllNone);
    DfArlDefined(AllNone);
    DfRoundTrip(AllNone);
  }

  /**
   * The cast in construct_ef_fcp turns a key reference above one byte into another PIN: READ
   * guarded by reference 0x101 is refused by the corrected builder but, as written, encoded as
   * READ guarded by PIN 1, which is what the card then reads back.
   */
  lemma EfKeyRefTruncated()
    ensures var wide := map[Read := Condition(AcChv, 0x101)];
      && EfArl(wide) == Nothing
      && EfArlAsWritten(wide).Some?
      && EfArlDecode(EfArlAsWritten(wide).value) == Ok(Expected(EfAcl, map[Read := Condition(AcChv, 1)]))
  {
    var wide := map[Read := Condition(AcChv, 0x101)];
    var narrow := map[Read := Condition(AcChv, 1)];
    assert TruncateKeyRefs(wide) == narrow;
    EfArlDefined(wide);
    EfArlDefined(narrow);
    EfRoundTrip(narrow);
  }

  /** construct_fcp's output reads back as one FCP template holding the body and then the file identifier. */
  lemma FcpTemplateReadsBack(f: FileSpec)
    requires FcpTemplate(f).Ok?
    ensures FcpBody(f).Ok? && 0 <= f.id <= 0xFFFF && |FcpBody(f).value| + 4 < 0x80
    ensures ParseFields(FcpTemplate(f).value)
         == Some([Field(FCP_START, FcpBody(f).value + ShortTlv(FCP_FILEID, Be16(f.id)))])
  {
    var top := [Field(FCP_START, FcpBody(f).value + ShortTlv(FCP_FILEID, Be16(f.id)))];
    assert EncodeFields(top[1..]) == [];
    assert FcpTemplate(f).value == EncodeFields(top);
    EncodeFieldsRoundTrip(top);
  }

  /** The records of an EF's body and identifier, in the order construct_ef_fcp and construct_fcp write them. */
  lemma EfFields(f: FileSpec, arl: seq<byte>)
    requires f.structure == Transparent && f.size <= 0xFFFF && 0 <= f.id <= 0xFFFF
    requires EfArl(f.acl) == Some(arl) && |arl| <= 96
    ensures EfFcp(f).Ok?
    ensures var fields := [Field(FCP_DESCRIPTOR, [FCP_TYPE_BINARY_EF]), Field(FCP_EF_SIZE, Be16(f.size)),
                           Field(FCP_EF_SFID, []), Field(FCP_ARL, arl), Field(FCP_FILEID, Be16(f.id))];
      ShortFields(fields) && EfFcp(f).value + ShortTlv(FCP_FILEID, Be16(f.id)) == EncodeFields(fields)
  {
    EfFcpShape(f);
    var d, s, sf := Field(FCP_DESCRIPTOR, [FCP_TYPE_BINARY_EF]), Field(FCP_EF_SIZE, Be16(f.size)), Field(FCP_EF_SFID, []);
    var a, i := Field(FCP_ARL, arl), Field(FCP_FILEID, Be16(f.id));
    EncodeFieldsOne(d);
    EncodeFieldsOne(s);
    EncodeFieldsOne(sf);
    EncodeFieldsOne(a);
    EncodeFieldsOne(i);
    EncodeFieldsAppend([d], [s]);
    EncodeFieldsAppend([d] + [s], [sf]);
    EncodeFieldsAppend([d] + [s] + [sf], [a]);
    EncodeFieldsAppend([d] + [s] + [sf] + [a], [i]);
    assert [d] + [s] + [sf] + [a] + [i] == [d, s, sf, a, i];
  }

  /**
   * An EF's FCP reads back as one FCP template holding, in order, the binary-EF descriptor,
   * the size, an empty short file identifier, the access rules and the file identifier: the
   * size and identifier read back as the file's, and the rules decode to the file's entries.
   */
  lemma EfFcpReadsBack(f: FileSpec)
    requires f.kind == WorkingEf && FcpTemplate(f).Ok?
    ensures var top := ParseFields(FcpTemplate(f).value);
      && top.Some? && |top.value| == 1 && top.value[0].tag == FCP_START
      && var fs := ParseFields(top.value[0].value);
      && fs.Some? && |fs.value| == 5
      && fs.value[0] == Field(FCP_DESCRIPTOR, [FCP_TYPE_BINARY_EF])
      && fs.value[1].tag == FCP_EF_SIZE && |fs.value[1].value| == 2 && BeValue(fs.value[1].value) == f.size
      && fs.value[2] == Field(FCP_EF_SFID, [])
      && fs.value[3].tag == FCP_ARL && EfArlDecode(fs.value[3].value) == Ok(Expected(EfAcl, f.acl))
      && fs.value[4].tag == FCP_FILEID && |fs.value[4].value| == 2 && BeValue(fs.value[4].value) == f.id
  {
    FcpTemplateReadsBack(f);
    EfFcpShape(f);
    var arl := EfArl(f.acl).value;
    EfFields(f, arl);
    var fields := [Field(FCP_DESCRIPTOR, [FCP_TYPE_BINARY_EF]), Field(FCP_EF_SIZE, Be16(f.size)),
                   Field(FCP_EF_SFID, []), Field(FCP_ARL, arl), Field(FCP_FILEID, Be16(f.id))];
    EncodeFieldsRoundTrip(fields);
    EfRoundTrip(f.acl);
  }

  /** The name record, present when the DF has a name. */
  function NameFields(name: seq<byte>): seq<Field>
  {
    if |name| == 0 then [] else [Field(FCP_DF_NAME, name)]
  }

  /** The records of a DF's body and identifier, in the order construct_df_fcp and construct_fcp write them. */
  lemma DfFields(f: FileSpec, arl: seq<byte>)
    requires f.size <= 0xFFFF && 0 <= f.id <= 0xFFFF && |f.name| < 0x80
    requires DfArl(f.acl) == Some(arl) && |arl| < 0x80
    ensures DfFcp(f).Ok?
    ensures var fields := [Field(FCP_DESCRIPTOR, [FCP_TYPE_DF]), Field(FCP_DF_SIZE, Be16(f.size))]
                          + NameFields(f.name) + [Field(FCP_ARL, arl), Field(FCP_FILEID, Be16(f.id))];
      ShortFields(fields) && DfFcp(f).value + ShortTlv(FCP_FILEID, Be16(f.id)) == EncodeFields(fields)
  {
    DfFcpShape(f);
    var d, s := Field(FCP_DESCRIPTOR, [FCP_TYPE_DF]), Field(FCP_DF_SIZE, Be16(f.size));
    var a, i := Field(FCP_ARL, arl), Field(FCP_FILEID, Be16(f.id));
    var n := NameFields(f.name);
    EncodeFieldsOne(d);
    EncodeFieldsOne(s);
    EncodeFieldsOne(a);
    EncodeFieldsOne(i);
    if |f.name| != 0 {
      EncodeFieldsOne(Field(FCP_DF_NAME, f.name));
    }
    assert ShortFields(n) && EncodeFields(n) == NameTlv(f.name);
    EncodeFieldsAppend([d], [s]);
    EncodeFieldsAppend([d] + [s], n);
    EncodeFieldsAppend([d] + [s] + n, [a]);
    EncodeFieldsAppend([d] + [s] + n + [a], [i]);
    assert [d] + [s] + n + [a] + [i] == [d, s] + n + [a, i];
  }

  /**
   * The records of a DF's template as the card reads them: the DF descriptor, the size, the
   * name when there is one, the access rules and the file identifier. Size, name and identifier
   * are the file's, and the rules decode to the file's entries.
   */
  ghost predicate DfRecords(fs: seq<Field>, f: FileSpec)
  {
    var k := if |f.name| == 0 then 0 else 1;
    && |fs| == 4 + k
    && fs[0] == Field(FCP_DESCRIPTOR, [FCP_TYPE_DF])
    && fs[1].tag == FCP_DF_SIZE && |fs[1].value| == 2 && BeValue(fs[1].value) == f.size
    && (k == 1 ==> fs[2] == Field(FCP_DF_NAME, f.name))
    && fs[2 + k].tag == FCP_ARL && DfArlDecode(fs[2 + k].value) == Ok(Expected(DfAcl, f.acl))
    && fs[3 + k].tag == FCP_FILEID && |fs[3 + k].value| == 2 && BeValue(fs[3 + k].value) == f.id
  }

  lemma DfFieldsMeaning(f: FileSpec, arl: seq<byte>)
    requires f.size <= 0xFFFF && 0 <= f.id <= 0xFFFF
    requires DfArl(f.acl) == Some(arl)
    ensures DfRecords([Field(FCP_DESCRIPTOR, [FCP_TYPE_DF]), Field(FCP_DF_SIZE, Be16(f.size))]
                      + NameFields(f.name) + [Field(FCP_ARL, arl), Field(FCP_FILEID, Be16(f.id))], f)
  {
    DfRoundTrip(f.acl);
  }

  /** A DF's FCP reads back as one FCP template whose records are the DF's, in order. */
  lemma DfFcpReadsBack(f: FileSpec)
    requires f.kind == Df && FcpTemplate(f).Ok?
    ensures var top := ParseFields(FcpTemplate(f).value);
      && top.Some? && |top.value| == 1 && top.value[0].tag == FCP_START
      && var fs := ParseFields(top.value[0].value);
      && fs.Some? && DfRecords(fs.value, f)
  {
    FcpTemplateReadsBack(f);
    DfFcpShape(f);
    var arl := DfArl(f.acl).value;
    DfFields(f, arl);
    var fields := [Field(FCP_DESCRIPTOR, [FCP_TYPE_DF]), Field(FCP_DF_SIZE, Be16(f.size))]
                  + NameFields(f.name) + [Field(FCP_ARL, arl), Field(FCP_FILEID, Be16(f.id))];
    EncodeFieldsRoundTrip(fields);
    DfFieldsMeaning(f, arl);
  }
}
