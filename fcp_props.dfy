/**
 * When the FCP builders succeed and how long their Access Rule Lists are: every rule is
 * 5 or 11 bytes, so an EF's rules always fit their buffer while a DF's may not.
 */
module FcpProps {
  import opened Types
  import opened Tlv
  import opened Defs
  import opened AclEncode
  import opened Fcp

  /** The length of one row's rule: 5 bytes for NONE and NEVER, 11 for a user-authentication template. */
  function RuleLength(c: Condition): nat
  {
    if c.ac == AcNone || c.ac == AcNever then 5 else 11
  }

  /** The length of the rules of `rows`, when they can be encoded. */
  function RulesLength(rows: seq<Row>, acl: map<Op, Condition>): nat
    decreases |rows|
  {
    if rows == [] then 0
    else RulesLength(rows[..|rows| - 1], acl) + RuleLength(RowCondition(rows[|rows| - 1], acl))
  }

  /** The longest the rules of `rows` can be: an unmapped row is always NEVER. */
  function MaxRulesLength(rows: seq<Row>): nat
    decreases |rows|
  {
    if rows == [] then 0
    else MaxRulesLength(rows[..|rows| - 1]) + (if rows[|rows| - 1].mapping.Unmapped? then 5 else 11)
  }

  /** The rules of a list of rows can be encoded exactly when each row's condition can. */
  lemma {:induction false} RowsArlDefined(rows: seq<Row>, acl: map<Op, Condition>)
    ensures RowsArl(rows, acl).Some? <==> forall j :: 0 <= j < |rows| ==> Encodable(RowCondition(rows[j], acl))
    decreases |rows|
  {
    if rows != [] {
      var front := rows[..|rows| - 1];
      var last := rows[|rows| - 1];
      var c := RowCondition(last, acl);
      RowsArlDefined(front, acl);
      AclTagDefined(last.amByte, c.ac, c.keyRef);
      assert forall j :: 0 <= j < |front| ==> front[j] == rows[j];
    }
  }

  /** The rules of a list of rows are as long as RulesLength says, and never longer than MaxRulesLength. */
  lemma {:induction false} RowsArlLength(rows: seq<Row>, acl: map<Op, Condition>)
    requires forall j :: 0 <= j < |rows| ==> rows[j].amByte != 0xFF
    requires RowsArl(rows, acl).Some?
    ensures |RowsArl(rows, acl).value| == RulesLength(rows, acl) <= MaxRulesLength(rows)
    decreases |rows|
  {
    if rows != [] {
      var front := rows[..|rows| - 1];
      var last := rows[|rows| - 1];
      var c := RowCondition(last, acl);
      assert forall j :: 0 <= j < |front| ==> front[j] == rows[j];
      RowsArlLength(front, acl);
      assert |AclTag(last.amByte, c.ac, c.keyRef).value| == RuleLength(c);
    }
  }

  /** With every mapped row's condition a PIN, the rules reach their longest. */
  lemma {:induction false} RulesLengthAllPins(rows: seq<Row>, acl: map<Op, Condition>)
    requires forall r :: r in rows && r.mapping.Maps? ==> RuleLength(RowCondition(r, acl)) == 11
    ensures RulesLength(rows, acl) == MaxRulesLength(rows)
    decreases |rows|
  {
    if rows != [] {
      var front := rows[..|rows| - 1];
      assert forall r :: r in front ==> r in rows;
      RulesLengthAllPins(front, acl);
    }
  }

  lemma MaxRulesLengthStep(table: seq<Row>, k: nat)
    requires k < |table|
    ensures MaxRulesLength(table[..k + 1])
         == MaxRulesLength(table[..k]) + (if table[k].mapping.Unmapped? then 5 else 11)
  {
    assert table[..k + 1][..k] == table[..k];
  }

  lemma EfMaxRulesLength()
    ensures MaxRulesLength(EfAcl) == 81
  {
    assert EfAcl[..0] == [];
    MaxRulesLengthStep(EfAcl, 0);
    MaxRulesLengthStep(EfAcl, 1);
    MaxRulesLengthStep(EfAcl, 2);
    MaxRulesLengthStep(EfAcl, 3);
    MaxRulesLengthStep(EfAcl, 4);
    MaxRulesLengthStep(EfAcl, 5);
    MaxRulesLengthStep(EfAcl, 6);
    MaxRulesLengthStep(EfAcl, 7);
    MaxRulesLengthStep(EfAcl, 8);
    assert EfAcl[..9] == EfAcl;
  }

  lemma DfMaxRulesLength()
    ensures MaxRulesLength(DfAcl) == 103
  {
    assert DfAcl[..0] == [];
    MaxRulesLengthStep(DfAcl, 0);
    MaxRulesLengthStep(DfAcl, 1);
    MaxRulesLengthStep(DfAcl, 2);
    MaxRulesLengthStep(DfAcl, 3);
    MaxRulesLengthStep(DfAcl, 4);
    MaxRulesLengthStep(DfAcl, 5);
    MaxRulesLengthStep(DfAcl, 6);
    MaxRulesLengthStep(DfAcl, 7);
    MaxRulesLengthStep(DfAcl, 8);
    MaxRulesLengthStep(DfAcl, 9);
    MaxRulesLengthStep(DfAcl, 10);
    assert DfAcl[..11] == DfAcl;
  }

  /** No EF row is about creating files. */
  lemma EfAclOps()
    ensures forall r :: r in EfAcl ==> r.mapping != Maps(Create)
  {
  }

  /** No DF row is about writing or reading. */
  lemma DfAclOps()
    ensures forall r :: r in DfAcl ==> r.mapping != Maps(Write) && r.mapping != Maps(Read)
  {
  }

  /** An EF's rules can be encoded exactly when each entry the EF table uses can. */
  lemma EfArlDefined(acl: map<Op, Condition>)
    ensures EfArl(acl).Some? <==> forall op :: op in acl && op != Create ==> Encodable(acl[op])
  {
    RowsArlDefined(EfAcl, acl);
    EfAclOps();
    if EfArl(acl).Some? {
      forall op | op in acl && op != Create
        ensures Encodable(acl[op])
      {
        var j := match op
          case Delete => 0
          case Rehabilitate => 2
          case Invalidate => 3
          case Write => 4
          case Update => 5
          case Read => 6;
        assert RowCondition(EfAcl[j], acl) == acl[op];
      }
    }
  }

  /** A DF's rows can be encoded exactly when each entry the DF table uses can. */
  lemma DfRowsDefined(acl: map<Op, Condition>)
    ensures RowsArl(DfAcl, acl).Some? <==> forall op :: op in acl && op != Write && op != Read ==> Encodable(acl[op])
  {
    RowsArlDefined(DfAcl, acl);
    DfAclOps();
    if RowsArl(DfAcl, acl).Some? {
      forall op | op in acl && op != Write && op != Read
        ensures Encodable(acl[op])
      {
        var j := match op
          case Delete => 0
          case Rehabilitate => 2
          case Invalidate => 3
          case Create => 4
          case Update => 8;
        assert RowCondition(DfAcl[j], acl) == acl[op];
      }
    }
  }

  /** A DF's rules can be encoded exactly when each entry other than WRITE and READ can. */
  lemma DfArlDefined(acl: map<Op, Condition>)
    ensures DfArl(acl).Some? <==> forall op :: op in acl && op != Write && op != Read ==> Encodable(acl[op])
  {
    DfArlParts(acl);
    DfRowsDefined(acl);
    if Update in acl {
      AclTagDefined(0xFF, acl[Update].ac, acl[Update].keyRef);
    }
  }

  /** An EF's rules are at most 81 bytes, so they always fit construct_ef_fcp's 96-byte buffer. */
  lemma EfArlFits(acl: map<Op, Condition>)
    requires EfArl(acl).Some?
    ensures |EfArl(acl).value| <= 81
  {
    TablesWellFormed();
    RowsArlLength(EfAcl, acl);
    EfMaxRulesLength();
  }

  /**
   * construct_fcp's template for a working EF exists exactly when the EF is transparent, its
   * size and identifier fit 16 bits and its entries can be encoded, and is at most 98 bytes.
   */
  lemma EfFcpDefined(f: FileSpec)
    requires f.kind == WorkingEf
    ensures FcpTemplate(f).Ok? <==>
      && f.structure == Transparent && f.size <= 0xFFFF && 0 <= f.id <= 0xFFFF
      && forall op :: op in f.acl && op != Create ==> Encodable(f.acl[op])
    ensures FcpTemplate(f).Err? ==> FcpTemplate(f).status in {NotSupported, InvalidArguments, BufferTooSmall}
    ensures FcpTemplate(f).Ok? ==> |FcpTemplate(f).value| <= 98
  {
    EfArlDefined(f.acl);
    if f.structure == Transparent && f.size <= 0xFFFF && EfArl(f.acl).Some? {
      EfArlFits(f.acl);
      EfFcpShape(f);
    }
  }

  /**
   * construct_fcp's status for a working EF, through `Outcome`: it succeeds only when the EF
   * is transparent, its size and identifier fit 16 bits and its entries can be encoded, and
   * then always does when the caller's buffer has 98 bytes free.
   */
  lemma EfConstructSucceeds(f: FileSpec, room: int)
    requires f.kind == WorkingEf
    ensures Outcome(FcpTemplate(f), room) == Success ==>
      && f.structure == Transparent && f.size <= 0xFFFF && 0 <= f.id <= 0xFFFF
      && forall op :: op in f.acl && op != Create ==> Encodable(f.acl[op])
    ensures room >= 98 ==>
      (Outcome(FcpTemplate(f), room) == Success <==>
        && f.structure == Transparent && f.size <= 0xFFFF && 0 <= f.id <= 0xFFFF
        && forall op :: op in f.acl && op != Create ==> Encodable(f.acl[op]))
  {
    EfFcpDefined(f);
  }

  /** The length of the PUT DATA rule: absent without an UPDATE entry, otherwise header and condition. */
  function PutDataLength(acl: map<Op, Condition>): nat
  {
    if Update !in acl then 0 else 6 + RuleLength(acl[Update]) - 3
  }

  /** A DF's rules are the PUT DATA rule, the rows' rules and 24 bytes of fixed rules. */
  lemma DfArlLength(acl: map<Op, Condition>)
    requires DfArl(acl).Some?
    ensures |DfArl(acl).value| == PutDataLength(acl) + RulesLength(DfAcl, acl) + 24
    ensures |DfArl(acl).value| <= 141
  {
    DfArlParts(acl);
    TablesWellFormed();
    RowsArlLength(DfAcl, acl);
    DfMaxRulesLength();
    assert |DfTrailer| == 24;
  }

  /**
   * A DF whose every operation is guarded by a PIN has 141 bytes of rules, more than a
   * short-form record holds, so construct_df_fcp fails with BUFFER_TOO_SMALL.
   */
  lemma DfAllPinsTooLong(f: FileSpec)
    requires f.size <= 0xFFFF && |f.name| < 0x80
    requires forall op :: op != Write && op != Read ==>
      op in f.acl && f.acl[op].ac in {AcChv, AcTerm, AcAut} && f.acl[op].keyRef < 0x80
    ensures DfArl(f.acl).Some? && |DfArl(f.acl).value| == 141
    ensures DfFcp(f) == Err(BufferTooSmall)
  {
    var acl := f.acl;
    assert Delete in acl && Rehabilitate in acl && Invalidate in acl && Create in acl && Update in acl;
    DfArlDefined(acl);
    assert DfArl(acl).Some?;
    DfAclOps();
    RulesLengthAllPins(DfAcl, acl);
    DfMaxRulesLength();
    assert RulesLength(DfAcl, acl) == 103;
    assert PutDataLength(acl) == 14;
    DfArlLength(acl);
    DfFcpShape(f);
  }

  /** Truncating the key references changes no rule that could be encoded before. */
  lemma {:induction false} RowsArlTruncated(rows: seq<Row>, acl: map<Op, Condition>)
    requires RowsArl(rows, acl).Some?
    ensures RowsArl(rows, TruncateKeyRefs(acl)) == RowsArl(rows, acl)
    decreases |rows|
  {
    if rows != [] {
      var last := rows[|rows| - 1];
      var c := RowCondition(last, acl);
      var t := RowCondition(last, TruncateKeyRefs(acl));
      RowsArlTruncated(rows[..|rows| - 1], acl);
      AclTagDefined(last.amByte, c.ac, c.keyRef);
      assert t.ac == c.ac && (c.keyRef < 0x100 ==> t.keyRef == c.keyRef);
      assert AclTag(last.amByte, t.ac, t.keyRef) == AclTag(last.amByte, c.ac, c.keyRef);
    }
  }

  /**
   * The cast in construct_ef_fcp changes nothing for the files whose rules the builder can
   * encode without it: it matters only for key references above one byte.
   */
  lemma EfArlAsWrittenAgrees(acl: map<Op, Condition>)
    requires EfArl(acl).Some?
    ensures EfArlAsWritten(acl) == EfArl(acl)
  {
    RowsArlTruncated(EfAcl, acl);
  }
}
