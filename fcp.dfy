/**
 * The File Control Parameter builders construct_ef_fcp, construct_df_fcp and construct_fcp
 * (card-cardos5.c:592-803): the template CREATE FILE sends, with the file's access rules
 * encoded as an Access Rule List.
 */
module Fcp {
  import opened Types
  import opened Tlv
  import opened Defs
  import opened Buffer
  import opened AclEncode

  /** The EF structures the builder tells apart: transparent (binary) and any other. */
  datatype Structure = Transparent | OtherStructure

  /**
   * The parts of sc_file_t the builders read. `acl` maps each operation to the entry
   * sc_file_get_acl_entry returns for it; an operation without one is absent.
   */
  datatype FileSpec = FileSpec(
    kind: FileType,
    structure: Structure,
    size: nat,
    id: int,
    name: seq<byte>,
    acl: map<Op, Condition>)

  /** The file's entry for `op`, or NEVER when it has none. */
  function Lookup(acl: map<Op, Condition>, op: Op): Condition
  {
    if op in acl then acl[op] else Condition(AcNever, KeyRefNone)
  }

  /** The condition a table row is encoded with: the file's entry, NEVER when the row is unmapped. */
  function RowCondition(row: Row, acl: map<Op, Condition>): Condition
  {
    match row.mapping
    case Unmapped => Condition(AcNever, KeyRefNone)
    case Maps(op) => Lookup(acl, op)
  }

  /** The "Populate ARL" loop: one access rule per row, in table order, or Nothing when one cannot be encoded. */
  function RowsArl(rows: seq<Row>, acl: map<Op, Condition>): Option<seq<byte>>
    decreases |rows|
  {
    if rows == [] then Some([])
    else
      var last := rows[|rows| - 1];
      var c := RowCondition(last, acl);
      match (RowsArl(rows[..|rows| - 1], acl), AclTag(last.amByte, c.ac, c.keyRef))
      case (Some(a), Some(t)) => Some(a + t)
      case _ => Nothing
  }

  /** The EF's Access Rule List. */
  function EfArl(acl: map<Op, Condition>): Option<seq<byte>>
  {
    RowsArl(EfAcl, acl)
  }

  /** The `(uint8_t)e->key_ref` cast of construct_ef_fcp: only the low byte of each entry's key reference is kept. */
  function TruncateKeyRefs(acl: map<Op, Condition>): map<Op, Condition>
  {
    map op | op in acl :: Condition(acl[op].ac, acl[op].keyRef % 0x100)
  }

  /** The EF's Access Rule List as construct_ef_fcp computes it, with the cast. */
  function EfArlAsWritten(acl: map<Op, Condition>): Option<seq<byte>>
  {
    RowsArl(EfAcl, TruncateKeyRefs(acl))
  }

  /** A command record that is always allowed. */
  function CommandAlways(header: seq<byte>): seq<byte>
    requires |header| == 4
  {
    ShortTlv(COMMAND_TAG, header) + ShortTlv(ALWAYS_TAG, [])
  }

  /** The rules every DF grants: PHASE CONTROL, and ACCUMULATE OBJECT DATA for new and existing objects. */
  const DfTrailer: seq<byte> :=
    CommandAlways(PHASE_CONTROL_CMD) + CommandAlways(ACCUMULATE_NEW_CMD) + CommandAlways(ACCUMULATE_APPEND_CMD)

  /** The PUT DATA command record, present when the DF has an UPDATE entry, guarded by that entry's condition. */
  function PutDataRule(acl: map<Op, Condition>): Option<seq<byte>>
  {
    if Update !in acl then Some([])
    else match AclTag(0xFF, acl[Update].ac, acl[Update].keyRef)
      case Nothing => Nothing
      case Some(c) => Some(ShortTlv(COMMAND_TAG, PUT_DATA_ECD_CMD) + c)
  }

  /** The DF's Access Rule List. */
  function DfArl(acl: map<Op, Condition>): Option<seq<byte>>
  {
    match (PutDataRule(acl), RowsArl(DfAcl, acl))
    case (Some(p), Some(r)) => Some(p + r + DfTrailer)
    case _ => Nothing
  }

  /** Descriptor, size and short file identifier of a transparent EF. */
  function EfHeader(size: nat): seq<byte>
    requires size <= 0xFFFF
  {
    ShortTlv(FCP_DESCRIPTOR, [FCP_TYPE_BINARY_EF]) + ShortTlv(FCP_EF_SIZE, Be16(size)) + ShortTlv(FCP_EF_SFID, [])
  }

  /** The name record, left out for an empty name. */
  function NameTlv(name: seq<byte>): seq<byte>
    requires |name| < 0x80
  {
    if |name| == 0 then [] else ShortTlv(FCP_DF_NAME, name)
  }

  /** Descriptor, size and name of a DF. */
  function DfHeader(size: nat, name: seq<byte>): seq<byte>
    requires size <= 0xFFFF && |name| < 0x80
  {
    ShortTlv(FCP_DESCRIPTOR, [FCP_TYPE_DF]) + ShortTlv(FCP_DF_SIZE, Be16(size)) + NameTlv(name)
  }

  /**
   * What construct_ef_fcp appends: NOT_SUPPORTED for a structure other than transparent,
   * INVALID_ARGUMENTS for a size over 16 bits, BUFFER_TOO_SMALL when the rules cannot be
   * encoded or overflow its 96-byte ARL buffer.
   */
  function EfFcp(f: FileSpec): Result<seq<byte>>
  {
    if f.structure != Transparent then Err(NotSupported)
    else if f.size > 0xFFFF then Err(InvalidArguments)
    else match EfArl(f.acl)
      case Nothing => Err(BufferTooSmall)
      case Some(arl) =>
        if |arl| > 96 then Err(BufferTooSmall)
        else Ok(EfHeader(f.size) + ShortTlv(FCP_ARL, arl))
  }

  /**
   * What construct_df_fcp appends: INVALID_ARGUMENTS for a size over 16 bits, BUFFER_TOO_SMALL
   * for a name or ARL too long for a short-form record, or rules that cannot be encoded.
   */
  function DfFcp(f: FileSpec): Result<seq<byte>>
  {
    if f.size > 0xFFFF then Err(InvalidArguments)
    else if |f.name| >= 0x80 then Err(BufferTooSmall)
    else match DfArl(f.acl)
      case Nothing => Err(BufferTooSmall)
      case Some(arl) =>
        if |arl| >= 0x80 then Err(BufferTooSmall)
        else Ok(DfHeader(f.size, f.name) + ShortTlv(FCP_ARL, arl))
  }

  /** The body the file type selects; a type other than DF and working EF is NOT_SUPPORTED. */
  function FcpBody(f: FileSpec): Result<seq<byte>>
  {
    match f.kind
    case Df => DfFcp(f)
    case WorkingEf => EfFcp(f)
    case OtherType => Err(NotSupported)
  }

  /**
   * What construct_fcp appends: the body, built in a 128-byte buffer, then the file identifier,
   * all inside one FCP template. The identifier is checked only once the body is built.
   */
  function FcpTemplate(f: FileSpec): Result<seq<byte>>
  {
    match FcpBody(f)
    case Err(e) => Err(e)
    case Ok(body) =>
      if |body| > 128 then Err(BufferTooSmall)
      else if f.id < 0 || f.id > 0xFFFF then Err(InvalidArguments)
      else if |body| + 4 >= 0x80 then Err(BufferTooSmall)
      else Ok(ShortTlv(FCP_START, body + ShortTlv(FCP_FILEID, Be16(f.id))))
  }

  /**
   * The status a builder returns when it means to append `r` with `room` bytes free: the
   * refusal, BUFFER_TOO_SMALL when the bytes do not fit, otherwise success.
   */
  function Outcome(r: Result<seq<byte>>, room: int): Status
  {
    match r
    case Err(e) => e
    case Ok(bytes) => if |bytes| <= room then Success else BufferTooSmall
  }

  /** The rules of a prefix of the rows are a prefix of the rules of all of them. */
  lemma {:induction false} RowsArlPrefix(rows: seq<Row>, acl: map<Op, Condition>, k: nat)
    requires k <= |rows| && RowsArl(rows, acl).Some?
    ensures RowsArl(rows[..k], acl).Some? && RowsArl(rows[..k], acl).value <= RowsArl(rows, acl).value
    decreases |rows|
  {
    if k < |rows| {
      var front := rows[..|rows| - 1];
      assert front[..k] == rows[..k];
      RowsArlPrefix(front, acl, k);
    } else {
      assert rows[..k] == rows;
    }
  }

  /** One more row appends its rule. */
  lemma RowsArlStep(table: seq<Row>, acl: map<Op, Condition>, i: nat)
    requires i < |table|
    ensures var c := RowCondition(table[i], acl);
      RowsArl(table[..i + 1], acl)
      == match (RowsArl(table[..i], acl), AclTag(table[i].amByte, c.ac, c.keyRef))
         case (Some(a), Some(t)) => Some(a + t)
         case _ => Nothing
  {
    assert table[..i + 1][..i] == table[..i];
  }

  /** A rule that cannot be encoded, or a prefix too long for the room, makes the whole list fail. */
  lemma RowsArlStepFails(table: seq<Row>, acl: map<Op, Condition>, i: nat, room: int)
    requires i < |table| && RowsArl(table[..i], acl).Some?
    requires var c := RowCondition(table[i], acl);
      var t := AclTag(table[i].amByte, c.ac, c.keyRef);
      !(t.Some? && |RowsArl(table[..i], acl).value| + |t.value| <= room)
    ensures !(RowsArl(table, acl).Some? && |RowsArl(table, acl).value| <= room)
  {
    RowsArlStep(table, acl, i);
    if RowsArl(table, acl).Some? {
      RowsArlPrefix(table, acl, i + 1);
    }
  }

  /**
   * The "Populate ARL" loop: add_acl_tag for each row of `table`, with the file's entry for the
   * row's operation or NEVER. It succeeds when every rule is encodable and all of them fit.
   */
  method AddRows(table: seq<Row>, acl: map<Op, Condition>, arl: Buf) returns (ok: bool)
    requires arl.Valid()
    modifies arl, arl.data
    ensures arl.Valid() && arl.data == old(arl.data)
    ensures ok <==> RowsArl(table, acl).Some? && old(arl.used) + |RowsArl(table, acl).value| <= arl.data.Length
    ensures ok ==> arl.Contents() == old(arl.Contents()) + RowsArl(table, acl).value
    ensures old(arl.Contents()) <= arl.Contents()
    ensures !ok ==>
      exists k ::
        && 0 <= k < |table|
        && RowsArl(table[..k], acl).Some?
        && (|| arl.Contents() == old(arl.Contents()) + RowsArl(table[..k], acl).value
            || arl.Contents() == old(arl.Contents()) + RowsArl(table[..k], acl).value + AmTag(table[k].amByte))
  {
    for i := 0 to |table|
      invariant arl.Valid() && arl.data == old(arl.data)
      invariant RowsArl(table[..i], acl).Some?
      invariant arl.Contents() == old(arl.Contents()) + RowsArl(table[..i], acl).value
    {
      var ac, keyRef := AcNever, KeyRefNone;
      if table[i].mapping.Maps? && table[i].mapping.op in acl {
        var e := acl[table[i].mapping.op];
        ac, keyRef := e.ac, e.keyRef;
      }
      assert Condition(ac, keyRef) == RowCondition(table[i], acl);
      RowsArlStep(table, acl, i);
      ghost var before := arl.Contents();
      ok := AddAclTag(table[i].amByte, ac, keyRef, arl);
      if !ok {
        RowsArlStepFails(table, acl, i, arl.data.Length - old(arl.used));
        // The rows before this one stay, and this row's access-mode record when it fitted.
        assert arl.Contents() == before || arl.Contents() == before + AmTag(table[i].amByte);
        return false;
      }
      ghost var tag := AclTag(table[i].amByte, ac, keyRef).value;
      assert arl.Contents() == before + tag;
      assert RowsArl(table[..i + 1], acl).value == RowsArl(table[..i], acl).value + tag;
      assert arl.Contents() == old(arl.Contents()) + RowsArl(table[..i + 1], acl).value by {
        assert before == old(arl.Contents()) + RowsArl(table[..i], acl).value;
        SeqAssoc(old(arl.Contents()), RowsArl(table[..i], acl).value, tag);
      }
    }
    assert table[..|table|] == table;
    return true;
  }

  /** An always-allowed command record, as construct_df_fcp appends it. */
  method PutCommandAlways(header: seq<byte>, arl: Buf) returns (ok: bool)
    requires |header| == 4 && arl.Valid()
    modifies arl, arl.data
    ensures arl.Valid() && arl.data == old(arl.data)
    ensures ok <==> old(arl.used) + |CommandAlways(header)| <= arl.data.Length
    ensures ok ==> arl.Contents() == old(arl.Contents()) + CommandAlways(header)
    ensures old(arl.Contents()) <= arl.Contents() <= old(arl.Contents()) + CommandAlways(header)
    ensures !ok ==> arl.Contents() == old(arl.Contents())
                    || arl.Contents() == old(arl.Contents()) + ShortTlv(COMMAND_TAG, header)
  {
    ok := arl.PutTag(COMMAND_TAG, header);
    if ok {
      ok := arl.PutTag0(ALWAYS_TAG);
    }
  }

  /** The PUT DATA rule of construct_df_fcp, appended when the DF has an UPDATE entry. */
  method PutPutDataRule(acl: map<Op, Condition>, arl: Buf) returns (ok: bool)
    requires arl.Valid()
    modifies arl, arl.data
    ensures arl.Valid() && arl.data == old(arl.data)
    ensures ok <==> PutDataRule(acl).Some? && old(arl.used) + |PutDataRule(acl).value| <= arl.data.Length
    ensures ok ==> arl.Contents() == old(arl.Contents()) + PutDataRule(acl).value
    ensures old(arl.Contents()) <= arl.Contents()
    ensures !ok ==> arl.Contents() == old(arl.Contents())
                    || arl.Contents() == old(arl.Contents()) + ShortTlv(COMMAND_TAG, PUT_DATA_ECD_CMD)
  {
    if Update !in acl {
      return true;
    }
    var e := acl[Update];
    ok := arl.PutTag(COMMAND_TAG, PUT_DATA_ECD_CMD);
    if !ok {
      return;
    }
    ghost var before := arl.Contents();
    ok := AddAclTag(0xFF, e.ac, e.keyRef, arl);
    if ok {
      SeqAssoc(old(arl.Contents()), ShortTlv(COMMAND_TAG, PUT_DATA_ECD_CMD), AclTag(0xFF, e.ac, e.keyRef).value);
    }
  }

  /** The three rules every DF grants, in the order construct_df_fcp appends them. */
  method PutDfTrailer(arl: Buf) returns (ok: bool)
    requires arl.Valid()
    modifies arl, arl.data
    ensures arl.Valid() && arl.data == old(arl.data)
    ensures ok <==> old(arl.used) + |DfTrailer| <= arl.data.Length
    ensures ok ==> arl.Contents() == old(arl.Contents()) + DfTrailer
    ensures old(arl.Contents()) <= arl.Contents() <= old(arl.Contents()) + DfTrailer
  {
    ok := PutCommandAlways(PHASE_CONTROL_CMD, arl);
    if !ok {
      return;
    }
    ok := PutCommandAlways(ACCUMULATE_NEW_CMD, arl);
    if !ok {
      return;
    }
    ok := PutCommandAlways(ACCUMULATE_APPEND_CMD, arl);
  }

  /** The DF's rules are the PUT DATA rule, the rows and the trailer, and exist when the first two do. */
  lemma DfArlParts(acl: map<Op, Condition>)
    ensures DfArl(acl).Some? <==> PutDataRule(acl).Some? && RowsArl(DfAcl, acl).Some?
    ensures DfArl(acl).Some? ==>
      DfArl(acl).value == PutDataRule(acl).value + RowsArl(DfAcl, acl).value + DfTrailer
  {
  }

  /** The ARL part of construct_df_fcp: the PUT DATA rule, the table rows, then the three fixed rules. */
  method PutDfArl(acl: map<Op, Condition>, arl: Buf) returns (ok: bool)
    requires arl.Valid()
    modifies arl, arl.data
    ensures arl.Valid() && arl.data == old(arl.data)
    ensures ok <==> DfArl(acl).Some? && old(arl.used) + |DfArl(acl).value| <= arl.data.Length
    ensures ok ==> arl.Contents() == old(arl.Contents()) + DfArl(acl).value
    ensures old(arl.Contents()) <= arl.Contents()
  {
    DfArlParts(acl);
    ok := PutPutDataRule(acl, arl);
    if !ok {
      return;
    }
    ghost var afterPut := arl.Contents();
    ok := AddRows(DfAcl, acl, arl);
    if !ok {
      return;
    }
    ghost var afterRows := arl.Contents();
    ok := PutDfTrailer(arl);
    if ok {
      assert arl.Contents() == afterRows + DfTrailer;
      SeqAssoc(old(arl.Contents()), PutDataRule(acl).value, RowsArl(DfAcl, acl).value);
      SeqAssoc(old(arl.Contents()), PutDataRule(acl).value + RowsArl(DfAcl, acl).value, DfTrailer);
    }
  }

  lemma HeaderLengths(size: nat, name: seq<byte>)
    requires size <= 0xFFFF
    ensures |EfHeader(size)| == 9
    ensures |name| < 0x80 ==> |DfHeader(size, name)| == 7 + (if |name| == 0 then 0 else 2 + |name|)
  {
  }

  /** Past the argument checks, construct_ef_fcp fails only for want of room, and otherwise appends header and rules. */
  lemma EfFcpShape(f: FileSpec)
    requires f.structure == Transparent && f.size <= 0xFFFF
    ensures EfFcp(f).Ok? <==> EfArl(f.acl).Some? && |EfArl(f.acl).value| <= 96
    ensures EfFcp(f).Err? ==> EfFcp(f).status == BufferTooSmall
    ensures EfFcp(f).Ok? ==>
      && EfFcp(f).value == EfHeader(f.size) + ShortTlv(FCP_ARL, EfArl(f.acl).value)
      && |EfFcp(f).value| == 11 + |EfArl(f.acl).value|
  {
    HeaderLengths(f.size, []);
  }

  /** Past the size check, construct_df_fcp fails only for want of room, and otherwise appends header and rules. */
  lemma DfFcpShape(f: FileSpec)
    requires f.size <= 0xFFFF
    ensures DfFcp(f).Ok? <==> |f.name| < 0x80 && DfArl(f.acl).Some? && |DfArl(f.acl).value| < 0x80
    ensures DfFcp(f).Err? ==> DfFcp(f).status == BufferTooSmall
    ensures DfFcp(f).Ok? ==>
      && DfFcp(f).value == DfHeader(f.size, f.name) + ShortTlv(FCP_ARL, DfArl(f.acl).value)
      && |DfFcp(f).value| == |DfHeader(f.size, f.name)| + 2 + |DfArl(f.acl).value|
  {
  }

  /** Descriptor, size and short file identifier, as construct_ef_fcp writes them. */
  method PutEfHeader(size: nat, fcp: Buf) returns (ok: bool)
    requires size <= 0xFFFF && fcp.Valid()
    modifies fcp, fcp.data
    ensures fcp.Valid() && fcp.data == old(fcp.data)
    ensures ok <==> old(fcp.used) + |EfHeader(size)| <= fcp.data.Length
    ensures ok ==> fcp.Contents() == old(fcp.Contents()) + EfHeader(size)
    ensures old(fcp.Contents()) <= fcp.Contents() <= old(fcp.Contents()) + EfHeader(size)
  {
    HeaderLengths(size, []);
    ok := fcp.PutTag1(FCP_DESCRIPTOR, FCP_TYPE_BINARY_EF);
    if !ok {
      return;
    }
    ok := fcp.PutTag(FCP_EF_SIZE, Be16(size));
    if !ok {
      return;
    }
    ok := fcp.PutTag0(FCP_EF_SFID);
  }

  /** Descriptor, size and (when there is one) name, as construct_df_fcp writes them. */
  method PutDfHeader(size: nat, name: seq<byte>, fcp: Buf) returns (ok: bool)
    requires size <= 0xFFFF && fcp.Valid()
    modifies fcp, fcp.data
    ensures fcp.Valid() && fcp.data == old(fcp.data)
    ensures ok <==> |name| < 0x80 && old(fcp.used) + |DfHeader(size, name)| <= fcp.data.Length
    ensures ok ==> fcp.Contents() == old(fcp.Contents()) + DfHeader(size, name)
    ensures old(fcp.Contents()) <= fcp.Contents()
    ensures |name| < 0x80 ==> fcp.Contents() <= old(fcp.Contents()) + DfHeader(size, name)
  {
    HeaderLengths(size, name);
    ok := fcp.PutTag1(FCP_DESCRIPTOR, FCP_TYPE_DF);
    if !ok {
      return;
    }
    ok := fcp.PutTag(FCP_DF_SIZE, Be16(size));
    if !ok {
      return;
    }
    ghost var sized := fcp.Contents();
    ghost var a, b := ShortTlv(FCP_DESCRIPTOR, [FCP_TYPE_DF]), ShortTlv(FCP_DF_SIZE, Be16(size));
    SeqAssoc(old(fcp.Contents()), a, b);
    assert sized == old(fcp.Contents()) + (a + b);
    if |name| != 0 {
      ok := fcp.PutTag(FCP_DF_NAME, name);
      if ok {
        assert fcp.Contents() == sized + NameTlv(name);
        SeqAssoc(old(fcp.Contents()), a + b, NameTlv(name));
      }
    } else {
      assert a + b + NameTlv(name) == a + b;
    }
  }

  /** construct_ef_fcp: appends EfFcp(f) when it succeeds and fits, and never removes what was there. */
  method ConstructEfFcp(f: FileSpec, fcp: Buf) returns (status: Status)
    requires fcp.Valid()
    modifies fcp, fcp.data
    ensures fcp.Valid() && fcp.data == old(fcp.data)
    ensures status == Outcome(EfFcp(f), fcp.data.Length - old(fcp.used))
    ensures status == Success ==> EfFcp(f).Ok? && fcp.Contents() == old(fcp.Contents()) + EfFcp(f).value
    ensures status == NotSupported || status == InvalidArguments ==>
      fcp.used == old(fcp.used) && fcp.data[..] == old(fcp.data[..])
    ensures old(fcp.Contents()) <= fcp.Contents()
    ensures status == BufferTooSmall ==> f.size <= 0xFFFF && fcp.Contents() <= old(fcp.Contents()) + EfHeader(f.size)
  {
    if f.structure != Transparent {
      return NotSupported;
    }
    if f.size > 0xFFFF {
      return InvalidArguments;
    }
    EfFcpShape(f);
    var ok := PutEfHeader(f.size, fcp);
    if !ok {
      return BufferTooSmall;
    }
    ghost var afterHeader := fcp.Contents();
    var arlBuf := new byte[96];
    var arl := new Buf.Init(arlBuf);
    ok := AddRows(EfAcl, f.acl, arl);
    if !ok {
      return BufferTooSmall;
    }
    assert arl.Contents() == EfArl(f.acl).value;
    ok := fcp.PutTag(FCP_ARL, arl.Contents());
    if !ok {
      return BufferTooSmall;
    }
    SeqAssoc(old(fcp.Contents()), EfHeader(f.size), ShortTlv(FCP_ARL, arl.Contents()));
    return Success;
  }

  /** construct_df_fcp: appends DfFcp(f) when it succeeds and fits, and never removes what was there. */
  method ConstructDfFcp(f: FileSpec, fcp: Buf) returns (status: Status)
    requires fcp.Valid()
    modifies fcp, fcp.data
    ensures fcp.Valid() && fcp.data == old(fcp.data)
    ensures status == Outcome(DfFcp(f), fcp.data.Length - old(fcp.used))
    ensures status == Success ==> DfFcp(f).Ok? && fcp.Contents() == old(fcp.Contents()) + DfFcp(f).value
    ensures status == InvalidArguments ==> fcp.used == old(fcp.used) && fcp.data[..] == old(fcp.data[..])
    ensures old(fcp.Contents()) <= fcp.Contents()
    ensures status == BufferTooSmall ==>
      && f.size <= 0xFFFF
      && (|f.name| < 0x80 ==> fcp.Contents() <= old(fcp.Contents()) + DfHeader(f.size, f.name))
  {
    if f.size > 0xFFFF {
      return InvalidArguments;
    }
    DfFcpShape(f);
    var ok := PutDfHeader(f.size, f.name, fcp);
    if !ok {
      return BufferTooSmall;
    }
    var arlBuf := new byte[128];
    var arl := new Buf.Init(arlBuf);
    ok := PutDfArl(f.acl, arl);
    if !ok {
      return BufferTooSmall;
    }
    assert arl.Contents() == DfArl(f.acl).value;
    ok := fcp.PutTag(FCP_ARL, arl.Contents());
    if !ok {
      return BufferTooSmall;
    }
    SeqAssoc(old(fcp.Contents()), DfHeader(f.size, f.name), ShortTlv(FCP_ARL, arl.Contents()));
    return Success;
  }

  /**
   * construct_fcp: builds the body and the file identifier in a 128-byte buffer and appends
   * them to `buf` as one FCP template. The caller's buffer changes only on success.
   */
  method ConstructFcp(f: FileSpec, buf: Buf) returns (status: Status)
    requires buf.Valid()
    modifies buf, buf.data
    ensures buf.Valid() && buf.data == old(buf.data)
    ensures status == Outcome(FcpTemplate(f), buf.data.Length - old(buf.used))
    ensures status == Success ==> FcpTemplate(f).Ok? && buf.Contents() == old(buf.Contents()) + FcpTemplate(f).value
    ensures status != Success ==> buf.used == old(buf.used) && buf.data[..] == old(buf.data[..])
  {
    var fcpBuf := new byte[128];
    var fcp := new Buf.Init(fcpBuf);
    var r: Status;
    if f.kind == Df {
      r := ConstructDfFcp(f, fcp);
    } else if f.kind == WorkingEf {
      r := ConstructEfFcp(f, fcp);
    } else {
      return NotSupported;
    }
    if r != Success {
      return r;
    }
    ghost var body := FcpBody(f).value;
    assert fcp.Contents() == body;
    if f.id < 0 || f.id > 0xFFFF {
      return InvalidArguments;
    }
    var ok := fcp.PutTag(FCP_FILEID, Be16(f.id));
    if !ok {
      return BufferTooSmall;
    }
    assert fcp.Contents() == body + ShortTlv(FCP_FILEID, Be16(f.id));
    ok := buf.PutTag(FCP_START, fcp.Contents());
    if !ok {
      return BufferTooSmall;
    }
    return Success;
  }
}
