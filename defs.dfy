/**
 * The vocabulary of the CardOS 5 access rules: the tag constants of card-cardos5.h, the
 * operations and access-control methods of OpenSC's file descriptor, and the two access-mode
 * tables ef_acl and df_acl.
 *
 * card-cardos5.h is not part of this model. The tag values below are the ISO/IEC 7816-4
 * values the names stand for (expanded security attributes and FCP templates); the access-mode
 * bytes and command header bytes are stand-ins. The proofs rely on the tags the decoder
 * compares being distinct, on the table's access-mode bytes being distinct and not 0xFF, and
 * on the lengths ARL_*_LEN, CRT_LEN_* agreeing with what the encoder writes.
 */
module Defs {
  import opened Types

  // Access Rule List tags and lengths.
  const AM_TAG: byte := 0x80          // ARL_ACCESS_MODE_BYTE_TAG
  const AM_LEN: byte := 1             // ARL_ACCESS_MODE_BYTE_LEN
  const COMMAND_TAG: byte := 0x84     // ARL_COMMAND_TAG (command header CLA INS P1 P2)
  const DUMMY_TAG: byte := 0x81       // ARL_DUMMY_TAG
  const DUMMY_LEN: byte := 0          // ARL_DUMMY_LEN
  const ALWAYS_TAG: byte := 0x90      // ARL_ALWAYS_TAG
  const ALWAYS_LEN: byte := 0         // ARL_ALWAYS_LEN
  const NEVER_TAG: byte := 0x97       // ARL_NEVER_TAG
  const NEVER_LEN: byte := 0          // ARL_NEVER_LEN
  const USER_AUTH_TAG: byte := 0xA4   // ARL_USER_AUTH_TAG (authentication template)
  const USER_AUTH_LEN: byte := 6      // ARL_USER_AUTH_LEN
  const PINREF_TAG: byte := 0x83      // CRT_TAG_PINREF
  const PINREF_LEN: byte := 1         // CRT_LEN_PINREF
  const KUQ_TAG: byte := 0x95         // CRT_TAG_KUQ
  const KUQ_LEN: byte := 1            // CRT_LEN_KUQ
  const KUQ_USER_AUTH: byte := 0x08   // KUQ_USER_AUTH

  /** The reserved high bit of a PIN reference (BACKTRACK_PIN); BACKTRACK_MASK keeps the rest. */
  const BACKTRACK_PIN: nat := 0x80

  // File Control Parameter tags.
  const FCP_START: byte := 0x62       // FCP_TAG_START
  const FCP_DESCRIPTOR: byte := 0x82  // FCP_TAG_DESCRIPTOR
  const FCP_FILEID: byte := 0x83      // FCP_TAG_FILEID
  const FCP_DF_NAME: byte := 0x84     // FCP_TAG_DF_NAME
  const FCP_EF_SIZE: byte := 0x80     // FCP_TAG_EF_SIZE
  const FCP_DF_SIZE: byte := 0x81     // FCP_TAG_DF_SIZE
  const FCP_EF_SFID: byte := 0x88     // FCP_TAG_EF_SFID
  const FCP_ARL: byte := 0xAB         // FCP_TAG_ARL
  const FCP_TYPE_DF: byte := 0x38     // FCP_TYPE_DF
  const FCP_TYPE_BINARY_EF: byte := 0x01  // FCP_TYPE_BINARY_EF

  // Command headers (CLA INS P1 P2) the DF access rules grant.
  const PUT_DATA_ECD_CMD: seq<byte> := [0x00, 0xDA, 0x01, 0x6E]
  const PHASE_CONTROL_CMD: seq<byte> := [0x80, 0x10, 0x00, 0x00]
  const ACCUMULATE_NEW_CMD: seq<byte> := [0x80, 0xE6, 0x00, 0x00]
  const ACCUMULATE_APPEND_CMD: seq<byte> := [0x80, 0xE6, 0x01, 0x00]

  /** SC_AC_KEY_REF_NONE. */
  const KeyRefNone: nat := 0xFFFF_FFFF

  /** The file types the codec distinguishes (SC_FILE_TYPE_DF, SC_FILE_TYPE_WORKING_EF, any other). */
  datatype FileType = Df | WorkingEf | OtherType

  /** The operations (SC_AC_OP_*) the two tables map to. */
  datatype Op = Delete | Rehabilitate | Invalidate | Write | Update | Read | Create

  /** Access-control methods (SC_AC_*); AcOther stands for every method the codec does not handle. */
  datatype AcMethod = AcNone | AcChv | AcTerm | AcAut | AcNever | AcOther

  /** One ACL entry of an operation: method and key reference, as sc_file_get_acl_entry returns it. */
  datatype Condition = Condition(ac: AcMethod, keyRef: nat)

  /** One call of sc_file_add_acl_entry: the operation and its condition. */
  datatype AclEntry = AclEntry(op: Op, cond: Condition)

  /** A table row's operation, or -1U for an access mode the codec does not expose. */
  datatype Mapping = Unmapped | Maps(op: Op)

  /** struct sc_cardos5_am_byte: an access-mode byte and the operation it governs. */
  datatype Row = Row(amByte: byte, mapping: Mapping)

  /** ef_acl (card-cardos5.c:31-41). */
  const EfAcl: seq<Row> := [
    Row(0x40, Maps(Delete)),        // AM_EF_DELETE
    Row(0x20, Unmapped),            // AM_EF_TERMINATE
    Row(0x10, Maps(Rehabilitate)),  // AM_EF_ACTIVATE
    Row(0x08, Maps(Invalidate)),    // AM_EF_DEACTIVATE
    Row(0x04, Maps(Write)),         // AM_EF_WRITE
    Row(0x02, Maps(Update)),        // AM_EF_UPDATE
    Row(0x01, Maps(Read)),          // AM_EF_READ
    Row(0x8A, Unmapped),            // AM_EF_INCREASE
    Row(0x8C, Unmapped)             // AM_EF_DECREASE
  ]

  /** df_acl (card-cardos5.c:43-55). */
  const DfAcl: seq<Row> := [
    Row(0x40, Maps(Delete)),        // AM_DF_DELETE_SELF
    Row(0x20, Unmapped),            // AM_DF_TERMINATE
    Row(0x10, Maps(Rehabilitate)),  // AM_DF_ACTIVATE
    Row(0x08, Maps(Invalidate)),    // AM_DF_DEACTIVATE
    Row(0x04, Maps(Create)),        // AM_DF_CREATE_DF_FILE
    Row(0x02, Maps(Create)),        // AM_DF_CREATE_EF_FILE
    Row(0x01, Unmapped),            // AM_DF_DELETE_CHILD
    Row(0x8A, Maps(Create)),        // AM_DF_PUT_DATA_OCI
    Row(0x8B, Maps(Update)),        // AM_DF_PUT_DATA_OCI_UPDATE
    Row(0x8C, Unmapped),            // AM_DF_LOAD_EXECUTABLE
    Row(0x8D, Maps(Create))         // AM_DF_PUT_DATA_FCI
  ]

  /** Access-mode bytes are unique within a table, and none is the 0xFF that add_acl_tag skips. */
  ghost predicate WellFormedTable(table: seq<Row>)
  {
    && (forall i :: 0 <= i < |table| ==> table[i].amByte != 0xFF)
    && (forall i, j :: 0 <= i < j < |table| ==> table[i].amByte != table[j].amByte)
  }

  lemma TablesWellFormed()
    ensures WellFormedTable(EfAcl) && WellFormedTable(DfAcl)
  {
  }
}
