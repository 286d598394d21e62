/**
 * The access-rule encoder add_acl_tag (card-cardos5.c:137-169): one access-mode-byte record
 * followed by its security condition.
 */
module AclEncode {
  import opened Types
  import opened Tlv
  import opened Defs
  import opened Buffer

  /** `!(key_ref & BACKTRACK_PIN) && key_ref <= UINT8_MAX`: a reference the template may carry. */
  predicate KeyRefEncodable(keyRef: nat)
  {
    keyRef <= 0xFF && (keyRef / BACKTRACK_PIN) % 2 == 0
  }

  /** The conditions add_acl_tag can encode. */
  predicate Encodable(c: Condition)
  {
    match c.ac
    case AcNone | AcNever => true
    case AcChv | AcTerm | AcAut => c.keyRef < 0x80
    case AcOther => false
  }

  /**
   * What the decoder reads back for an encoded condition: TERM and AUT become CHV, and NONE and
   * NEVER carry no key reference.
   */
  function Canonical(c: Condition): Condition
  {
    match c.ac
    case AcNone => Condition(AcNone, KeyRefNone)
    case AcNever => Condition(AcNever, KeyRefNone)
    case _ => Condition(AcChv, c.keyRef)
  }

  /** The access-mode-byte record, left out for the 0xFF marker used before command records. */
  function AmTag(amByte: byte): seq<byte>
  {
    if amByte != 0xFF then ShortTlv(AM_TAG, [amByte]) else []
  }

  /** The user-authentication template: PIN reference, then the user-authentication qualifier. */
  function UserAuthTemplate(ref: byte): seq<byte>
  {
    ShortTlv(USER_AUTH_TAG, ShortTlv(PINREF_TAG, [ref]) + ShortTlv(KUQ_TAG, [KUQ_USER_AUTH]))
  }

  /** The condition record add_acl_tag writes, or Nothing when it refuses the method or reference. */
  function ConditionTag(ac: AcMethod, keyRef: nat): Option<seq<byte>>
  {
    match ac
    case AcNone => Some(ShortTlv(ALWAYS_TAG, []))
    case AcNever => Some(ShortTlv(NEVER_TAG, []))
    case AcChv | AcTerm | AcAut =>
      if KeyRefEncodable(keyRef) then Some(UserAuthTemplate(keyRef)) else Nothing
    case AcOther => Nothing
  }

  /** Everything add_acl_tag appends when it succeeds. */
  function AclTag(amByte: byte, ac: AcMethod, keyRef: nat): Option<seq<byte>>
  {
    match ConditionTag(ac, keyRef)
    case Nothing => Nothing
    case Some(c) => Some(AmTag(amByte) + c)
  }

  /** A key reference is accepted exactly when it is below the backtrack bit. */
  lemma KeyRefEncodableIff(keyRef: nat)
    ensures KeyRefEncodable(keyRef) <==> keyRef < BACKTRACK_PIN
  {
  }

  /**
   * add_acl_tag refuses exactly the methods other than NONE, NEVER, CHV, TERM and AUT, and the
   * references with the backtrack bit or above one byte; the result does not depend on the
   * access-mode byte.
   */
  lemma AclTagDefined(amByte: byte, ac: AcMethod, keyRef: nat)
    ensures AclTag(amByte, ac, keyRef).Some? <==> Encodable(Condition(ac, keyRef))
  {
    KeyRefEncodableIff(keyRef);
  }

  /**
   * The shape of what add_acl_tag writes: the access-mode-byte record comes first exactly when
   * the byte is not 0xFF; NONE is a zero-length always record, NEVER a zero-length never record,
   * and CHV, TERM and AUT all the same user-authentication template, whose content is
   * USER_AUTH_LEN bytes long.
   */
  lemma AclTagShape(amByte: byte, ac: AcMethod, keyRef: nat)
    requires AclTag(amByte, ac, keyRef).Some?
    ensures var t := AclTag(amByte, ac, keyRef).value;
      && (amByte != 0xFF <==> |t| >= 3 && t[..3] == [AM_TAG, AM_LEN, amByte])
      && (ac == AcNone ==> t[|AmTag(amByte)|..] == [ALWAYS_TAG, ALWAYS_LEN])
      && (ac == AcNever ==> t[|AmTag(amByte)|..] == [NEVER_TAG, NEVER_LEN])
      && (ac in {AcChv, AcTerm, AcAut} ==>
            && t[|AmTag(amByte)|..] == AclTag(0xFF, AcChv, keyRef).value
            && t[|AmTag(amByte)|..][..2] == [USER_AUTH_TAG, USER_AUTH_LEN]
            && |t[|AmTag(amByte)|..]| == 2 + USER_AUTH_LEN)
  {
    var t := AclTag(amByte, ac, keyRef).value;
    if amByte == 0xFF {
      assert t[0] in {ALWAYS_TAG, NEVER_TAG, USER_AUTH_TAG};
    }
  }

  /**
   * add_acl_tag: appends the access-mode-byte record (unless the byte is 0xFF), then the
   * condition. It fails when a record does not fit or the condition cannot be encoded; the
   * access-mode-byte record stays behind when it was written before the failure.
   */
  method AddAclTag(amByte: byte, ac: AcMethod, keyRef: nat, buf: Buf) returns (ok: bool)
    requires buf.Valid()
    modifies buf, buf.data
    ensures buf.Valid() && buf.data == old(buf.data)
    ensures ok <==> AclTag(amByte, ac, keyRef).Some?
                    && old(buf.used) + |AclTag(amByte, ac, keyRef).value| <= buf.data.Length
    ensures ok ==> buf.Contents() == old(buf.Contents()) + AclTag(amByte, ac, keyRef).value
    ensures !ok ==> buf.Contents() == old(buf.Contents())
                      + (if old(buf.used) + |AmTag(amByte)| <= buf.data.Length then AmTag(amByte) else [])
  {
    if amByte != 0xFF {
      ok := buf.PutTag1(AM_TAG, amByte);
      if !ok {
        return;
      }
    }
    assert buf.Contents() == old(buf.Contents()) + AmTag(amByte);
    ok := PutCondition(ac, keyRef, buf);
  }

  /** The `switch (ac)` of add_acl_tag: the condition record alone, written whole or not at all. */
  method PutCondition(ac: AcMethod, keyRef: nat, buf: Buf) returns (ok: bool)
    requires buf.Valid()
    modifies buf, buf.data
    ensures buf.Valid() && buf.data == old(buf.data)
    ensures ok <==> ConditionTag(ac, keyRef).Some?
                    && old(buf.used) + |ConditionTag(ac, keyRef).value| <= buf.data.Length
    ensures ok ==> buf.Contents() == old(buf.Contents()) + ConditionTag(ac, keyRef).value
    ensures !ok ==> buf.Contents() == old(buf.Contents())
  {
    if ac == AcNone {
      ok := buf.PutTag0(ALWAYS_TAG);
    } else if ac == AcNever {
      ok := buf.PutTag0(NEVER_TAG);
    } else if ac in {AcChv, AcTerm, AcAut} {
      if keyRef / BACKTRACK_PIN % 2 == 1 || keyRef > 0xFF {
        return false;
      }
      var crt := UserAuthContent(keyRef);
      ok := buf.PutTag(USER_AUTH_TAG, crt);
    } else {
      ok := false;
    }
  }

  /** The content of the user-authentication template, built in add_acl_tag's 16-byte `crt` buffer. */
  method UserAuthContent(ref: byte) returns (content: seq<byte>)
    ensures |content| == USER_AUTH_LEN
    ensures ShortTlv(USER_AUTH_TAG, content) == UserAuthTemplate(ref)
  {
    // The two writes fit in the 16-byte buffer, so add_acl_tag's failure test on them never fires.
    var crtBuf := new byte[16];
    var crt := new Buf.Init(crtBuf);
    var ok := crt.PutTag1(PINREF_TAG, ref);
    ok := crt.PutTag1(KUQ_TAG, KUQ_USER_AUTH);
    content := crt.Contents();
  }
}
