/** What a RAMS PDU encloses: the AAMS message that a local module sent, packed again by
    `ConstructEnclosure` and read by the gateways that relay it. */
module Enclosures {
  import opened Buffers
  import opened Bytes
  import opened Envelope
  import opened Options

  const AMS_HEADER_LENGTH := 16

  /** The most content a module may put into a message. */
  const MAX_AMS_CONTENT := 65000

  /** A message as its receiver's event gives it. */
  datatype AamsMessage =
    AamsMessage(continuumNbr: int, unitNbr: int, moduleNbr: int, subjectNbr: int, content: seq<byte>,
                context: int, msgType: int, priority: int, flowLabel: int)

  /** What matching a message against petitions looks at: its subject, and its source's continuum,
      unit and role. */
  datatype Message = Message(subjectNbr: int, continuumNbr: int, unitNbr: int, roleNbr: int)

  /** The octets of an RPDU as received: all of the enclosure that the envelope announces, and this is nothing
      or at least a header. */
  predicate IsPdu(s: seq<byte>) {
    && |s| >= ENVELOPE_LENGTH && |s| >= ENVELOPE_LENGTH + EnvelopeHeader(s, EnclosureLength)
    && (EnvelopeHeader(s, EnclosureLength) == 0 || EnvelopeHeader(s, EnclosureLength) >= AMS_HEADER_LENGTH)
  }

  type Pdu = s: seq<byte> | IsPdu(s) witness [0, 0, 0, 0, 0, 0, 0, 0, 0, 0, 0, 0]

  /** The first octets of an enclosure: type and priority, flow label, and the source's numbers. */
  function EnclosureStart(m: AamsMessage): (s: seq<byte>)
    ensures |s| == 8
  {
    [16 * Residue(m.msgType, 4) + Residue(m.priority, 16), Lo(m.flowLabel), Low7(Hi(m.continuumNbr)),
     Lo(m.continuumNbr), Hi(m.unitNbr), Lo(m.unitNbr), Lo(m.moduleNbr), 0]
  }

  /** The octets `ConstructEnclosure` leaves in its buffer. */
  function EnclosureBytes(m: AamsMessage): (enc: seq<byte>)
    ensures |enc| == AMS_HEADER_LENGTH + |m.content|
  {
    EnclosureStart(m) + U32Bytes(m.context) + U16Bytes(m.subjectNbr) + U16Bytes(|m.content|) + m.content
  }

  method ConstructEnclosure(m: AamsMessage) returns (text: array<byte>)
    ensures fresh(text) && text[..] == EnclosureBytes(m)
  {
    text := new byte[AMS_HEADER_LENGTH + |m.content|];
    PutStart(text, m);
    hide EnclosureStart, U32Bytes, U16Bytes;
    Put(text, 8, U32Bytes(m.context));
    Put(text, 12, U16Bytes(m.subjectNbr));
    Put(text, 14, U16Bytes(|m.content|));
    Put(text, AMS_HEADER_LENGTH, m.content);
    assert text[..] == text[..AMS_HEADER_LENGTH + |m.content|];
  }

  method PutStart(text: array<byte>, m: AamsMessage)
    requires text.Length >= 8
    modifies text
    ensures text[..8] == EnclosureStart(m)
  {
    hide Residue, U16Bytes, Low7;
    text[0] := 16 * Residue(m.msgType, 4) + Residue(m.priority, 16);
    text[1] := Lo(m.flowLabel);
    text[2] := Low7(Hi(m.continuumNbr));
    text[3] := Lo(m.continuumNbr);
    text[4], text[5] := Hi(m.unitNbr), Lo(m.unitNbr);
    text[6], text[7] := Lo(m.moduleNbr), 0;
  }

  datatype EnclosureField = EncContinuumNbr | EncUnitNbr | EncModuleNbr | EncSubjectNbr

  /** One field of an enclosure. Unlike those of the envelope, all octets are read as unsigned. */
  function EnclosureHeader(enc: seq<byte>, field: EnclosureField): int
    requires |enc| >= AMS_HEADER_LENGTH
  {
    match field
    case EncContinuumNbr => Low7(enc[2]) as int * 256 + enc[3]
    case EncUnitNbr => U16(enc[4], enc[5])
    case EncModuleNbr => enc[6]
    case EncSubjectNbr => SignedShort(U16(enc[12], enc[13]))
  }

  /** What an RPDU's enclosure, an AAMS message, says of itself; the role of its source is in the envelope.
      An RPDU without enclosure satisfies no petition. */
  function ParseMessage(pdu: Pdu): Option<Message> {
    if EnvelopeHeader(pdu, EnclosureLength) == 0 then None
    else
      var enc: seq<byte> := pdu[ENVELOPE_LENGTH..];
      Some(Message(EnclosureHeader(enc, EncSubjectNbr), EnclosureHeader(enc, EncContinuumNbr),
                   EnclosureHeader(enc, EncUnitNbr), EnvelopeHeader(pdu, SourceIdField)))
  }

  /** The octets a gateway relays of an RPDU it received: the envelope and as much as it announces. */
  function Trimmed(pdu: Pdu): (r: Pdu)
    ensures r <= pdu && |r| == ENVELOPE_LENGTH + EnvelopeHeader(pdu, EnclosureLength)
    ensures forall field :: EnvelopeHeader(r, field) == EnvelopeHeader(pdu, field)
    ensures ParseMessage(r) == ParseMessage(pdu)
  {
    var r: seq<byte> := pdu[..ENVELOPE_LENGTH + EnvelopeHeader(pdu, EnclosureLength)];
    assert forall field :: EnvelopeHeader(r, field) == EnvelopeHeader(pdu, field);
    r
  }

  /** The RPDU in which a gateway sends a publication of its own continuum. */
  function PublicationPdu(m: AamsMessage, sourceRoleNbr: int): (s: Pdu)
    requires |m.content| <= MAX_AMS_CONTENT
    ensures |s| == ENVELOPE_LENGTH + AMS_HEADER_LENGTH + |m.content|
  {
    Fields(0, 0, sourceRoleNbr, 0, m.subjectNbr, EnclosureBytes(m), PUBLISH_ON_RECEPTION);
    ResidueKeeps(|EnclosureBytes(m)|, 0x10000);
    EnvelopeBytes(0, 0, sourceRoleNbr, 0, m.subjectNbr, EnclosureBytes(m), PUBLISH_ON_RECEPTION)
  }

  /** The numbers that the relaying gateways look at fit their fields. */
  predicate FitsPdu(m: AamsMessage, sourceRoleNbr: int) {
    && -0x8000 <= m.subjectNbr < 0x8000 && 0 <= m.continuumNbr < 0x8000
    && 0 <= m.unitNbr < 0x10000 && 0 <= sourceRoleNbr < 0x100
  }

  /** What the sending gateway matches against its petitions. */
  function MessageOf(m: AamsMessage, sourceRoleNbr: int): Message {
    Message(m.subjectNbr, m.continuumNbr, m.unitNbr, sourceRoleNbr)
  }

  lemma EnclosureFields(m: AamsMessage)
    ensures var enc := EnclosureBytes(m);
      && EnclosureHeader(enc, EncContinuumNbr) == Residue(m.continuumNbr, 0x8000)
      && EnclosureHeader(enc, EncUnitNbr) == Residue(m.unitNbr, 0x10000)
      && EnclosureHeader(enc, EncModuleNbr) == Residue(m.moduleNbr, 0x100)
      && EnclosureHeader(enc, EncSubjectNbr) == SignedShort(Residue(m.subjectNbr, 0x10000))
  {
    NestedResidues(m.continuumNbr);
    hide Residue, U16Bytes, U32Bytes;
    var enc, subject := EnclosureBytes(m), U16Bytes(m.subjectNbr);
    assert enc[12] == subject[0] && enc[13] == subject[1];
    assert U16(Hi(m.continuumNbr), Lo(m.continuumNbr)) == Residue(m.continuumNbr, 0x10000);
    assert U16(Hi(m.unitNbr), Lo(m.unitNbr)) == Residue(m.unitNbr, 0x10000);
  }

  /** The gateways that relay a publication match against their petitions just what its first gateway did, iff
      the numbers fit their fields. */
  lemma PublicationReadBack(m: AamsMessage, sourceRoleNbr: int)
    requires |m.content| <= MAX_AMS_CONTENT
    ensures var pdu := PublicationPdu(m, sourceRoleNbr);
      && Trimmed(pdu) == pdu
      && (ParseMessage(pdu) == Some(MessageOf(m, sourceRoleNbr)) <==> FitsPdu(m, sourceRoleNbr))
  {
    var enc := EnclosureBytes(m);
    Fields(0, 0, sourceRoleNbr, 0, m.subjectNbr, enc, PUBLISH_ON_RECEPTION);
    EnclosureFields(m);
    ResidueKeeps(|enc|, 0x10000);
    ResidueKeeps(m.subjectNbr, 0x10000);
    ResidueKeeps(m.continuumNbr, 0x8000);
    ResidueKeeps(m.unitNbr, 0x10000);
    ResidueKeeps(sourceRoleNbr, 0x100);
    hide EnvelopeBytes, EnvelopeHeader, EnclosureBytes, EnclosureHeader, Residue;
    var pdu: seq<byte> := PublicationPdu(m, sourceRoleNbr);
    assert pdu[ENVELOPE_LENGTH..] == enc;
    assert pdu[..|pdu|] == pdu;
  }
}
