/** The 12-octet envelope of a RAMS PDU: how `ConstructEnvelope` packs it and how
    `EnvelopeHeader` reads it back, sign extension of two octets included. */
module Envelope {
  import opened Buffers
  import opened Bytes

  const ENVELOPE_LENGTH := 12

  /** Control codes of the envelope. */
  const PETITION_ASSERTION := 2
  const PETITION_CANCELLATION := 3
  const PUBLISH_ON_RECEPTION := 4
  const SEND_ON_RECEPTION := 5
  const ANNOUNCE_ON_RECEPTION := 6

  datatype Field =
    ControlCode | ContinuumNbr | UnitField | SourceIdField | DestIdField | SubjectNbr | EnclosureLength

  /** What a petition asks for: messages on a subject from modules in some continuum
      (0: all continua), unit (0: the root unit) and role (0: all roles). */
  datatype Key = Key(continuumNbr: int, unitNbr: int, roleNbr: int, subjectNbr: int)

  /** The octets `ConstructEnvelope` leaves in its buffer. */
  function EnvelopeBytes(continuumNbr: int, unitNbr: int, sourceId: int, destId: int, subjectNbr: int,
                         enclosure: seq<byte>, controlCode: int): (env: seq<byte>)
    ensures |env| == ENVELOPE_LENGTH + |enclosure|
  {
    [Residue(controlCode, 16), 0, Low7(Hi(continuumNbr)), Lo(continuumNbr), Hi(unitNbr), Lo(unitNbr),
     Lo(sourceId), Lo(destId)] + U16Bytes(subjectNbr) + [Hi(|enclosure|), Lo(|enclosure|)] + enclosure
  }

  method ConstructEnvelope(envelope: array<byte>, continuumNbr: int, unitNbr: int, sourceId: int, destId: int,
                           subjectNbr: int, enclosure: seq<byte>, controlCode: int)
    requires ENVELOPE_LENGTH + |enclosure| <= envelope.Length
    modifies envelope
    ensures envelope[..ENVELOPE_LENGTH + |enclosure|]
         == EnvelopeBytes(continuumNbr, unitNbr, sourceId, destId, subjectNbr, enclosure, controlCode)
    ensures forall i :: ENVELOPE_LENGTH + |enclosure| <= i < envelope.Length ==> envelope[i] == old(envelope[i])
  {
    envelope[0] := Residue(controlCode, 16);
    envelope[1] := 0;
    envelope[2] := Low7(Hi(continuumNbr));
    envelope[3] := Lo(continuumNbr);
    envelope[4] := Hi(unitNbr);
    envelope[5] := Lo(unitNbr);
    envelope[6] := Lo(sourceId);
    envelope[7] := Lo(destId);
    envelope[8], envelope[9] := Hi(subjectNbr), Lo(subjectNbr);
    envelope[10] := Hi(|enclosure|);
    envelope[11] := Lo(|enclosure|);
    Put(envelope, ENVELOPE_LENGTH, enclosure);
  }

  /** The octets in which a module hands its gateway a message for another continuum: `constructEnvelope` of the
      AMS library keeps more of the numbers. */
  function ModuleEnvelopeBytes(continuumNbr: int, unitNbr: int, sourceId: int, destId: int, subjectNbr: int,
                               enclosure: seq<byte>, controlCode: int): (env: seq<byte>)
    ensures |env| == ENVELOPE_LENGTH + |enclosure|
  {
    [Lo(controlCode), U32Bytes(continuumNbr)[1], Hi(continuumNbr), Lo(continuumNbr), Hi(unitNbr), Lo(unitNbr),
     Lo(sourceId), Lo(destId)] + U16Bytes(subjectNbr) + [Hi(|enclosure|), Lo(|enclosure|)] + enclosure
  }

  /** For continuum numbers there are, it makes no difference. */
  lemma EnvelopesAgree(continuumNbr: int, unitNbr: int, sourceId: int, destId: int, subjectNbr: int,
                       enclosure: seq<byte>, controlCode: int)
    requires 0 <= continuumNbr < 0x8000 && 0 <= controlCode < 16
    ensures ModuleEnvelopeBytes(continuumNbr, unitNbr, sourceId, destId, subjectNbr, enclosure, controlCode)
         == EnvelopeBytes(continuumNbr, unitNbr, sourceId, destId, subjectNbr, enclosure, controlCode)
  {
    ResidueKeeps(continuumNbr, 0x1_0000_0000);
    ResidueKeeps(continuumNbr, 0x10000);
    ResidueKeeps(controlCode, 0x100);
    ResidueKeeps(controlCode, 16);
    hide Residue, U16Bytes, U32Bytes;
    assert U16(Hi(continuumNbr), Lo(continuumNbr)) == continuumNbr;
  }

  /** One field of an envelope. The low octets of the continuum and unit numbers are read
      through plain `char`, so from 128 on they count as negative. */
  function EnvelopeHeader(env: seq<byte>, field: Field): int
    requires |env| >= ENVELOPE_LENGTH
  {
    match field
    case ControlCode => Residue(env[0], 16)
    case ContinuumNbr => Low7(env[2]) as int * 256 + SignedByte(env[3])
    case UnitField => env[4] * 256 + SignedByte(env[5])
    case SourceIdField => env[6]
    case DestIdField => env[7]
    case SubjectNbr => SignedShort(U16(env[8], env[9]))
    case EnclosureLength => U16(env[10], env[11])
  }

  /** EnvelopeHeader undoes ConstructEnvelope field by field, exactly for the numbers that fit the
      field and, for continuum and unit, whose low octet is below 128. */
  lemma HeaderUndoesConstruct(continuumNbr: int, unitNbr: int, sourceId: int, destId: int, subjectNbr: int,
                              enclosure: seq<byte>, controlCode: int)
    ensures var env := EnvelopeBytes(continuumNbr, unitNbr, sourceId, destId, subjectNbr, enclosure, controlCode);
      && (EnvelopeHeader(env, ControlCode) == controlCode <==> 0 <= controlCode < 16)
      && (EnvelopeHeader(env, ContinuumNbr) == continuumNbr
          <==> 0 <= continuumNbr < 0x8000 && Lo(continuumNbr) < 0x80)
      && (EnvelopeHeader(env, UnitField) == unitNbr <==> 0 <= unitNbr < 0x10000 && Lo(unitNbr) < 0x80)
      && (EnvelopeHeader(env, SourceIdField) == sourceId <==> 0 <= sourceId < 256)
      && (EnvelopeHeader(env, DestIdField) == destId <==> 0 <= destId < 256)
      && (EnvelopeHeader(env, SubjectNbr) == subjectNbr <==> -0x8000 <= subjectNbr < 0x8000)
      && (EnvelopeHeader(env, EnclosureLength) == |enclosure| <==> |enclosure| < 0x10000)
      && env[ENVELOPE_LENGTH..] == enclosure
  {
    var env := EnvelopeBytes(continuumNbr, unitNbr, sourceId, destId, subjectNbr, enclosure, controlCode);
    Fields(continuumNbr, unitNbr, sourceId, destId, subjectNbr, enclosure, controlCode);
    ResidueKeeps(controlCode, 16);
    ResidueKeeps(Residue(controlCode, 16), 16);
    SignedLowKeeps(continuumNbr, 0x8000);
    SignedLowKeeps(unitNbr, 0x10000);
    ResidueKeeps(sourceId, 0x100);
    ResidueKeeps(destId, 0x100);
    ResidueKeeps(subjectNbr, 0x10000);
    ResidueKeeps(|enclosure|, 0x10000);
    hide EnvelopeBytes, EnvelopeHeader, Residue, SignedLow;
    assert env[ENVELOPE_LENGTH..] == enclosure;
  }

  /** What each field of an envelope reads as. */
  lemma Fields(continuumNbr: int, unitNbr: int, sourceId: int, destId: int, subjectNbr: int, enclosure: seq<byte>,
               controlCode: int)
    ensures var env := EnvelopeBytes(continuumNbr, unitNbr, sourceId, destId, subjectNbr, enclosure, controlCode);
      && EnvelopeHeader(env, ControlCode) == Residue(Residue(controlCode, 16), 16)
      && EnvelopeHeader(env, ContinuumNbr) == SignedLow(Residue(continuumNbr, 0x8000))
      && EnvelopeHeader(env, UnitField) == SignedLow(Residue(unitNbr, 0x10000))
      && EnvelopeHeader(env, SourceIdField) == Residue(sourceId, 0x100)
      && EnvelopeHeader(env, DestIdField) == Residue(destId, 0x100)
      && EnvelopeHeader(env, SubjectNbr) == SignedShort(Residue(subjectNbr, 0x10000))
      && EnvelopeHeader(env, EnclosureLength) == Residue(|enclosure|, 0x10000)
      && env[ENVELOPE_LENGTH..] == enclosure
  {
    var env := EnvelopeBytes(continuumNbr, unitNbr, sourceId, destId, subjectNbr, enclosure, controlCode);
    ReadSigned(continuumNbr);
    ReadSigned(unitNbr);
    hide Residue, U16Bytes, SignedLow, SignedShort, SignedByte;
    var subject, length := U16Bytes(subjectNbr), U16Bytes(|enclosure|);
    assert env[8] == subject[0] && env[9] == subject[1];
    assert env[10] == length[0] && env[11] == length[1];
  }

  /** A number whose low octet is read as signed. */
  function SignedLow(w: nat): int {
    if Residue(w, 0x100) < 0x80 then w else w - 0x100
  }

  lemma SignedLowKeeps(x: int, m: nat)
    requires m == 0x8000 || m == 0x10000
    ensures SignedLow(Residue(x, m)) == x <==> 0 <= x < m && Lo(x) < 0x80
  {
    NestedResidues(x);
    ResidueKeeps(x, m);
  }

  /** What the reader makes of two octets, of which it takes the low one as signed. */
  lemma ReadSigned(x: int)
    ensures Low7(Hi(x)) as int * 256 + SignedByte(Lo(x)) == SignedLow(Residue(x, 0x8000))
    ensures Hi(x) as int * 256 + SignedByte(Lo(x)) == SignedLow(Residue(x, 0x10000))
  {
    NestedResidues(x);
    hide Residue, U16Bytes;
    assert U16(Hi(x), Lo(x)) == Residue(x, 0x10000);
  }

  /** The four numbers that tell petitions apart, as every RAMS function reads them. */
  function HeaderKey(env: seq<byte>): Key
    requires |env| >= ENVELOPE_LENGTH
  {
    Key(EnvelopeHeader(env, ContinuumNbr), EnvelopeHeader(env, UnitField),
        EnvelopeHeader(env, SourceIdField), EnvelopeHeader(env, SubjectNbr))
  }

  /** The envelope of a petition for k. */
  function PetitionEnvelope(k: Key, controlCode: int): (env: seq<byte>)
    ensures |env| == ENVELOPE_LENGTH
  {
    EnvelopeBytes(k.continuumNbr, k.unitNbr, k.roleNbr, 0, k.subjectNbr, [], controlCode)
  }

  /** The key a reader finds in the envelope built from k. */
  function ReadBack(k: Key): Key {
    Key(SignedLow(Residue(k.continuumNbr, 0x8000)), SignedLow(Residue(k.unitNbr, 0x10000)), Residue(k.roleNbr, 0x100),
        SignedShort(Residue(k.subjectNbr, 0x10000)))
  }

  /** The numbers fit their fields, and those of continuum and unit have a low octet below 128. */
  predicate Representable(k: Key) {
    && 0 <= k.continuumNbr < 0x8000 && Lo(k.continuumNbr) < 0x80
    && 0 <= k.unitNbr < 0x10000 && Lo(k.unitNbr) < 0x80
    && 0 <= k.roleNbr < 0x100
    && -0x8000 <= k.subjectNbr < 0x8000
  }

  lemma ReadBackIff(k: Key)
    ensures ReadBack(k) == k <==> Representable(k)
  {
    SignedLowKeeps(k.continuumNbr, 0x8000);
    SignedLowKeeps(k.unitNbr, 0x10000);
    ResidueKeeps(k.roleNbr, 0x100);
    ResidueKeeps(k.subjectNbr, 0x10000);
  }

  // ---------- the keys that occur ----------

  /** The numbers a module's subscription can name: each fits its field. */
  predicate Noticed(k: Key) {
    && 0 <= k.continuumNbr < 0x8000
    && 0 <= k.unitNbr < 0x10000
    && 0 <= k.roleNbr < 0x100
    && -0x8000 <= k.subjectNbr < 0x8000
  }

  /** A number read from two octets that hold less than m. */
  predicate ReadNumber(x: int, m: nat) {
    if Lo(x) < 0x80 then 0 <= x < m else 0 <= x + 0x100 < m
  }

  /** The numbers an envelope can give. */
  predicate Read(k: Key) {
    && ReadNumber(k.continuumNbr, 0x8000)
    && ReadNumber(k.unitNbr, 0x10000)
    && 0 <= k.roleNbr < 0x100
    && -0x8000 <= k.subjectNbr < 0x8000
  }

  predicate Occurs(k: Key) { Noticed(k) || Read(k) }

  /** Reading a number from two octets leaves its low octet alone. */
  lemma ReadBackNumber(x: int, m: nat)
    requires m == 0x8000 || m == 0x10000
    ensures Lo(SignedLow(Residue(x, m))) == Lo(x) && ReadNumber(SignedLow(Residue(x, m)), m)
  {
    NestedResidues(x);
    var w: int := Residue(x, m);
    LowOctetOfSum(w - 0x100, 1);
  }

  /** Every envelope gives such a key. */
  lemma HeaderKeyIsRead(env: seq<byte>)
    requires |env| >= ENVELOPE_LENGTH
    ensures Read(HeaderKey(env))
  {
    LowOctetOfSum(SignedByte(env[3]), Low7(env[2]));
    LowOctetOfSum(SignedByte(env[5]), env[4]);
    ResidueKeeps(SignedByte(env[3]), 0x100);
    ResidueKeeps(SignedByte(env[5]), 0x100);
    assert U16(env[8], env[9]) < 0x10000;
  }

  /** A key that cannot be represented does not read back as one that can, so petitions for keys that can are
      never mistaken for others. */
  lemma ReadBackKeepsApart(k: Key)
    ensures Read(ReadBack(k))
    ensures Occurs(k) ==> ReadBack(k).subjectNbr == k.subjectNbr && ReadBack(k).roleNbr == k.roleNbr
    ensures k.continuumNbr == 0 ==> ReadBack(k).continuumNbr == 0
    ensures Occurs(k) && Representable(ReadBack(k)) ==> ReadBack(k) == k
    ensures Representable(k) ==> Noticed(k) && Read(k) && ReadBack(k) == k
  {
    ReadBackNumber(k.continuumNbr, 0x8000);
    ReadBackNumber(k.unitNbr, 0x10000);
    ResidueKeeps(k.roleNbr, 0x100);
    ResidueKeeps(k.subjectNbr, 0x10000);
    ReadBackIff(k);
    hide Residue, SignedLow;
  }

  /** Whatever the control code, the key read from a petition's envelope is ReadBack of the key it was built from. */
  lemma KeyFromEnvelope(k: Key, controlCode: int)
    ensures HeaderKey(PetitionEnvelope(k, controlCode)) == ReadBack(k)
  {
    Fields(k.continuumNbr, k.unitNbr, k.roleNbr, 0, k.subjectNbr, [], controlCode);
  }

  predicate PetitionMatchesDomain(env: seq<byte>, k: Key)
    requires |env| >= ENVELOPE_LENGTH
  {
    && EnvelopeHeader(env, ContinuumNbr) == k.continuumNbr
    && EnvelopeHeader(env, UnitField) == k.unitNbr
    && EnvelopeHeader(env, SourceIdField) == k.roleNbr
    && EnvelopeHeader(env, SubjectNbr) == k.subjectNbr
  }

  /** A petition whose envelope was built from k (KeyFromEnvelope) matches exactly one combination of four values,
      and this is k iff k is representable. */
  lemma MatchesExactlyItsOwnKey(env: seq<byte>, k: Key, other: Key)
    requires |env| >= ENVELOPE_LENGTH && HeaderKey(env) == ReadBack(k)
    ensures PetitionMatchesDomain(env, other) <==> other == ReadBack(k)
    ensures PetitionMatchesDomain(env, k) <==> Representable(k)
  {
    ReadBackIff(k);
  }
}
