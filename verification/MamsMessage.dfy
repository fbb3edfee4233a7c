/** Messages of the meta-AMS protocol: how sendMamsMsg builds them and which ones enqueueMamsMsg accepts. */
module MamsMessage {
  import opened Buffers
  import opened Bytes
  import opened Checksum
  import opened Options
  import Units

  const MAX_VENTURE_NBR := 20
  const MAX_ROLE_NBR := 255
  const MAX_MODULE_NBR := 255
  const AUTHENTICAT_LEN := 105
  const FIXED_LENGTH := 12

  // ---------- who may send ----------

  /** Someone who sends MAMS messages, with the lengths of the keys that authenticate them; 0 for no key. */
  datatype Party = Party(name: seq<byte>, privateKeyLen: nat, publicKeyLen: nat)

  datatype VentureInfo = VentureInfo(app: Party, units: set<nat>, roles: map<nat, Party>)

  datatype Mib = Mib(ventures: map<nat, VentureInfo>, cs: Party)

  /** Whose name and keys a message from this venture, unit and role carries: the module's role, the
      venture's application for its registrars, or the configuration server. None for parameters that are
      not in the MIB. */
  function AuthenticationParms(mib: Mib, ventureNbr: nat, unitNbr: nat, roleNbr: nat): Option<Party> {
    if ventureNbr == 0 then
      if roleNbr > 0 then None else Some(mib.cs)
    else if ventureNbr > MAX_VENTURE_NBR || ventureNbr !in mib.ventures then None
    else if unitNbr > Units.MAX_UNIT_NBR || unitNbr !in mib.ventures[ventureNbr].units then None
    else if roleNbr == 0 then Some(mib.ventures[ventureNbr].app)
    else if roleNbr > MAX_ROLE_NBR || roleNbr !in mib.ventures[ventureNbr].roles then None
    else Some(mib.ventures[ventureNbr].roles[roleNbr])
  }

  predicate GoodName(name: seq<byte>) { 0 < |name| <= AUTHENTICAT_LEN - 9 }

  /** The MIB tells who this sender is: the configuration server, or a registrar or a module of a venture, in a unit
      and a role that the venture has. */
  ghost predicate InMib(mib: Mib, ventureNbr: nat, unitNbr: nat, roleNbr: nat) {
    || (ventureNbr == 0 && roleNbr == 0)
    || (&& 0 < ventureNbr <= MAX_VENTURE_NBR && ventureNbr in mib.ventures
        && unitNbr <= Units.MAX_UNIT_NBR && unitNbr in mib.ventures[ventureNbr].units
        && (roleNbr == 0 || (roleNbr <= MAX_ROLE_NBR && roleNbr in mib.ventures[ventureNbr].roles)))
  }

  /** Known senders use the name and the keys of their role; registrars those of their venture's application; the
      configuration server its own. */
  lemma WhoseName(mib: Mib, ventureNbr: nat, unitNbr: nat, roleNbr: nat)
    ensures var p := AuthenticationParms(mib, ventureNbr, unitNbr, roleNbr);
      if !InMib(mib, ventureNbr, unitNbr, roleNbr) then p == None
      else p == Some(if ventureNbr == 0 then mib.cs
                     else if roleNbr > 0 then mib.ventures[ventureNbr].roles[roleNbr] else mib.ventures[ventureNbr].app)
  {
  }

  // ---------- sending ----------

  /** Where a message is from. */
  datatype Interface = Interface(ventureNbr: nat, unitNbr: nat, roleNbr: nat)

  function Header(tsif: Interface, msgType: nat, memo: int, authenticatorLength: nat,
      supplementLength: nat): (h: seq<byte>)
    ensures |h| == FIXED_LENGTH
  {
    [0x20 + Residue(msgType, 32), Lo(tsif.ventureNbr)] + U16Bytes(tsif.unitNbr)
    + [Lo(tsif.roleNbr), Lo(authenticatorLength)] + U16Bytes(supplementLength) + U32Bytes(memo)
  }

  /** Four octets of seconds behind a preamble that says so. */
  function TimeTag(time: nat): (t: seq<byte>)
    ensures |t| == 5 && t[0] == 28
  {
    [28] + U32Bytes(time)
  }

  /** The nonce in clear, and the nonce and the name encrypted; encryption is the identity. */
  function Authenticator(party: Party, nonce: seq<byte>): (a: seq<byte>)
    ensures |a| == if party.privateKeyLen > 0 then 2 * |nonce| + |party.name| else 0
  {
    if party.privateKeyLen > 0 then nonce + nonce + party.name else []
  }

  function Pdu(party: Party, tsif: Interface, msgType: nat, memo: int, supplement: seq<byte>, nonce: seq<byte>,
      time: nat)
    : seq<byte>
  {
    var authenticator := Authenticator(party, nonce);
    WithChecksum(Header(tsif, msgType, memo, |authenticator|, |supplement|) + TimeTag(time) + authenticator
        + supplement)
  }

  /** The message, with a time tag of four octets of seconds, carries the party's name behind the nonce in clear and
      encrypted if the party has a key to sign with, and no authenticator at all otherwise. */
  ghost predicate SignedBy(msg: seq<byte>, party: Party, nonce: seq<byte>) {
    && |msg| > 17
    && if party.privateKeyLen == 0 then msg[5] == 0
       else msg[5] as int == 2 * |nonce| + |party.name| <= |msg| - 17
            && msg[17..17 + msg[5]] == nonce + nonce + party.name
  }

  lemma PduIsSigned(party: Party, tsif: Interface, msgType: nat, memo: int, supplement: seq<byte>, nonce: seq<byte>,
      time: nat)
    requires |nonce| == 4 && (party.privateKeyLen > 0 ==> GoodName(party.name))
    ensures SignedBy(Pdu(party, tsif, msgType, memo, supplement, nonce, time), party, nonce)
  {
    hide U16Bytes, U32Bytes, WordSum, Residue;
    var a := Authenticator(party, nonce);
    var h := Header(tsif, msgType, memo, |a|, |supplement|);
    var msg := Pdu(party, tsif, msgType, memo, supplement, nonce, time);
    ResidueKeeps(|a|, 0x100);
    assert h[5] == Lo(|a|) == |a|;
    assert msg[17..17 + |a|] == a;
  }

  /** What came of an attempt to send. */
  datatype Sending = Sent(msg: seq<byte>) | Dropped | Failed

  method SendMamsMsg(mib: Mib, tsif: Interface, msgType: nat, memo: int, supplement: seq<byte>, nonce: seq<byte>,
                     time: nat) returns (r: Sending)
    requires |supplement| < 0x10000 && |nonce| == 4
    ensures match AuthenticationParms(mib, tsif.ventureNbr, tsif.unitNbr, tsif.roleNbr)
      case None => r == Dropped
      case Some(party) =>
        if party.privateKeyLen > 0 && !GoodName(party.name) then r == Failed
        else r == Sent(Pdu(party, tsif, msgType, memo, supplement, nonce, time))
    ensures r == Dropped <==> !InMib(mib, tsif.ventureNbr, tsif.unitNbr, tsif.roleNbr)
    ensures r.Sent? && tsif.ventureNbr == 0 ==> SignedBy(r.msg, mib.cs, nonce)
    ensures r.Sent? && tsif.ventureNbr > 0 && tsif.roleNbr == 0 ==>
      SignedBy(r.msg, mib.ventures[tsif.ventureNbr].app, nonce)
    ensures r.Sent? && tsif.ventureNbr > 0 && tsif.roleNbr > 0 ==>
      SignedBy(r.msg, mib.ventures[tsif.ventureNbr].roles[tsif.roleNbr], nonce)
  {
    hide Header, TimeTag, AuthenticationParms, WordSum, U16Bytes, SignedBy;
    var parms := AuthenticationParms(mib, tsif.ventureNbr, tsif.unitNbr, tsif.roleNbr);
    WhoseName(mib, tsif.ventureNbr, tsif.unitNbr, tsif.roleNbr);
    if parms.None? { return Dropped; }
    var authenticator: seq<byte> := [];
    if parms.value.privateKeyLen > 0 {
      var authName := parms.value.name;
      if |authName| == 0 || |authName| > AUTHENTICAT_LEN - 9 { return Failed; }
      authenticator := nonce + nonce + authName;
    }
    var msgLength := 12 + 5 + |authenticator| + |supplement| + 2;
    var msg := new byte[msgLength](_ => 0);
    PutHeader(msg, tsif, msgType, memo, |authenticator|, |supplement|);
    Put(msg, 12, TimeTag(time));
    Put(msg, 17, authenticator);
    Put(msg, 17 + |authenticator|, supplement);
    ghost var body := msg[..msgLength - 2];
    assert body == Header(tsif, msgType, memo, |authenticator|, |supplement|) + TimeTag(time) + authenticator
        + supplement;
    var checksum := ComputeAmsChecksum(msg[..msgLength - 2]);
    Put(msg, msgLength - 2, U16Bytes(checksum));
    assert msg[..] == msg[..msgLength] == WithChecksum(body);
    PduIsSigned(parms.value, tsif, msgType, memo, supplement, nonce, time);
    r := Sent(msg[..]);
  }

  method PutHeader(msg: array<byte>, tsif: Interface, msgType: nat, memo: int, authenticatorLength: nat,
      supplementLength: nat)
    requires msg.Length >= FIXED_LENGTH
    modifies msg
    ensures msg[..12] == Header(tsif, msgType, memo, authenticatorLength, supplementLength)
  {
    hide U16Bytes, U32Bytes;
    Put(msg, 0, [0x20 + Residue(msgType, 32), Lo(tsif.ventureNbr)]);
    Put(msg, 2, U16Bytes(tsif.unitNbr));
    Put(msg, 4, [Lo(tsif.roleNbr), Lo(authenticatorLength)]);
    Put(msg, 6, U16Bytes(supplementLength));
    Put(msg, 8, U32Bytes(memo));
  }

  // ---------- receiving ----------

  predicate Checksummed(msg: seq<byte>)
    requires |msg| > 0
  {
    msg[0] / 0x20 % 2 == 1
  }

  /** The length of a time tag, as its preamble tells it: the preamble itself, one to four octets of
      seconds and up to three of fractions. */
  function TimeTagLength(preamble: byte): nat {
    1 + (preamble / 4 % 4 + 1) + preamble % 4
  }

  /** Where the authenticator starts and where it ends and the supplement starts. */
  function AuthenticatorAt(msg: seq<byte>): nat
    requires |msg| >= 14
  {
    FIXED_LENGTH + TimeTagLength(msg[12])
  }

  function SupplementAt(msg: seq<byte>): nat
    requires |msg| >= 14
  {
    AuthenticatorAt(msg) + msg[5]
  }

  /** The message has a time tag of a known kind, exactly the length its fields say and, if it claims a
      checksum, the right one. */
  predicate WellFormed(msg: seq<byte>) {
    && |msg| >= 14
    && msg[12] / 16 % 8 == 1
    && |msg| == SupplementAt(msg) + U16(msg[6], msg[7]) + (if Checksummed(msg) then 2 else 0)
    && (Checksummed(msg) ==> U16(msg[|msg| - 2], msg[|msg| - 1]) == WordSum(msg[..|msg| - 2]) % 0x10000)
  }

  function SenderOf(mib: Mib, msg: seq<byte>): Option<Party>
    requires |msg| >= 14
  {
    AuthenticationParms(mib, msg[1], U16(msg[2], msg[3]), msg[4])
  }

  /** If the party has a key, the authenticator repeats its nonce and names the party. */
  predicate Proves(party: Party, a: seq<byte>) {
    party.publicKeyLen > 0 ==>
      GoodName(party.name) && |a| == |party.name| + 8 && a[..4] == a[4..8] && a[8..] == party.name
  }

  predicate Authentic(party: Party, msg: seq<byte>)
    requires WellFormed(msg)
  {
    Proves(party, msg[AuthenticatorAt(msg)..SupplementAt(msg)])
  }

  datatype MamsMsg = MamsMsg(msgType: nat, tsif: Interface, memo: int, supplement: seq<byte>)

  function Parsed(msg: seq<byte>): MamsMsg
    requires WellFormed(msg)
  {
    MamsMsg(msg[0] % 0x20, Interface(msg[1], U16(msg[2], msg[3]), msg[4]),
            SignedWord(U32(msg[8], msg[9], msg[10], msg[11])),
            msg[SupplementAt(msg)..SupplementAt(msg) + U16(msg[6], msg[7])])
  }

  predicate Acceptable(mib: Mib, msg: seq<byte>) {
    WellFormed(msg) && SenderOf(mib, msg).Some? && Authentic(SenderOf(mib, msg).value, msg)
  }

  /** What waits in an events queue: messages, orders to shut down, and what else a thread may have to say. */
  datatype MamsEvt = MsgEvt(msg: MamsMsg) | CrashEvt | OtherEvt(evtType: nat)

  /** The message repeats its nonce and names the party, if the party has a key to check that with. */
  ghost predicate NamesParty(msg: seq<byte>, party: Party)
    requires WellFormed(msg)
  {
    party.publicKeyLen > 0 ==>
      var name, at := party.name, AuthenticatorAt(msg);
      && 0 < |name| <= 96 && msg[5] as int == |name| + 8
      && msg[at..at + 4] == msg[at + 4..at + 8] && msg[at + 8..at + msg[5]] == name
  }

  lemma NamedIffAuthentic(party: Party, msg: seq<byte>)
    requires WellFormed(msg)
    ensures NamesParty(msg, party) <==> Authentic(party, msg)
  {
    hide WordSum, U16, TimeTagLength;
    var at, end := AuthenticatorAt(msg), SupplementAt(msg);
    var a := msg[at..end];
    if |a| >= 8 {
      assert a[..4] == msg[at..at + 4] && a[4..8] == msg[at + 4..at + 8] && a[8..] == msg[at + 8..end];
    }
  }

  class MamsQueue {
    var events: seq<MamsEvt>
    var queryNbr: int

    constructor ()
      ensures events == [] && queryNbr == 0
    {
      events, queryNbr := [], 0;
    }

    /** An order to shut down goes to the head of the queue. So does the response a query waits for, and it ends
        the wait. */
    method EnqueueMamsEvent(evt: MamsEvt, responseNbr: int)
      modifies this
      ensures if evt == CrashEvt then events == [evt] + old(events) && queryNbr == old(queryNbr)
              else if old(queryNbr) != 0 && responseNbr == old(queryNbr) then events == [evt] + old(events)
                  && queryNbr == 0
              else events == old(events) + [evt] && queryNbr == old(queryNbr)
    {
      if evt == CrashEvt {
        events := [evt] + events;
        return;
      }
      if queryNbr != 0 {
        if responseNbr == queryNbr {
          events := [evt] + events;
          queryNbr := 0;
        } else {
          events := events + [evt];
        }
      } else {
        events := events + [evt];
      }
    }

    /** Exactly the acceptable messages are enqueued, as parsed. Others leave the queue alone; only those from
        parties unknown to the MIB do so without complaint. */
    method EnqueueMamsMsg(mib: Mib, msg: seq<byte>) returns (ok: bool)
      modifies this
      ensures Acceptable(mib, msg) ==>
        multiset(events) == multiset(old(events)) + multiset{MsgEvt(Parsed(msg))} && |events| == |old(events)| + 1
      ensures Acceptable(mib, msg) ==>
        if old(queryNbr) != 0 && Parsed(msg).memo == old(queryNbr) then events == [MsgEvt(Parsed(msg))] + old(events)
        else events == old(events) + [MsgEvt(Parsed(msg))]
      ensures !Acceptable(mib, msg) ==> events == old(events) && queryNbr == old(queryNbr)
      ensures ok <==> WellFormed(msg) && (SenderOf(mib, msg).Some? ==> Acceptable(mib, msg))
      ensures WellFormed(msg) ==>
        var v, u, r := msg[1], U16(msg[2], msg[3]), msg[4];
        events != old(events) <==>
        && InMib(mib, v, u, r)
        && NamesParty(msg, if v == 0 then mib.cs
                           else if r > 0 then mib.ventures[v].roles[r] else mib.ventures[v].app)
    {
      hide WordSum, AuthenticationParms, U16, U32, SignedWord, TimeTagLength, Proves, NamesParty, InMib;
      var length := |msg|;
      if length < 14 { return false; }
      var preamble := msg[12];
      if preamble / 16 % 8 != 1 { return false; }
      var cursor := AfterTimeTag(preamble);
      var expectedLength: nat := cursor;
      if length < expectedLength { return false; }
      var checksummed := msg[0] / 0x20 % 2 == 1;
      if checksummed {
        expectedLength := expectedLength + 2;
        if length < expectedLength { return false; }
        var checksum := ComputeAmsChecksum(msg[..length - 2]);
        if U16(msg[length - 2], msg[length - 1]) != checksum { return false; }
      }
      var authenticatorLength: nat := msg[5];
      expectedLength := expectedLength + authenticatorLength;
      var supplementLength := U16(msg[6], msg[7]);
      expectedLength := expectedLength + supplementLength;
      if length != expectedLength { return false; }
      assert WellFormed(msg);
      assert cursor == AuthenticatorAt(msg) && cursor + authenticatorLength == SupplementAt(msg);
      hide WellFormed, Checksummed, AuthenticatorAt, SupplementAt;
      var authenticator := msg[cursor..cursor + authenticatorLength];
      cursor := cursor + authenticatorLength;
      var parms := AuthenticationParms(mib, msg[1], U16(msg[2], msg[3]), msg[4]);
      WhoseName(mib, msg[1], U16(msg[2], msg[3]), msg[4]);
      if parms.None? { return true; }
      NamedIffAuthentic(parms.value, msg);
      ok := CheckAuthenticator(parms.value, authenticator);
      if !ok { return; }
      var supplement := msg[cursor..cursor + supplementLength];
      var m := MamsMsg(msg[0] % 0x20, Interface(msg[1], U16(msg[2], msg[3]), msg[4]),
                       SignedWord(U32(msg[8], msg[9], msg[10], msg[11])), supplement);
      EnqueueMamsEvent(MsgEvt(m), m.memo);
    }
  }

  /** Steps over the preamble, the coarse time and the fine time. */
  method AfterTimeTag(preamble: byte) returns (cursor: nat)
    ensures cursor == FIXED_LENGTH + TimeTagLength(preamble)
  {
    var coarseTimeLength: nat := preamble / 4 % 4 + 1;
    var fineTimeLength: nat := preamble % 4;
    cursor := 13;
    var coarse := coarseTimeLength;
    while coarse > 0
      invariant cursor + coarse == 13 + coarseTimeLength
    {
      cursor, coarse := cursor + 1, coarse - 1;
    }
    var fine := fineTimeLength;
    while fine > 0
      invariant cursor + fine == 13 + coarseTimeLength + fineTimeLength
    {
      cursor, fine := cursor + 1, fine - 1;
    }
  }

  method CheckAuthenticator(party: Party, a: seq<byte>) returns (ok: bool)
    ensures ok <==> Proves(party, a)
  {
    if party.publicKeyLen > 0 {
      var authName := party.name;
      if |authName| == 0 || |authName| > AUTHENTICAT_LEN - 9 { return false; }
      if |a| != |authName| + 8 { return false; }
      if a[..4] != a[4..8] || a[8..8 + |authName|] != authName { return false; }
    }
    ok := true;
  }

  // ---------- the round trip ----------

  /** The two ends' MIBs match for a sender: both know it, by one name, and either both have a key for it or
      neither has. */
  predicate Match(sender: Mib, receiver: Mib, tsif: Interface) {
    var p := AuthenticationParms(sender, tsif.ventureNbr, tsif.unitNbr, tsif.roleNbr);
    var q := AuthenticationParms(receiver, tsif.ventureNbr, tsif.unitNbr, tsif.roleNbr);
    && p.Some? && q.Some?
    && p.value.name == q.value.name && (p.value.privateKeyLen > 0 <==> q.value.publicKeyLen > 0)
    && (p.value.privateKeyLen > 0 ==> GoodName(p.value.name))
  }

  lemma PduFields(party: Party, tsif: Interface, msgType: nat, memo: int, supplement: seq<byte>, nonce: seq<byte>,
      time: nat)
    requires |supplement| < 0x10000 && |nonce| == 4 && msgType < 32 && -0x8000_0000 <= memo < 0x8000_0000
    requires tsif.ventureNbr < 256 && tsif.unitNbr < 0x10000 && tsif.roleNbr < 256
    requires party.privateKeyLen > 0 ==> GoodName(party.name)
    ensures var msg := Pdu(party, tsif, msgType, memo, supplement, nonce, time);
      && WellFormed(msg)
      && Parsed(msg) == MamsMsg(msgType, tsif, memo, supplement)
      && msg[AuthenticatorAt(msg)..SupplementAt(msg)] == Authenticator(party, nonce)
  {
    hide Header, TimeTag, Authenticator, WordSum, U16Bytes, U16, U32, WellFormed;
    var a := Authenticator(party, nonce);
    var h, t := Header(tsif, msgType, memo, |a|, |supplement|), TimeTag(time);
    var body := h + t + a + supplement;
    var msg := Pdu(party, tsif, msgType, memo, supplement, nonce, time);
    HeaderFields(tsif, msgType, memo, |a|, |supplement|);
    SmallNumbers(tsif, msgType, memo, |a|, |supplement|);
    Layout(h, t, a, supplement, U16Bytes(WordSum(body) % 0x10000));
    FirstOctet(msgType);
    assert msg[0] == 0x20 + msgType && msg[12] == 28 && msg[5] == |a|;
    assert U16(msg[6], msg[7]) == |supplement|;
    StandardLayout(msg, |a|, |supplement|);
  }

  lemma FirstOctet(msgType: nat)
    requires msgType < 32
    ensures (0x20 + msgType) / 0x20 % 2 == 1 && (0x20 + msgType) % 0x20 == msgType
  {
  }

  lemma SmallNumbers(tsif: Interface, msgType: nat, memo: int, authenticatorLength: nat, supplementLength: nat)
    requires tsif.ventureNbr < 256 && tsif.unitNbr < 0x10000 && tsif.roleNbr < 256
    requires msgType < 32 && -0x8000_0000 <= memo < 0x8000_0000
    requires authenticatorLength < 256 && supplementLength < 0x10000
    ensures Lo(tsif.ventureNbr) == tsif.ventureNbr && Lo(tsif.roleNbr) == tsif.roleNbr
    ensures Residue(tsif.unitNbr, 0x10000) == tsif.unitNbr && Residue(supplementLength, 0x10000) == supplementLength
    ensures Lo(authenticatorLength) == authenticatorLength
    ensures Residue(msgType, 32) == msgType && SignedWord(Residue(memo, 0x1_0000_0000)) == memo
  {
    ResidueKeeps(memo, 0x1_0000_0000);
  }

  /** A message with a checksum and a time tag of four octets of seconds. */
  lemma StandardLayout(msg: seq<byte>, authenticatorLength: nat, supplementLength: nat)
    requires |msg| == 17 + authenticatorLength + supplementLength + 2
    requires Checksummed(msg) && msg[12] == 28
    requires msg[5] == authenticatorLength && U16(msg[6], msg[7]) == supplementLength
    requires U16(msg[|msg| - 2], msg[|msg| - 1]) == WordSum(msg[..|msg| - 2]) % 0x10000
    ensures WellFormed(msg) && AuthenticatorAt(msg) == 17 && SupplementAt(msg) == 17 + authenticatorLength
  {
    hide WordSum, U16;
  }

  lemma HeaderFields(tsif: Interface, msgType: nat, memo: int, authenticatorLength: nat, supplementLength: nat)
    ensures var h := Header(tsif, msgType, memo, authenticatorLength, supplementLength);
      && h[0] == 0x20 + Residue(msgType, 32) && h[1] == Lo(tsif.ventureNbr) && h[4] == Lo(tsif.roleNbr)
      && h[5] == Lo(authenticatorLength)
      && U16(h[2], h[3]) == Residue(tsif.unitNbr, 0x10000) && U16(h[6], h[7]) == Residue(supplementLength, 0x10000)
      && U32(h[8], h[9], h[10], h[11]) == Residue(memo, 0x1_0000_0000)
  {
    hide U16Bytes, U32Bytes;
    var u, l, w := U16Bytes(tsif.unitNbr), U16Bytes(supplementLength), U32Bytes(memo);
    var h := Header(tsif, msgType, memo, authenticatorLength, supplementLength);
    assert h[2] == u[0] && h[3] == u[1] && h[6] == l[0] && h[7] == l[1];
    assert h[8] == w[0] && h[9] == w[1] && h[10] == w[2] && h[11] == w[3];
  }

  lemma Layout(h: seq<byte>, t: seq<byte>, a: seq<byte>, supplement: seq<byte>, checksum: seq<byte>)
    requires |h| == 12 && |t| == 5 && |checksum| == 2
    ensures var msg := h + t + a + supplement + checksum;
      && (forall i :: 0 <= i < 12 ==> msg[i] == h[i])
      && msg[12] == t[0]
      && msg[..|msg| - 2] == h + t + a + supplement
      && msg[|msg| - 2] == checksum[0] && msg[|msg| - 1] == checksum[1]
      && msg[17..17 + |a|] == a
      && msg[17 + |a|..17 + |a| + |supplement|] == supplement
  {
  }

  /** The octets of a message: twelve fixed ones, the preamble of a time tag of some kind that announces some octets
      of seconds and of fractions, these, an authenticator, a supplement, and what follows. */
  function Composed(h: seq<byte>, kind: nat, seconds: nat, fractions: nat, time: seq<byte>, a: seq<byte>,
                    supplement: seq<byte>, rest: seq<byte>): seq<byte>
    requires kind < 16 && 1 <= seconds <= 4 && fractions <= 3
  {
    h + [16 * kind + 4 * (seconds - 1) + fractions] + time + a + supplement + rest
  }

  lemma ComposedParts(h: seq<byte>, kind: nat, seconds: nat, fractions: nat, time: seq<byte>, a: seq<byte>,
                      supplement: seq<byte>, rest: seq<byte>)
    requires |h| == 12 && h[5] as int == |a| && U16(h[6], h[7]) == |supplement|
    requires kind < 16 && 1 <= seconds <= 4 && fractions <= 3 && |time| == seconds + fractions
    ensures var msg := Composed(h, kind, seconds, fractions, time, a, supplement, rest);
      && |msg| == 13 + |time| + |a| + |supplement| + |rest|
      && (forall i :: 0 <= i < 12 ==> msg[i] == h[i])
      && (msg[12] / 16 % 8 == 1 <==> kind in {1, 9})
      && AuthenticatorAt(msg) == 13 + |time| && SupplementAt(msg) == 13 + |time| + |a|
      && msg[AuthenticatorAt(msg)..SupplementAt(msg)] == a
      && msg[SupplementAt(msg)..SupplementAt(msg) + |supplement|] == supplement
      && msg[SupplementAt(msg) + |supplement|..] == rest
  {
    hide U16;
    var preamble := 16 * kind + 4 * (seconds - 1) + fractions;
    var msg := Composed(h, kind, seconds, fractions, time, a, supplement, rest);
    var front := h + [preamble] + time;
    assert msg[12] == preamble && preamble / 4 % 4 == seconds - 1 && preamble % 4 == fractions;
    assert preamble / 16 == kind;
    assert msg == front + a + supplement + rest;
  }

  lemma FlagOctet(x: byte)
    requires 0x20 <= x < 0x40
    ensures x / 0x20 % 2 == 1 && x % 0x20 == x - 0x20
  {
  }

  lemma ComposedEnd(h: seq<byte>, kind: nat, seconds: nat, fractions: nat, time: seq<byte>, a: seq<byte>,
                    supplement: seq<byte>, rest: seq<byte>)
    requires kind < 16 && 1 <= seconds <= 4 && fractions <= 3 && |rest| == 2
    ensures var msg := Composed(h, kind, seconds, fractions, time, a, supplement, rest);
      && msg[..|msg| - 2] == Composed(h, kind, seconds, fractions, time, a, supplement, [])
      && msg[|msg| - 2] == rest[0] && msg[|msg| - 1] == rest[1]
  {
    var msg := Composed(h, kind, seconds, fractions, time, a, supplement, rest);
    assert msg[..|msg| - 2] == Composed(h, kind, seconds, fractions, time, a, supplement, []);
  }

  /** Time tags of one to four octets of seconds and up to three octets of fractions, as the preamble says, are all
      stepped over. A message with a time tag of another kind, or with octets left over, is refused. */
  lemma UncheckedMessageIsReadIff(h: seq<byte>, kind: nat, seconds: nat, fractions: nat, time: seq<byte>, a: seq<byte>,
                                  supplement: seq<byte>, rest: seq<byte>)
    requires |h| == 12 && h[0] < 0x20 && h[5] as int == |a| && U16(h[6], h[7]) == |supplement|
    requires kind < 16 && 1 <= seconds <= 4 && fractions <= 3 && |time| == seconds + fractions
    ensures var msg := Composed(h, kind, seconds, fractions, time, a, supplement, rest);
      && (WellFormed(msg) <==> kind in {1, 9} && rest == [])
      && (WellFormed(msg) ==>
            && msg[AuthenticatorAt(msg)..SupplementAt(msg)] == a
            && Parsed(msg) == MamsMsg(h[0], Interface(h[1], U16(h[2], h[3]), h[4]),
                                      SignedWord(U32(h[8], h[9], h[10], h[11])), supplement))
  {
    ComposedParts(h, kind, seconds, fractions, time, a, supplement, rest);
    hide U16, U32, SignedWord, WordSum, Composed, AuthenticatorAt, SupplementAt;
  }

  /** A message that claims a checksum is read iff its last two octets are the sum of the words before them. */
  lemma CheckedMessageIsReadIff(h: seq<byte>, kind: nat, seconds: nat, fractions: nat, time: seq<byte>, a: seq<byte>,
                                supplement: seq<byte>, rest: seq<byte>)
    requires |h| == 12 && 0x20 <= h[0] < 0x40 && h[5] as int == |a| && U16(h[6], h[7]) == |supplement|
    requires kind < 16 && 1 <= seconds <= 4 && fractions <= 3 && |time| == seconds + fractions
    ensures var msg := Composed(h, kind, seconds, fractions, time, a, supplement, rest);
      && (WellFormed(msg) <==>
            && kind in {1, 9} && |rest| == 2
            && U16(rest[0], rest[1])
               == WordSum(Composed(h, kind, seconds, fractions, time, a, supplement, [])) % 0x10000)
      && (WellFormed(msg) ==>
            && msg[AuthenticatorAt(msg)..SupplementAt(msg)] == a
            && Parsed(msg) == MamsMsg(h[0] - 0x20, Interface(h[1], U16(h[2], h[3]), h[4]),
                                      SignedWord(U32(h[8], h[9], h[10], h[11])), supplement))
  {
    ComposedParts(h, kind, seconds, fractions, time, a, supplement, rest);
    if |rest| == 2 { ComposedEnd(h, kind, seconds, fractions, time, a, supplement, rest); }
    FlagOctet(h[0]);
    var msg := Composed(h, kind, seconds, fractions, time, a, supplement, rest);
    assert Checksummed(msg) && msg[0] % 0x20 == h[0] - 0x20;
    hide U16, U32, SignedWord, WordSum, Composed, AuthenticatorAt, SupplementAt, Checksummed;
  }

  /** Every message that sendMamsMsg builds for a sender both MIBs know alike is accepted, and its type, sender,
      memo and supplement come back. */
  lemma RoundTrip(sender: Mib, receiver: Mib, tsif: Interface, msgType: nat, memo: int, supplement: seq<byte>,
                  nonce: seq<byte>, time: nat)
    requires |supplement| < 0x10000 && |nonce| == 4 && msgType < 32 && -0x8000_0000 <= memo < 0x8000_0000
    requires tsif.unitNbr < 0x10000 && Match(sender, receiver, tsif)
    ensures var party := AuthenticationParms(sender, tsif.ventureNbr, tsif.unitNbr, tsif.roleNbr).value;
      var msg := Pdu(party, tsif, msgType, memo, supplement, nonce, time);
      Acceptable(receiver, msg) && Parsed(msg) == MamsMsg(msgType, tsif, memo, supplement)
  {
    var party := AuthenticationParms(sender, tsif.ventureNbr, tsif.unitNbr, tsif.roleNbr).value;
    PduFields(party, tsif, msgType, memo, supplement, nonce, time);
  }

  /** A message from a party of another name than the receiver's MIB has, or that lacks the key
      the receiver expects, is not accepted. */
  lemma WrongPartyIsRejected(party: Party, receiver: Mib, tsif: Interface, msgType: nat, memo: int,
                             supplement: seq<byte>, nonce: seq<byte>, time: nat)
    requires |supplement| < 0x10000 && |nonce| == 4 && msgType < 32 && -0x8000_0000 <= memo < 0x8000_0000
    requires tsif.ventureNbr < 256 && tsif.unitNbr < 0x10000 && tsif.roleNbr < 256
    requires party.privateKeyLen > 0 ==> GoodName(party.name)
    ensures var q := AuthenticationParms(receiver, tsif.ventureNbr, tsif.unitNbr, tsif.roleNbr);
      Acceptable(receiver, Pdu(party, tsif, msgType, memo, supplement, nonce, time)) <==>
      q.Some? && (q.value.publicKeyLen > 0 ==> party.privateKeyLen > 0 && q.value.name == party.name)
  {
    PduFields(party, tsif, msgType, memo, supplement, nonce, time);
  }

  // ---------- module identifiers in memo fields ----------

  datatype ModuleName = ModuleName(roleNbr: nat, unitNbr: nat, moduleNbr: nat)

  function ComputeModuleId(m: ModuleName): int {
    SignedWord(Residue(m.roleNbr * 0x1000000 + m.unitNbr * 0x100 + m.moduleNbr, 0x1_0000_0000))
  }

  function ParseModuleId(memo: int): Option<ModuleName> {
    var id := U32Bytes(memo);
    var m := ModuleName(id[0], U16(id[1], id[2]), id[3]);
    if ValidModule(m) then Some(m) else None
  }

  predicate ValidModule(m: ModuleName) {
    1 <= m.roleNbr <= MAX_ROLE_NBR && m.unitNbr <= Units.MAX_UNIT_NBR && 1 <= m.moduleNbr <= MAX_MODULE_NBR
  }

  /** Identifiers of modules come back whole; those of anything else that fits the fields are refused. */
  lemma ModuleIdRoundTrip(m: ModuleName)
    requires m.roleNbr < 256 && m.unitNbr < 0x10000 && m.moduleNbr < 256
    ensures ParseModuleId(ComputeModuleId(m))
         == if m.roleNbr >= 1 && m.unitNbr <= 10 && m.moduleNbr >= 1 then Some(m) else None
  {
    var id := m.roleNbr * 0x1000000 + m.unitNbr * 0x100 + m.moduleNbr;
    ResidueKeeps(id, 0x1_0000_0000);
    ResidueKeeps(SignedWord(id), 0x1_0000_0000);
    hide Residue, U32Bytes;
    var s := U32Bytes(SignedWord(id));
    SameOctets(s[0], s[1], s[2], s[3], m);
  }

  lemma SameOctets(a: byte, b: byte, c: byte, d: byte, m: ModuleName)
    requires m.roleNbr < 256 && m.unitNbr < 0x10000 && m.moduleNbr < 256
    requires U32(a, b, c, d) == m.roleNbr * 0x1000000 + m.unitNbr * 0x100 + m.moduleNbr
    ensures a == m.roleNbr && U16(b, c) == m.unitNbr && d == m.moduleNbr
  {
  }
}
