/** A RAMS gateway: its petitions, its neighbours and the operations that update them in place. Every
    method is proved to compute the corresponding function of module Petitions, on the state that
    View() gives. */
module RamsGateway {
  import opened Bytes
  import opened Enclosures
  import opened Envelope
  import opened Lists
  import opened Options
  import opened Petitions
  import opened Relaying
  import opened Units

  /** The envelope of a petition: its control code is always that of an assertion. */
  type Header = s: seq<byte> | |s| == ENVELOPE_LENGTH && EnvelopeHeader(s, ControlCode) == PETITION_ASSERTION
    witness [2, 0, 0, 0, 0, 0, 0, 0, 0, 0, 0, 0]

  class Petition {
    var envelope: Header
    var dms: seq<ModuleId>
    var dgs: seq<RamsNode>
    var sgs: seq<RamsNode>
    var stateIsFromPlayback: bool

    ghost function View(): PetitionState
      reads this
    {
      PetitionState(HeaderKey(envelope), dms, dgs, sgs, stateIsFromPlayback)
    }

    /** ConstructPetition: an assertion envelope for k, and empty sets. */
    constructor (k: Key)
      ensures View() == PetitionState(ReadBack(k), [], [], [], false)
    {
      var env := new byte[ENVELOPE_LENGTH];
      ConstructEnvelope(env, k.continuumNbr, k.unitNbr, k.roleNbr, 0, k.subjectNbr, [], PETITION_ASSERTION);
      assert env[..] == env[..ENVELOPE_LENGTH];
      HeaderUndoesConstruct(k.continuumNbr, k.unitNbr, k.roleNbr, 0, k.subjectNbr, [], PETITION_ASSERTION);
      KeyFromEnvelope(k, PETITION_ASSERTION);
      hide HeaderKey, EnvelopeHeader, EnvelopeBytes, ReadBack;
      envelope := env[..];
      dms, dgs, sgs := [], [], [];
      stateIsFromPlayback := false;
    }
  }

  ghost function Views(ps: seq<Petition>): (r: seq<PetitionState>)
    reads ps
    ensures |r| == |ps|
    ensures forall i :: 0 <= i < |ps| ==> r[i] == ps[i].View()
  {
    if ps == [] then [] else Views(ps[..|ps| - 1]) + [ps[|ps| - 1].View()]
  }

  lemma OneView(p: Petition)
    ensures Views([p]) == [p.View()] && NoDup([p])
  {
    assert [p][..0] == [];
  }

  /** What the log of sent RPDUs says of an envelope handed to the transport. */
  function RpduOf(dest: int, envelope: seq<byte>): Rpdu
    requires |envelope| >= ENVELOPE_LENGTH
  {
    var cc := EnvelopeHeader(envelope, ControlCode);
    if cc == PETITION_ASSERTION || cc == PETITION_CANCELLATION
    then PetitionRpdu(dest, cc, HeaderKey(envelope)) else MessageRpdu(dest, envelope)
  }

  lemma RpduOfPetition(dest: int, k: Key, cc: int)
    requires cc == PETITION_ASSERTION || cc == PETITION_CANCELLATION
    ensures RpduOf(dest, PetitionEnvelope(k, cc)) == PetitionRpdu(dest, cc, ReadBack(k))
  {
    HeaderUndoesConstruct(k.continuumNbr, k.unitNbr, k.roleNbr, 0, k.subjectNbr, [], cc);
    KeyFromEnvelope(k, cc);
  }

  /** The petition by which a gateway declares itself, which it wants itself. */
  method OwnDeclaration(local: int, self: ModuleId) returns (pet: Petition)
    ensures fresh(pet)
    ensures pet.View() == PetitionState(ReadBack(DeclarationKey(local)), [self], [], [], false)
  {
    hide ReadBack, HeaderKey, EnvelopeHeader;
    pet := new Petition(DeclarationKey(local));
    pet.dms := [self];
  }

  /** SubtractNodeSets, with set1's new contents as the result. */
  method SubtractNodeSets(set1: seq<RamsNode>, set2: seq<RamsNode>) returns (r: seq<RamsNode>)
    ensures r == Subtract(set1, set2)
  {
    r := [];
    for i := 0 to |set1|
      invariant r == Subtract(set1[..i], set2)
    {
      assert set1[..i + 1][..i] == set1[..i];
      if set1[i] !in set2 { r := r + [set1[i]]; }
    }
    assert set1[..|set1|] == set1;
  }

  /** AddNodeSets, with set1's new contents as the result; HandlePublishedMessage adds modules the same way. */
  method AddNodeSets<T(==,!new)>(set1: seq<T>, set2: seq<T>) returns (r: seq<T>)
    ensures r == Union(set1, set2)
  {
    r := set1;
    for i := 0 to |set2|
      invariant r == Union(set1, set2[..i])
    {
      assert set2[..i + 1][..i] == set2[..i];
      if set2[i] !in r { r := r + [set2[i]]; }
    }
    assert set2[..|set2|] == set2;
  }

  /** The RPDU of a publication: ConstructEnclosure, and SendNewRPDU up to the sending. */
  method ConstructPublication(m: AamsMessage, sourceRoleNbr: int) returns (envelope: array<byte>)
    requires |m.content| <= MAX_AMS_CONTENT
    ensures fresh(envelope) && envelope[..] == PublicationPdu(m, sourceRoleNbr) && RpduOf(0, envelope[..]).MessageRpdu?
  {
    hide EnvelopeBytes, EnclosureBytes, EnvelopeHeader;
    var enc := ConstructEnclosure(m);
    envelope := new byte[ENVELOPE_LENGTH + enc.Length];
    ConstructEnvelope(envelope, 0, 0, sourceRoleNbr, 0, m.subjectNbr, enc[..], PUBLISH_ON_RECEPTION);
    assert envelope[..] == envelope[..ENVELOPE_LENGTH + enc.Length] == PublicationPdu(m, sourceRoleNbr);
    HeaderUndoesConstruct(0, 0, sourceRoleNbr, 0, m.subjectNbr, enc[..], PUBLISH_ON_RECEPTION);
  }

  class Gateway {
    const local: int
    const self: ModuleId
    const isTree: bool
    const ramsNeighbors: seq<RamsNode>
    var declaredNeighbors: seq<RamsNode>
    var petitionSet: seq<Petition>
    var petitionLog: seq<LogLine>
    ghost var sent: seq<Rpdu>

    ghost function View(): GatewayState
      reads this, petitionSet
    {
      GatewayState(local, self, isTree, ramsNeighbors, declaredNeighbors, Views(petitionSet), sent, petitionLog)
    }

    ghost predicate Valid()
      reads this
    {
      NoDup(petitionSet)
    }

    /** A gateway that has sent its declaration to all expected neighbours. */
    constructor (local: int, self: ModuleId, isTree: bool, neighbors: seq<RamsNode>)
      ensures Valid() && fresh(petitionSet)
      ensures View() == Startup(local, self, isTree, neighbors)
    {
      var pet := OwnDeclaration(local, self);
      this.local, this.self, this.isTree, this.ramsNeighbors := local, self, isTree, neighbors;
      declaredNeighbors, petitionLog := [], [];
      petitionSet := [pet];
      new;
      hide ReadBack, HeaderKey, EnvelopeHeader, Declarations, Views, NoDup;
      sent := [];
      DeclareToAll(pet);
      OneView(pet);
    }

    /** The declaration goes to every expected neighbour, and they make up its SGS. */
    method DeclareToAll(pet: Petition)
      requires sent == [] && pet.sgs == []
      modifies `sent, pet`sgs
      ensures sent == Declarations(ramsNeighbors, local) && pet.sgs == ramsNeighbors
    {
      for i := 0 to |ramsNeighbors|
        invariant sent == Declarations(ramsNeighbors[..i], local) && pet.sgs == ramsNeighbors[..i]
      {
        assert ramsNeighbors[..i + 1][..i] == ramsNeighbors[..i];
        sent := sent + [PetitionRpdu(ramsNeighbors[i].continuumNbr, PETITION_ASSERTION, DeclarationKey(local))];
        pet.sgs := pet.sgs + [ramsNeighbors[i]];
      }
      assert ramsNeighbors[..|ramsNeighbors|] == ramsNeighbors;
    }

    method LookUpDeclaredNeighbor(continuumNbr: int) returns (found: bool)
      ensures found == Declared(View(), continuumNbr)
    {
      for i := 0 to |declaredNeighbors|
        invariant forall j :: 0 <= j < i ==> declaredNeighbors[j].continuumNbr != continuumNbr
      {
        if declaredNeighbors[i].continuumNbr == continuumNbr { return true; }
      }
      return false;
    }

    method SendRPDU(dest: int, envelope: seq<byte>) returns (ok: bool)
      requires |envelope| >= ENVELOPE_LENGTH
      modifies `sent
      ensures Step(View(), ok) == Send(old(View()), RpduOf(dest, envelope))
    {
      ok := LookUpDeclaredNeighbor(dest);
      if ok { sent := sent + [RpduOf(dest, envelope)]; }
    }

    /** SendNewRPDU with the cancellation of a petition whose header reads k. */
    method SendCancellation(dest: int, k: Key) returns (ok: bool)
      modifies `sent
      ensures Step(View(), ok) == Send(old(View()), PetitionRpdu(dest, PETITION_CANCELLATION, ReadBack(k)))
    {
      hide EnvelopeBytes, EnvelopeHeader, HeaderKey, ReadBack, RpduOf;
      var env := new byte[ENVELOPE_LENGTH];
      ConstructEnvelope(env, k.continuumNbr, k.unitNbr, k.roleNbr, 0, k.subjectNbr, [], PETITION_CANCELLATION);
      assert env[..] == env[..ENVELOPE_LENGTH] == PetitionEnvelope(k, PETITION_CANCELLATION);
      RpduOfPetition(dest, k, PETITION_CANCELLATION);
      ok := SendRPDU(dest, env[..]);
    }

    method GetConduitForContinuum(continuumNbr: int) returns (node: Option<RamsNode>)
      ensures node == Conduit(View().petitions, continuumNbr)
    {
      ghost var ps := View().petitions;
      for i := 0 to |petitionSet|
        invariant Conduit(ps, continuumNbr) == Conduit(ps[i..], continuumNbr)
      {
        var pet := petitionSet[i];
        assert ps[i..][0] == pet.View() && ps[i..][1..] == ps[i + 1..];
        if EnvelopeHeader(pet.envelope, SubjectNbr) == 0 - continuumNbr && pet.dgs != [] {
          return Some(pet.dgs[0]);
        }
      }
      return None;
    }

    method PetitionAssertionSet(pet: Petition) returns (nodes: seq<RamsNode>)
      ensures nodes == AssertionSet(View(), pet.View())
    {
      hide EnvelopeHeader, Subtract, Conduit;
      var domainCont := EnvelopeHeader(pet.envelope, ContinuumNbr);
      nodes := [];
      if domainCont == 0 {
        nodes := declaredNeighbors;
      } else {
        var conduit := GetConduitForContinuum(domainCont);
        if conduit.Some? { nodes := [conduit.value]; }
      }
      nodes := SubtractNodeSets(nodes, pet.sgs);
      if |pet.dms| == 0 && |pet.dgs| == 1 {
        nodes := SubtractNodeSets(nodes, pet.dgs);
      }
    }

    method PetitionIsAssertable(pet: Petition) returns (b: bool)
      ensures b == Assertable(View(), pet.View())
    {
      if |pet.dms| > 0 { return true; }
      if isTree && |pet.dgs| > 0 { return true; }
      return false;
    }

    method LocatePetition(k: Key) returns (i: nat)
      ensures i == FindPetition(View().petitions, k)
    {
      ghost var ps := View().petitions;
      i := 0;
      while i < |petitionSet|
        invariant i <= |petitionSet|
        invariant forall j :: 0 <= j < i ==> ps[j].key != k
      {
        assert ps[i] == petitionSet[i].View();
        if PetitionMatchesDomain(petitionSet[i].envelope, k) { return; }
        i := i + 1;
      }
    }

    // ---------- petition protocol ----------

    /** New contents for the sets and the flag of one petition. */
    method Store(i: nat, dms: seq<ModuleId>, dgs: seq<RamsNode>, sgs: seq<RamsNode>, fromPlayback: bool)
      requires Valid() && i < |petitionSet|
      modifies petitionSet[i]
      ensures petitionSet[i].envelope == old(petitionSet[i].envelope)
      ensures View() == SetPetition(old(View()), i,
                          PetitionState(HeaderKey(petitionSet[i].envelope), dms, dgs, sgs, fromPlayback))
    {
      var pet := petitionSet[i];
      pet.dms, pet.dgs, pet.sgs, pet.stateIsFromPlayback := dms, dgs, sgs, fromPlayback;
      assert Views(petitionSet) == old(Views(petitionSet))[i := pet.View()] by {
        assert forall j :: 0 <= j < |petitionSet| && j != i ==> petitionSet[j] != pet;
        assert forall j :: 0 <= j < |petitionSet| && j != i ==> petitionSet[j].View() == old(petitionSet[j].View());
      }
    }

    method AssertPetition(i: nat) returns (ok: bool)
      requires Valid() && i < |petitionSet|
      modifies this, petitionSet[i]
      ensures Valid() && petitionSet == old(petitionSet)
      ensures Step(View(), ok) == Petitions.AssertPetition(old(View()), i)
    {
      hide EnvelopeHeader, HeaderKey, NoDup, Union, Subtract, Conduit;
      var pet := petitionSet[i];
      if |pet.dms| == 0 {
        if !isTree || |pet.dgs| == 0 { return true; }
      }
      var nodes := PetitionAssertionSet(pet);
      ok := SendToAll(nodes, pet.envelope);
      if ok {
        var sgs := AddNodeSets(pet.sgs, nodes);
        Store(i, pet.dms, pet.dgs, sgs, pet.stateIsFromPlayback);
      }
    }

    /** AssertPetition's loop over its assertion set. */
    method SendToAll(nodes: seq<RamsNode>, envelope: Header) returns (ok: bool)
      modifies `sent
      ensures Step(View(), ok) == SendAssertions(old(View()), nodes, HeaderKey(envelope))
    {
      for n := 0 to |nodes|
        invariant SendAssertions(old(View()), nodes, HeaderKey(envelope))
               == SendAssertions(View(), nodes[n..], HeaderKey(envelope))
      {
        assert nodes[n..][0] == nodes[n] && nodes[n..][1..] == nodes[n + 1..];
        ok := SendRPDU(nodes[n].continuumNbr, envelope);
        if !ok { return; }
      }
      return true;
    }

    method CancelPetition(i: nat) returns (ok: bool)
      requires Valid() && i < |petitionSet|
      modifies this, petitionSet[i]
      ensures Valid() && petitionSet == old(petitionSet)
      ensures Step(View(), ok) == Petitions.CancelPetition(old(View()), i)
    {
      var pet := petitionSet[i];
      var key := HeaderKey(pet.envelope);
      if |pet.dgs| == 0 {
        while pet.sgs != []
          invariant petitionSet == old(petitionSet)
          invariant CancelToAll(old(View()), i) == CancelToAll(View(), i)
          invariant HeaderKey(pet.envelope) == key
          decreases |pet.sgs|
        {
          ok := CancelTo(i, pet.sgs[0]);
          if !ok { return; }
        }
        return true;
      }
      if |pet.dgs| == 1 {
        var node := pet.dgs[0];
        if node in pet.sgs {
          ok := CancelTo(i, node);
          return;
        }
      }
      return true;
    }

    /** The cancellation of one petition, sent to one member of its SGS, which then leaves it. */
    method CancelTo(i: nat, node: RamsNode) returns (ok: bool)
      requires Valid() && i < |petitionSet|
      modifies this, petitionSet[i]
      ensures Valid() && petitionSet == old(petitionSet)
      ensures petitionSet[i].envelope == old(petitionSet[i].envelope)
      ensures Step(View(), ok) == Petitions.CancelTo(old(View()), i, node)
    {
      var pet := petitionSet[i];
      ok := SendCancellation(node.continuumNbr, HeaderKey(pet.envelope));
      if ok {
        Store(i, pet.dms, pet.dgs, RemoveFirst(pet.sgs, node), pet.stateIsFromPlayback);
      }
    }

    /** A petition not known until now, at the end of the set. */
    method InsertPetition(k: Key, dms: seq<ModuleId>, dgs: seq<RamsNode>, fromPlayback: bool)
      requires Valid()
      modifies `petitionSet
      ensures Valid() && fresh(set p | p in petitionSet && p !in old(petitionSet))
      ensures View() == old(View()).(petitions :=
                          old(View()).petitions + [PetitionState(ReadBack(k), dms, dgs, [], fromPlayback)])
    {
      hide HeaderKey, EnvelopeHeader, ReadBack, NoDup;
      var pet := NewPetition(k, dms, dgs, fromPlayback);
      ghost var before := petitionSet;
      AppendNoDup(before, pet);
      petitionSet := petitionSet + [pet];
      assert petitionSet[..|before|] == before;
      assert Views(before) == old(Views(petitionSet));
    }

    method NewPetition(k: Key, dms: seq<ModuleId>, dgs: seq<RamsNode>, fromPlayback: bool) returns (pet: Petition)
      ensures fresh(pet) && pet.View() == PetitionState(ReadBack(k), dms, dgs, [], fromPlayback)
    {
      pet := new Petition(k);
      pet.dms, pet.dgs, pet.stateIsFromPlayback := dms, dgs, fromPlayback;
    }

    method NoteDeclaration(from: RamsNode)
      modifies `declaredNeighbors
      ensures View() == Petitions.NoteDeclaration(old(View()), from)
    {
      var found := LookUpDeclaredNeighbor(from.continuumNbr);
      if !found { declaredNeighbors := declaredNeighbors + [from]; }
    }

    /** Lists the asserting node in the DGS of the petition, which is created if it is not known. */
    method NoteAssertion(from: RamsNode, k: Key, fromPlayback: bool) returns (i: nat)
      requires Valid()
      modifies this, petitionSet
      ensures Valid() && fresh(set p | p in petitionSet && p !in old(petitionSet))
      ensures i == FindPetition(old(View()).petitions, k)
      ensures View() == Petitions.NoteAssertion(old(View()), from, k, fromPlayback)
    {
      i := LocatePetition(k);
      if i < |petitionSet| {
        var pet := petitionSet[i];
        Store(i, pet.dms, pet.dgs + [from], pet.sgs, fromPlayback);
      } else {
        InsertPetition(k, [], [from], fromPlayback);
      }
    }

    /** The loop of HandlePetitionAssertion over the petitions that from may now be sent. */
    method Establish(from: RamsNode, skip: nat) returns (ok: bool)
      requires Valid() && skip < |petitionSet|
      modifies this, petitionSet
      ensures Valid() && petitionSet == old(petitionSet)
      ensures Step(View(), ok) == Petitions.Establish(old(View()), from, skip, 0)
    {
      hide Petitions.EstablishOne, Views;
      for j := 0 to |petitionSet|
        invariant Valid() && petitionSet == old(petitionSet)
        invariant Petitions.Establish(old(View()), from, skip, 0) == Petitions.Establish(View(), from, skip, j)
      {
        ok := EstablishOne(from, skip, j);
        if !ok { return; }
      }
      return true;
    }

    method EstablishOne(from: RamsNode, skip: nat, j: nat) returns (ok: bool)
      requires Valid() && skip < |petitionSet| && j < |petitionSet|
      modifies this, petitionSet[j]
      ensures Valid() && petitionSet == old(petitionSet)
      ensures Step(View(), ok) == Petitions.EstablishOne(old(View()), from, skip, j)
    {
      hide EnvelopeHeader, HeaderKey, NoDup, AssertionSet, Assertable;
      var aPet := petitionSet[j];
      if HeaderKey(aPet.envelope) == HeaderKey(petitionSet[skip].envelope) { return true; }
      var assertable := PetitionIsAssertable(aPet);
      if assertable {
        var nodes := PetitionAssertionSet(aPet);
        if from in nodes {
          ok := SendRPDU(from.continuumNbr, aPet.envelope);
          if ok { Store(j, aPet.dms, aPet.dgs, aPet.sgs + [from], aPet.stateIsFromPlayback); }
          return;
        }
      }
      return true;
    }

    method HandlePetitionAssertion(from: RamsNode, k: Key, fromPlayback: bool) returns (ok: bool)
      requires Valid()
      modifies this, petitionSet
      ensures Valid() && fresh(set p | p in petitionSet && p !in old(petitionSet))
      ensures Step(View(), ok) == Petitions.HandlePetitionAssertion(old(View()), from, k, fromPlayback)
    {
      hide Petitions.Establish, Petitions.AssertPetition, Views, Petitions.NoteAssertion;
      var i := LocatePetition(k);
      if i < |petitionSet| && from in petitionSet[i].dgs && petitionSet[i].stateIsFromPlayback {
        var pet := petitionSet[i];
        Store(i, pet.dms, pet.dgs, pet.sgs, fromPlayback);
        return true;
      }
      i := NoteAssertion(from, k, fromPlayback);
      if fromPlayback { return true; }
      if k.subjectNbr < 0 {
        ok := Establish(from, i);
        if !ok { return; }
      }
      ok := AssertPetition(i);
    }

    method HandlePetitionCancellation(from: RamsNode, k: Key, fromPlayback: bool) returns (ok: bool)
      requires Valid()
      modifies this, petitionSet
      ensures Valid() && petitionSet == old(petitionSet)
      ensures Step(View(), ok) == Petitions.HandlePetitionCancellation(old(View()), from, k, fromPlayback)
    {
      hide Petitions.Retract, Petitions.CancelPetition, Views, HeaderKey, NoDup, RemoveFirst, Assertable;
      var i := LocatePetition(k);
      if i == |petitionSet| || from !in petitionSet[i].dgs { return true; }
      var pet := petitionSet[i];
      Store(i, pet.dms, RemoveFirst(pet.dgs, from), pet.sgs, fromPlayback);
      if fromPlayback { return true; }
      if k.subjectNbr != 0 - from.continuumNbr {
        var assertable := PetitionIsAssertable(pet);
        if assertable { return true; }
        ok := CancelPetition(i);
        return;
      }
      ok := Retract(from);
    }

    /** The neighbour leaves every petition and the list of declared neighbours. */
    method Retract(from: RamsNode) returns (ok: bool)
      requires Valid()
      modifies this, petitionSet
      ensures Valid() && petitionSet == old(petitionSet)
      ensures Step(View(), ok) == Petitions.Retract(old(View()), from, 0)
    {
      hide Petitions.RetractOne, Views;
      for j := 0 to |petitionSet|
        invariant Valid() && petitionSet == old(petitionSet)
        invariant Petitions.Retract(old(View()), from, 0) == Petitions.Retract(View(), from, j)
      {
        ok := RetractOne(from, j);
        if !ok { return; }
      }
      declaredNeighbors := RemoveFirst(declaredNeighbors, from);
      return true;
    }

    method RetractOne(from: RamsNode, j: nat) returns (ok: bool)
      requires Valid() && j < |petitionSet|
      modifies this, petitionSet[j]
      ensures Valid() && petitionSet == old(petitionSet)
      ensures Step(View(), ok) == Petitions.RetractOne(old(View()), from, j)
    {
      hide Petitions.CancelPetition, Views, RemoveFirst, HeaderKey, EnvelopeHeader, ReadBack, Declared;
      var aPet := petitionSet[j];
      var listed := from in aPet.sgs || from in aPet.dgs;
      Store(j, aPet.dms, RemoveFirst(aPet.dgs, from), RemoveFirst(aPet.sgs, from), aPet.stateIsFromPlayback);
      if listed {
        ok := SendCancellation(from.continuumNbr, HeaderKey(aPet.envelope));
        if !ok { return; }
      }
      var assertable := PetitionIsAssertable(aPet);
      if assertable { return true; }
      ok := CancelPetition(j);
    }

    /** The petition cases of HandleRPDU; every petition RPDU that was acted upon is logged. */
    method HandlePetitionRpdu(from: RamsNode, cc: int, k: Key) returns (ok: bool)
      requires Valid()
      modifies this, petitionSet
      ensures Valid() && fresh(set p | p in petitionSet && p !in old(petitionSet))
      ensures Step(View(), ok) == Petitions.HandlePetitionRpdu(old(View()), from, cc, k)
    {
      hide Petitions.HandlePetitionAssertion, Petitions.HandlePetitionCancellation, Petitions.NoteDeclaration, Views;
      if cc == PETITION_ASSERTION {
        if k.subjectNbr == 0 - from.continuumNbr {
          NoteDeclaration(from);
        } else {
          var declared := LookUpDeclaredNeighbor(from.continuumNbr);
          if !declared { return true; }
        }
        ok := HandlePetitionAssertion(from, k, false);
      } else if cc == PETITION_CANCELLATION {
        ok := HandlePetitionCancellation(from, k, false);
      } else {
        return true;
      }
      if ok { petitionLog := petitionLog + [LogLine(from.protocol, from.gwEid, cc, k)]; }
    }

    // ---------- playback ----------

    method LookUpNeighborByEid(gwEid: string) returns (node: Option<RamsNode>)
      ensures node == LookUpNeighbor(ramsNeighbors, gwEid)
    {
      for i := 0 to |ramsNeighbors|
        invariant LookUpNeighbor(ramsNeighbors, gwEid) == LookUpNeighbor(ramsNeighbors[i..], gwEid)
      {
        assert ramsNeighbors[i..][0] == ramsNeighbors[i] && ramsNeighbors[i..][1..] == ramsNeighbors[i + 1..];
        if ramsNeighbors[i].gwEid == gwEid { return Some(ramsNeighbors[i]); }
      }
      return None;
    }

    method RehandlePetition(line: LogLine) returns (ok: bool)
      requires Valid()
      modifies this, petitionSet
      ensures Valid() && fresh(set p | p in petitionSet && p !in old(petitionSet))
      ensures Step(View(), ok) == Petitions.RehandlePetition(old(View()), line)
    {
      hide Petitions.HandlePetitionAssertion, Petitions.HandlePetitionCancellation, Petitions.NoteDeclaration, Views;
      var node := LookUpNeighborByEid(line.gwEid);
      if node.None? { return false; }
      var from := node.value;
      if line.cc == PETITION_ASSERTION {
        if line.key.subjectNbr == 0 - from.continuumNbr {
          NoteDeclaration(from);
        } else {
          var declared := LookUpDeclaredNeighbor(from.continuumNbr);
          if !declared { return false; }
        }
        ok := HandlePetitionAssertion(from, line.key, true);
      } else if line.cc == PETITION_CANCELLATION {
        ok := HandlePetitionCancellation(from, line.key, true);
      } else {
        return false;
      }
    }

    method PlaybackPetitionLog(lines: seq<LogLine>) returns (ok: bool)
      requires Valid()
      modifies this, petitionSet
      ensures Valid() && fresh(set p | p in petitionSet && p !in old(petitionSet))
      ensures Step(View(), ok) == Petitions.PlaybackPetitionLog(old(View()), lines)
    {
      hide Petitions.RehandlePetition, Views;
      for i := 0 to |lines|
        invariant Valid() && fresh(set p | p in petitionSet && p !in old(petitionSet))
        invariant Petitions.PlaybackPetitionLog(old(View()), lines)
               == Petitions.PlaybackPetitionLog(View(), lines[i..])
      {
        assert lines[i..][0] == lines[i] && lines[i..][1..] == lines[i + 1..];
        ok := RehandlePetition(lines[i]);
        if !ok { return; }
      }
      return true;
    }

    // ---------- local subscriptions ----------

    method AddPetitioner(m: ModuleId, k: Key) returns (ok: bool)
      requires Valid()
      modifies this, petitionSet
      ensures Valid() && fresh(set p | p in petitionSet && p !in old(petitionSet))
      ensures Step(View(), ok) == Petitions.AddPetitioner(old(View()), m, k)
    {
      hide HeaderKey, EnvelopeHeader, ReadBack, NoDup, Petitions.AssertPetition;
      var i := LocatePetition(k);
      if i < |petitionSet| {
        var pet := petitionSet[i];
        if m in pet.dms { return true; }
        Store(i, pet.dms + [m], pet.dgs, pet.sgs, false);
      } else {
        InsertPetition(k, [m], [], false);
      }
      ok := AssertPetition(i);
    }

    method RemovePetitioner(m: ModuleId, k: Key) returns (ok: bool)
      requires Valid()
      modifies this, petitionSet
      ensures Valid() && petitionSet == old(petitionSet)
      ensures Step(View(), ok) == Petitions.RemovePetitioner(old(View()), m, k)
    {
      hide HeaderKey, EnvelopeHeader, NoDup, Petitions.CancelPetition;
      var i := LocatePetition(k);
      if i == |petitionSet| { return true; }
      var pet := petitionSet[i];
      Store(i, RemoveFirst(pet.dms, m), pet.dgs, pet.sgs, pet.stateIsFromPlayback);
      var assertable := PetitionIsAssertable(pet);
      if assertable { return true; }
      ok := CancelPetition(i);
    }

    /** HandleSubscription, HandleUnsubscription and HandleRPDU. */
    method Handle(e: Event) returns (ok: bool)
      requires Valid()
      modifies this, petitionSet
      ensures Valid() && fresh(set p | p in petitionSet && p !in old(petitionSet))
      ensures Step(View(), ok) == Apply(old(View()), e)
    {
      match e
      case Subscribe(m, k) =>
        if k.continuumNbr != local && m != self { ok := AddPetitioner(m, k); } else { return true; }
      case Unsubscribe(m, k) =>
        if k.continuumNbr != local && m != self { ok := RemovePetitioner(m, k); } else { return true; }
      case Receive(from, cc, k) => ok := HandlePetitionRpdu(from, cc, k);
    }

    // ---------- messages ----------

    method SendToEach(nodes: seq<RamsNode>, rpdu: seq<byte>) returns (ok: bool)
      requires |rpdu| >= ENVELOPE_LENGTH && RpduOf(0, rpdu).MessageRpdu?
      modifies `sent
      ensures Step(View(), ok) == SendMessage(old(View()), nodes, rpdu)
    {
      for n := 0 to |nodes|
        invariant SendMessage(old(View()), nodes, rpdu) == SendMessage(View(), nodes[n..], rpdu)
      {
        assert nodes[n..][0] == nodes[n] && nodes[n..][1..] == nodes[n + 1..];
        ok := SendRPDU(nodes[n].continuumNbr, rpdu);
        if !ok { return; }
      }
      return true;
    }

    method SatisfiesPetition(msg: Message, pet: Petition, venture: Venture) returns (b: bool)
      requires venture.Valid() && 0 <= msg.unitNbr <= MAX_UNIT_NBR
      ensures b == Satisfies(venture.Names, msg, HeaderKey(pet.envelope))
      ensures var k, names := HeaderKey(pet.envelope), venture.Names;
        b <==>
        && k.subjectNbr == msg.subjectNbr
        && (k.continuumNbr == 0 || k.continuumNbr == msg.continuumNbr)
        && (k.roleNbr == 0 || k.roleNbr == msg.roleNbr)
        && (k.unitNbr == 0
            || (k.unitNbr in names && msg.unitNbr in names && names[k.unitNbr] <= names[msg.unitNbr]))
    {
      if msg.subjectNbr != EnvelopeHeader(pet.envelope, SubjectNbr) { return false; }
      var petCont := EnvelopeHeader(pet.envelope, ContinuumNbr);
      if petCont != 0 && petCont != msg.continuumNbr { return false; }
      var petUnit := EnvelopeHeader(pet.envelope, UnitField);
      if petUnit != 0 {
        var within := venture.IsSubunitOf(msg.unitNbr, petUnit);
        if !within { return false; }
      }
      var petRole := EnvelopeHeader(pet.envelope, SourceIdField);
      return petRole == 0 || petRole == msg.roleNbr;
    }

    /** Relays a publication to the other gateways that want it, then hands it to the local modules that
        do. The modules that got it are returned. */
    method HandlePublishedMessage(from: RamsNode, pdu: Pdu, venture: Venture)
      returns (ok: bool, modules: seq<ModuleId>)
      requires venture.Valid()
      requires EnvelopeHeader(pdu, ControlCode) == PUBLISH_ON_RECEPTION
      requires var msg := ParseMessage(pdu); msg.Some? ==> msg.value.unitNbr <= MAX_UNIT_NBR
      modifies `sent
      ensures var msg, ps := ParseMessage(pdu), old(View()).petitions;
        && Step(View(), ok)
           == SendMessage(old(View()), RelayNodes(venture.Names, ps, pdu, from.continuumNbr), Trimmed(pdu))
        && modules == if ok && msg.Some? then WantedByModules(venture.Names, ps, msg.value) else []
    {
      var msg := ParseMessage(pdu);
      if msg.None? { return true, []; }
      var nodes, wanted := Destinations(from.continuumNbr, msg.value, venture);
      ok := SendToEach(nodes, Trimmed(pdu));
      modules := if ok then wanted else [];
    }

    /** HandlePublishedMessage's compilation of destinations, duplicates and the sender excluded. */
    method Destinations(from: int, msg: Message, venture: Venture)
      returns (nodes: seq<RamsNode>, modules: seq<ModuleId>)
      requires venture.Valid() && 0 <= msg.unitNbr <= MAX_UNIT_NBR
      ensures nodes == WantedByOthers(venture.Names, Views(petitionSet), msg, from)
      ensures modules == WantedByModules(venture.Names, Views(petitionSet), msg)
      ensures NoDup(nodes) && NoDup(modules)
      ensures forall n :: n in nodes <==>
        n.continuumNbr != from && Wants(venture.Names, Views(petitionSet), msg, n)
    {
      hide Satisfies, Union, HeaderKey, EnvelopeHeader, Others, Views, Wants;
      ghost var ps := Views(petitionSet);
      nodes, modules := [], [];
      for i := 0 to |petitionSet|
        invariant nodes == WantedByOthers(venture.Names, ps[..i], msg, from)
        invariant modules == WantedByModules(venture.Names, ps[..i], msg)
      {
        hide venture.Valid;
        var pet := petitionSet[i];
        assert ps[..i + 1][..i] == ps[..i] && ps[i] == pet.View();
        var satisfied := SatisfiesPetition(msg, pet, venture);
        if satisfied {
          var others := ExcludeContinuum(pet.dgs, from);
          nodes := AddNodeSets(nodes, others);
          modules := AddNodeSets(modules, pet.dms);
        }
      }
      assert ps[..|ps|] == ps;
      WantedByOthersNodes(venture.Names, ps, msg, from);
      forall m { WantedByModulesExactly(venture.Names, ps, msg, m); }
    }

    /** Sends a local publication to every gateway that wants it, enclosed in a new RPDU. */
    method ForwardPublishedMessage(m: AamsMessage, sourceRoleNbr: int, venture: Venture) returns (ok: bool)
      requires venture.Valid() && 0 <= m.unitNbr <= MAX_UNIT_NBR && |m.content| <= MAX_AMS_CONTENT
      modifies `sent
      ensures Step(View(), ok)
           == SendMessage(old(View()), WantedBy(venture.Names, old(View()).petitions, MessageOf(m, sourceRoleNbr)),
                          PublicationPdu(m, sourceRoleNbr))
    {
      hide PublicationPdu, WantedBy;
      var nodes := Audience(MessageOf(m, sourceRoleNbr), venture);
      var envelope := ConstructPublication(m, sourceRoleNbr);
      ok := SendToEach(nodes, envelope[..]);
    }

    /** ForwardPublishedMessage's compilation of destinations, duplicates excluded. */
    method Audience(msg: Message, venture: Venture) returns (nodes: seq<RamsNode>)
      requires venture.Valid() && 0 <= msg.unitNbr <= MAX_UNIT_NBR
      ensures nodes == WantedBy(venture.Names, Views(petitionSet), msg)
      ensures NoDup(nodes) && forall n :: n in nodes <==> Wants(venture.Names, Views(petitionSet), msg, n)
    {
      hide Satisfies, HeaderKey, EnvelopeHeader, Wants, NoDup, Views;
      ghost var ps := Views(petitionSet);
      nodes := [];
      for i := 0 to |petitionSet|
        invariant nodes == WantedBy(venture.Names, ps[..i], msg)
      {
        hide venture.Valid;
        var pet := petitionSet[i];
        assert ps[..i + 1][..i] == ps[..i] && ps[i] == pet.View();
        if |pet.dgs| != 0 {
          var satisfied := SatisfiesPetition(msg, pet, venture);
          if satisfied { nodes := AddNodeSets(nodes, pet.dgs); }
        }
      }
      assert ps[..|ps|] == ps;
      WantedByNodes(venture.Names, ps, msg);
    }

    method HandleAnnouncedMessage(from: RamsNode, pdu: Pdu) returns (ok: bool)
      requires EnvelopeHeader(pdu, ControlCode) == ANNOUNCE_ON_RECEPTION
      modifies `sent
      ensures Step(View(), ok) == SendMessage(old(View()),
                AnnounceNodes(old(View()), EnvelopeHeader(pdu, ContinuumNbr), from.continuumNbr), Trimmed(pdu))
    {
      var dest := EnvelopeHeader(pdu, ContinuumNbr);
      var nodes: seq<RamsNode> := [];
      if dest == 0 {
        if isTree { nodes := ExcludeContinuum(declaredNeighbors, from.continuumNbr); }
      } else if dest != local {
        var conduit := GetConduitForContinuum(dest);
        if conduit.Some? { nodes := [conduit.value]; }
      }
      ok := SendToEach(nodes, Trimmed(pdu));
    }

    method HandlePrivateMessage(pdu: Pdu) returns (ok: bool)
      requires EnvelopeHeader(pdu, ControlCode) == SEND_ON_RECEPTION
      modifies `sent
      ensures Step(View(), ok)
           == SendMessage(old(View()), PrivateNodes(old(View()), EnvelopeHeader(pdu, ContinuumNbr)), Trimmed(pdu))
    {
      var dest := EnvelopeHeader(pdu, ContinuumNbr);
      var nodes: seq<RamsNode> := [];
      if dest != local {
        var conduit := GetConduitForContinuum(dest);
        if conduit.Some? { nodes := [conduit.value]; }
      }
      ok := SendToEach(nodes, Trimmed(pdu));
    }

    method ForwardTargetedMessage(rpdu: seq<byte>) returns (ok: bool)
      requires |rpdu| >= ENVELOPE_LENGTH
      modifies `sent
      ensures Step(View(), ok) == SendMessage(old(View()),
                TargetedNodes(old(View()), EnvelopeHeader(rpdu, ContinuumNbr), EnvelopeHeader(rpdu, ControlCode)), rpdu)
    {
      var dest, cc := EnvelopeHeader(rpdu, ContinuumNbr), EnvelopeHeader(rpdu, ControlCode);
      if dest < 0 { return true; }
      if dest == 0 {
        if cc != ANNOUNCE_ON_RECEPTION { return true; }
        ok := SendToEach(declaredNeighbors, rpdu);
        return;
      }
      if cc != SEND_ON_RECEPTION && cc != ANNOUNCE_ON_RECEPTION { return true; }
      var conduit := GetConduitForContinuum(dest);
      if conduit.None? { return true; }
      assert ConduitNodes(View(), dest) == [conduit.value];
      ok := SendToEach([conduit.value], rpdu);
    }
  }

  method ExcludeContinuum(nodes: seq<RamsNode>, continuumNbr: int) returns (r: seq<RamsNode>)
    ensures r == Others(nodes, continuumNbr)
  {
    r := [];
    for i := 0 to |nodes|
      invariant r == Others(nodes[..i], continuumNbr)
    {
      assert nodes[..i + 1][..i] == nodes[..i];
      if nodes[i].continuumNbr != continuumNbr { r := r + [nodes[i]]; }
    }
    assert nodes[..|nodes|] == nodes;
  }
}
