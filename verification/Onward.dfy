/** What a gateway's operations never take back, apart from retractions: RPDUs once sent, petitions once
    known, and petitions that are still wanted, first of all the gateway's own declaration. */
module Onward {
  import opened Envelope
  import opened Lists
  import opened Petitions
  import opened PetitionLaws

  /** An RPDU that is no cancellation of k. */
  predicate NotCancelled(r: Rpdu, k: Key) {
    r.PetitionRpdu? ==> r.cc == PETITION_ASSERTION || (r.cc == PETITION_CANCELLATION && r.key != k)
  }

  /** All petition RPDUs sent are assertions or cancellations, and none cancels the gateway's own
      declaration. */
  ghost predicate NeverRetracted(g: GatewayState) {
    forall r :: r in g.sent ==> NotCancelled(r, DeclarationKey(g.local))
  }

  /** h comes after g: nothing sent is unsent, no petition is lost, and nothing sent in between cancels k. */
  ghost predicate Later(g: GatewayState, h: GatewayState, k: Key) {
    && g.sent <= h.sent && h.local == g.local && h.self == g.self && h.isTree == g.isTree
    && |g.petitions| <= |h.petitions|
    && (forall i :: 0 <= i < |g.petitions| ==> h.petitions[i].key == g.petitions[i].key)
    && (forall p :: |g.sent| <= p < |h.sent| ==> NotCancelled(h.sent[p], k))
  }

  /** The gateway's first petition is its own declaration, which it wants itself. */
  ghost predicate Declares(g: GatewayState) {
    && |g.petitions| > 0 && g.petitions[0].key == DeclarationKey(g.local) && g.self in g.petitions[0].dms
    && NeverRetracted(g)
  }

  lemma LaterTransitive(f: GatewayState, g: GatewayState, h: GatewayState, k: Key)
    requires Later(f, g, k) && Later(g, h, k)
    ensures Later(f, h, k)
  {
    hide NotCancelled;
    forall p | |f.sent| <= p < |h.sent| ensures NotCancelled(h.sent[p], k) {
      if p < |g.sent| { assert h.sent[p] == g.sent[p]; }
    }
  }

  lemma SendIsLater(g: GatewayState, r: Rpdu, k: Key)
    requires NotCancelled(r, k)
    ensures Later(g, Send(g, r).gw, k)
  {
  }

  lemma {:induction false} SendAssertionsIsLater(g: GatewayState, nodes: seq<RamsNode>, key: Key, k: Key)
    ensures Later(g, SendAssertions(g, nodes, key).gw, k)
    decreases |nodes|
  {
    if nodes != [] {
      var s := Send(g, PetitionRpdu(nodes[0].continuumNbr, PETITION_ASSERTION, key));
      SendAssertionsIsLater(s.gw, nodes[1..], key, k);
      LaterTransitive(g, s.gw, SendAssertions(s.gw, nodes[1..], key).gw, k);
    }
  }

  lemma AssertPetitionIsLater(g: GatewayState, i: nat, k: Key)
    requires i < |g.petitions|
    ensures Later(g, AssertPetition(g, i).gw, k)
  {
    SendAssertionsIsLater(g, AssertionSet(g, g.petitions[i]), g.petitions[i].key, k);
  }

  lemma CancelToIsLater(g: GatewayState, i: nat, node: RamsNode, k: Key)
    requires i < |g.petitions| && ReadBack(g.petitions[i].key) != k
    ensures Later(g, CancelTo(g, i, node).gw, k)
  {
    SendIsLater(g, PetitionRpdu(node.continuumNbr, PETITION_CANCELLATION, ReadBack(g.petitions[i].key)), k);
  }

  lemma {:induction false} CancelToAllIsLater(g: GatewayState, i: nat, k: Key)
    requires i < |g.petitions| && ReadBack(g.petitions[i].key) != k
    ensures Later(g, CancelToAll(g, i).gw, k)
    decreases |g.petitions[i].sgs|
  {
    if g.petitions[i].sgs != [] {
      var s := CancelTo(g, i, g.petitions[i].sgs[0]);
      CancelToIsLater(g, i, g.petitions[i].sgs[0], k);
      if s.ok {
        CancelToAllIsLater(s.gw, i, k);
        LaterTransitive(g, s.gw, CancelToAll(s.gw, i).gw, k);
      }
    }
  }

  lemma CancelPetitionIsLater(g: GatewayState, i: nat, k: Key)
    requires i < |g.petitions| && ReadBack(g.petitions[i].key) != k
    ensures Later(g, CancelPetition(g, i).gw, k)
  {
    CancelToAllIsLater(g, i, k);
    if |g.petitions[i].dgs| == 1 { CancelToIsLater(g, i, g.petitions[i].dgs[0], k); }
  }

  lemma {:induction false} EstablishIsLater(g: GatewayState, from: RamsNode, skip: nat, j: nat, k: Key)
    requires skip < |g.petitions| && j <= |g.petitions|
    ensures Later(g, Establish(g, from, skip, j).gw, k)
    decreases |g.petitions| - j
  {
    if j < |g.petitions| {
      var s := EstablishOne(g, from, skip, j);
      assert Later(g, s.gw, k);
      if s.ok {
        EstablishIsLater(s.gw, from, skip, j + 1, k);
        LaterTransitive(g, s.gw, Establish(s.gw, from, skip, j + 1).gw, k);
      }
    }
  }

  lemma AssertionIsLater(g: GatewayState, from: RamsNode, key: Key, k: Key)
    ensures Later(g, HandlePetitionAssertion(g, from, key, false).gw, k)
  {
    hide Establish, AssertPetition;
    var i, noted := FindPetition(g.petitions, key), NoteAssertion(g, from, key, false);
    assert Later(g, noted, k);
    EstablishIsLater(noted, from, i, 0, k);
    var s := if key.subjectNbr < 0 then Establish(noted, from, i, 0) else Step(noted, true);
    LaterTransitive(g, noted, s.gw, k);
    AssertPetitionIsLater(s.gw, i, k);
    LaterTransitive(g, s.gw, AssertPetition(s.gw, i).gw, k);
  }

  /** The petition for k, if there is one, is wanted on this side of the gateway or the other. */
  ghost predicate StillWanted(g: GatewayState, k: Key) {
    forall i :: 0 <= i < |g.petitions| && g.petitions[i].key == k ==> Assertable(g, g.petitions[i])
  }

  /** A petition is cancelled only if it is not assertable any more. */
  lemma CancelledIsLater(g: GatewayState, i: nat, p: PetitionState, k: Key)
    requires UniqueKeys(g) && Representable(k) && i < |g.petitions| && p.key == g.petitions[i].key
    requires var h := SetPetition(g, i, p);
      StillWanted(if Assertable(h, p) then h else CancelPetition(h, i).gw, k)
    ensures var h := SetPetition(g, i, p);
      Later(g, h, k) && (!Assertable(h, p) ==> Later(g, CancelPetition(h, i).gw, k))
  {
    hide CancelPetition, ReadBack;
    var h := SetPetition(g, i, p);
    if !Assertable(h, p) {
      assert CancelPetition(h, i).gw.petitions[i].key != k;
      ReadBackKeepsApart(p.key);
      CancelPetitionIsLater(h, i, k);
      LaterTransitive(g, h, CancelPetition(h, i).gw, k);
    }
  }

  lemma CancellationIsLater(g: GatewayState, from: RamsNode, key: Key, k: Key)
    requires UniqueKeys(g) && Representable(k) && NoRetraction(g, Receive(from, PETITION_CANCELLATION, key))
    requires StillWanted(HandlePetitionCancellation(g, from, key, false).gw, k)
    ensures Later(g, HandlePetitionCancellation(g, from, key, false).gw, k)
  {
    hide CancelPetition, StillWanted, Assertable, UniqueKeys;
    var i := FindPetition(g.petitions, key);
    if i < |g.petitions| && from in g.petitions[i].dgs {
      CancelledIsLater(g, i, g.petitions[i].(dgs := RemoveFirst(g.petitions[i].dgs, from), fromPlayback := false), k);
    }
  }

  lemma SubscriptionIsLater(g: GatewayState, e: Event, k: Key)
    requires UniqueKeys(g) && Representable(k) && !e.Receive? && StillWanted(Apply(g, e).gw, k)
    ensures Later(g, Apply(g, e).gw, k)
  {
    hide CancelPetition, AssertPetition, StillWanted, Assertable, UniqueKeys, Representable;
    var i, m, key := FindPetition(g.petitions, e.key), e.m, e.key;
    if key.continuumNbr != g.local && m != g.self {
      if e.Unsubscribe? {
        if i < |g.petitions| {
          CancelledIsLater(g, i, g.petitions[i].(dms := RemoveFirst(g.petitions[i].dms, m)), k);
        }
      } else if i == |g.petitions| || m !in g.petitions[i].dms {
        var h := if i == |g.petitions|
                 then g.(petitions := g.petitions + [PetitionState(ReadBack(key), [m], [], [], false)])
                 else SetPetition(g, i, g.petitions[i].(dms := g.petitions[i].dms + [m], fromPlayback := false));
        assert Later(g, h, k);
        AssertPetitionIsLater(h, i, k);
        LaterTransitive(g, h, AssertPetition(h, i).gw, k);
      }
    }
  }

  /** No event but a retraction cancels a petition that is still wanted after it. */
  lemma ApplyIsLater(g: GatewayState, e: Event, k: Key)
    requires UniqueKeys(g) && Representable(k) && NoRetraction(g, e) && StillWanted(Apply(g, e).gw, k)
    ensures Later(g, Apply(g, e).gw, k)
  {
    hide HandlePetitionAssertion, HandlePetitionCancellation, AddPetitioner, RemovePetitioner, UniqueKeys,
        Representable;
    if !e.Receive? {
      SubscriptionIsLater(g, e, k);
    } else if e.cc == PETITION_CANCELLATION {
      CancellationIsLater(g, e.from, e.key, k);
    } else {
      AssertionIsLater(NoteDeclaration(g, e.from), e.from, e.key, k);
      AssertionIsLater(g, e.from, e.key, k);
    }
  }

  // ---------- the gateway's own declaration ----------

  /** The gateway does not leave a petition of its own. */
  ghost predicate KeepsOwn(g: GatewayState, h: GatewayState) {
    && h.self == g.self && |g.petitions| <= |h.petitions|
    && forall i :: 0 <= i < |g.petitions| && g.self in g.petitions[i].dms ==> g.self in h.petitions[i].dms
  }

  lemma AssertionKeepsOwn(g: GatewayState, from: RamsNode, k: Key)
    ensures KeepsOwn(g, HandlePetitionAssertion(g, from, k, false).gw)
  {
    hide Establish, AssertPetition, ReadBack;
    var i, noted := FindPetition(g.petitions, k), NoteAssertion(g, from, k, false);
    EstablishChangesSgss(noted, from, i, 0);
  }

  lemma CancellationKeepsOwn(g: GatewayState, from: RamsNode, k: Key)
    requires NoRetraction(g, Receive(from, PETITION_CANCELLATION, k))
    ensures KeepsOwn(g, HandlePetitionCancellation(g, from, k, false).gw)
  {
    hide CancelPetition;
  }

  lemma SubscriptionKeepsOwn(g: GatewayState, m: ModuleId, k: Key)
    requires m != g.self
    ensures KeepsOwn(g, AddPetitioner(g, m, k).gw) && KeepsOwn(g, RemovePetitioner(g, m, k).gw)
  {
    hide AssertPetition, CancelPetition, ReadBack;
  }

  lemma ApplyKeepsOwn(g: GatewayState, e: Event)
    requires NoRetraction(g, e)
    ensures KeepsOwn(g, Apply(g, e).gw)
  {
    hide HandlePetitionAssertion, HandlePetitionCancellation, AddPetitioner, RemovePetitioner;
    if e.Receive? {
      AssertionKeepsOwn(NoteDeclaration(g, e.from), e.from, e.key);
      AssertionKeepsOwn(g, e.from, e.key);
      if e.cc == PETITION_CANCELLATION { CancellationKeepsOwn(g, e.from, e.key); }
    } else if e.m != g.self {
      SubscriptionKeepsOwn(g, e.m, e.key);
    }
  }

  lemma ApplyKeepsDeclares(g: GatewayState, e: Event)
    requires UniqueKeys(g) && Occurs(e.key) && Declares(g) && NoRetraction(g, e)
    ensures Later(g, Apply(g, e).gw, DeclarationKey(g.local)) && Declares(Apply(g, e).gw)
  {
    hide Apply, ReadBack, NotCancelled;
    var h, k := Apply(g, e).gw, DeclarationKey(g.local);
    ApplyKeepsOwn(g, e);
    ApplyKeepsUniqueKeys(g, e);
    ApplyKeepsKeys(g, e);
    assert Read(g.petitions[0].key);
    ReadBackIff(k);
    assert Representable(h.petitions[0].key);
    ApplyIsLater(g, e, k);
    forall r | r in h.sent ensures NotCancelled(r, k) {
      var p :| 0 <= p < |h.sent| && h.sent[p] == r;
      if p < |g.sent| { assert g.sent[p] == r; }
    }
  }
}
