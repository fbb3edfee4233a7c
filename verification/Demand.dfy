/** Which petitions a gateway asserts and which ones it cancels, told by who wants them: the local modules and, on a
    tree, the gateways that asked for them. On a mesh a gateway asks others on behalf of its own modules only. */
module Demand {
  import opened Envelope
  import opened Lists
  import opened Options
  import opened Petitions
  import opened PetitionLaws

  // ---------- assertions ----------

  /** A petition with key k has a local module that wants it or, on a tree, a gateway that asked for it. */
  ghost predicate InDemand(g: GatewayState, k: Key) {
    exists i :: 0 <= i < |g.petitions| && g.petitions[i].key == k
                && (g.petitions[i].dms != [] || (g.isTree && g.petitions[i].dgs != []))
  }

  /** From g to h no RPDU is unsent, and each petition asserted in between is in demand at the end. */
  ghost predicate AssertsWhatIsWanted(g: GatewayState, h: GatewayState) {
    && g.sent <= h.sent
    && (forall p :: |g.sent| <= p < |h.sent| && h.sent[p].PetitionRpdu? && h.sent[p].cc == PETITION_ASSERTION ==>
          InDemand(h, h.sent[p].key))
  }

  /** From g to h no RPDU is unsent, and nothing is asserted. */
  ghost predicate AssertsNothing(g: GatewayState, h: GatewayState) {
    && g.sent <= h.sent
    && (forall p :: |g.sent| <= p < |h.sent| ==> h.sent[p].PetitionRpdu? && h.sent[p].cc == PETITION_CANCELLATION)
  }

  lemma SameDemand(g: GatewayState, h: GatewayState, k: Key)
    requires OnlySgss(g, h) && InDemand(g, k)
    ensures InDemand(h, k)
  {
    var i :| 0 <= i < |g.petitions| && g.petitions[i].key == k
             && (g.petitions[i].dms != [] || (g.isTree && g.petitions[i].dgs != []));
    assert h.petitions[i].key == k;
  }

  lemma OneAfterTheOther(f: GatewayState, g: GatewayState, h: GatewayState)
    requires AssertsWhatIsWanted(f, g) && AssertsWhatIsWanted(g, h) && OnlySgss(g, h)
    ensures AssertsWhatIsWanted(f, h)
  {
    forall p | |f.sent| <= p < |h.sent| && h.sent[p].PetitionRpdu? && h.sent[p].cc == PETITION_ASSERTION
      ensures InDemand(h, h.sent[p].key)
    {
      if p < |g.sent| {
        assert h.sent[p] == g.sent[p];
        SameDemand(g, h, g.sent[p].key);
      }
    }
  }

  lemma NothingAfterTheOther(f: GatewayState, g: GatewayState, h: GatewayState)
    requires AssertsNothing(f, g) && AssertsNothing(g, h)
    ensures AssertsNothing(f, h)
  {
    forall p | |f.sent| <= p < |h.sent|
      ensures h.sent[p].PetitionRpdu? && h.sent[p].cc == PETITION_CANCELLATION
    {
      if p < |g.sent| { assert h.sent[p] == g.sent[p]; }
    }
  }

  lemma {:induction false} SentUnderOneKey(g: GatewayState, nodes: seq<RamsNode>, k: Key)
    ensures var h := SendAssertions(g, nodes, k).gw;
      g.sent <= h.sent && forall p :: |g.sent| <= p < |h.sent| ==> h.sent[p].PetitionRpdu? && h.sent[p].key == k
    decreases |nodes|
  {
    if nodes != [] {
      var s := Send(g, PetitionRpdu(nodes[0].continuumNbr, PETITION_ASSERTION, k));
      SentUnderOneKey(s.gw, nodes[1..], k);
    }
  }

  lemma AssertPetitionIsWanted(g: GatewayState, i: nat)
    requires i < |g.petitions|
    ensures var h := AssertPetition(g, i).gw; OnlySgss(g, h) && AssertsWhatIsWanted(g, h)
  {
    var p, h := g.petitions[i], AssertPetition(g, i).gw;
    SentUnderOneKey(g, AssertionSet(g, p), p.key);
    if h.sent != g.sent { assert h.petitions[i].key == p.key && InDemand(h, p.key); }
  }

  lemma {:induction false} EstablishIsWanted(g: GatewayState, from: RamsNode, skip: nat, j: nat)
    requires skip < |g.petitions| && j <= |g.petitions|
    ensures var h := Establish(g, from, skip, j).gw; OnlySgss(g, h) && AssertsWhatIsWanted(g, h)
    decreases |g.petitions| - j
  {
    EstablishChangesSgss(g, from, skip, j);
    if j < |g.petitions| {
      var s := EstablishOne(g, from, skip, j);
      assert AssertsWhatIsWanted(g, s.gw) by {
        if s.gw.sent != g.sent {
          assert s.gw.petitions[j].key == g.petitions[j].key && InDemand(s.gw, g.petitions[j].key);
        }
      }
      if s.ok {
        EstablishIsWanted(s.gw, from, skip, j + 1);
        OneAfterTheOther(g, s.gw, Establish(g, from, skip, j).gw);
      }
    }
  }

  lemma {:induction false} CancelToAllAssertsNothing(g: GatewayState, i: nat)
    requires i < |g.petitions|
    ensures AssertsNothing(g, CancelToAll(g, i).gw)
    decreases |g.petitions[i].sgs|
  {
    if g.petitions[i].sgs != [] {
      var s := CancelTo(g, i, g.petitions[i].sgs[0]);
      if s.ok {
        CancelToAllAssertsNothing(s.gw, i);
        NothingAfterTheOther(g, s.gw, CancelToAll(s.gw, i).gw);
      }
    }
  }

  lemma CancelPetitionAssertsNothing(g: GatewayState, i: nat)
    requires i < |g.petitions|
    ensures AssertsNothing(g, CancelPetition(g, i).gw)
  {
    CancelToAllAssertsNothing(g, i);
  }

  lemma {:induction false} RetractAssertsNothing(g: GatewayState, from: RamsNode, j: nat)
    requires j <= |g.petitions|
    ensures AssertsNothing(g, Retract(g, from, j).gw)
    decreases |g.petitions| - j
  {
    if j < |g.petitions| {
      var s := RetractOne(g, from, j);
      RetractOneAssertsNothing(g, from, j);
      if s.ok {
        hide RetractOne;
        RetractAssertsNothing(s.gw, from, j + 1);
        NothingAfterTheOther(g, s.gw, Retract(s.gw, from, j + 1).gw);
      }
    }
  }

  lemma RetractOneAssertsNothing(g: GatewayState, from: RamsNode, j: nat)
    requires j < |g.petitions|
    ensures AssertsNothing(g, RetractOne(g, from, j).gw)
  {
    hide CancelPetition, ReadBack;
    var p := g.petitions[j];
    var h := SetPetition(g, j, p.(sgs := RemoveFirst(p.sgs, from), dgs := RemoveFirst(p.dgs, from)));
    var s := if from in p.sgs || from in p.dgs
             then Send(h, PetitionRpdu(from.continuumNbr, PETITION_CANCELLATION, ReadBack(p.key))) else Step(h, true);
    CancelPetitionAssertsNothing(s.gw, j);
    NothingAfterTheOther(g, s.gw, CancelPetition(s.gw, j).gw);
  }

  lemma AssertionIsWanted(g: GatewayState, from: RamsNode, k: Key)
    ensures AssertsWhatIsWanted(g, HandlePetitionAssertion(g, from, k, false).gw)
  {
    hide AssertPetition, Establish;
    var i, noted := FindPetition(g.petitions, k), NoteAssertion(g, from, k, false);
    var s := if k.subjectNbr < 0 then Establish(noted, from, i, 0) else Step(noted, true);
    EstablishIsWanted(noted, from, i, 0);
    assert AssertsWhatIsWanted(g, s.gw);
    AssertPetitionIsWanted(s.gw, i);
    OneAfterTheOther(g, s.gw, AssertPetition(s.gw, i).gw);
  }

  lemma CancellationAssertsNothing(g: GatewayState, from: RamsNode, k: Key)
    ensures AssertsNothing(g, HandlePetitionCancellation(g, from, k, false).gw)
  {
    hide CancelPetition, Retract;
    var i := FindPetition(g.petitions, k);
    if i < |g.petitions| {
      var p := g.petitions[i].(dgs := RemoveFirst(g.petitions[i].dgs, from), fromPlayback := false);
      RetractAssertsNothing(SetPetition(g, i, p), from, 0);
      CancelPetitionAssertsNothing(SetPetition(g, i, p), i);
    }
  }

  /** Whatever a gateway does, each petition that it asserts has a local module that wants it or, on a tree, a gateway
      that asked for it; a cancellation or an unsubscription asserts nothing. */
  lemma OnlyWhatIsWantedIsAsserted(g: GatewayState, e: Event)
    ensures AssertsWhatIsWanted(g, Apply(g, e).gw)
    ensures e.Unsubscribe? || (e.Receive? && e.cc != PETITION_ASSERTION) ==> AssertsNothing(g, Apply(g, e).gw)
  {
    hide AssertPetition, CancelPetition, HandlePetitionAssertion, HandlePetitionCancellation;
    match e
    case Subscribe(m, k) =>
      var i := FindPetition(g.petitions, k);
      if i == |g.petitions| {
        AssertPetitionIsWanted(g.(petitions := g.petitions + [PetitionState(ReadBack(k), [m], [], [], false)]), i);
      } else {
        var p := g.petitions[i];
        AssertPetitionIsWanted(SetPetition(g, i, p.(dms := p.dms + [m], fromPlayback := false)), i);
      }
    case Unsubscribe(m, k) =>
      var i := FindPetition(g.petitions, k);
      if i < |g.petitions| {
        var p := g.petitions[i].(dms := RemoveFirst(g.petitions[i].dms, m));
        CancelPetitionAssertsNothing(SetPetition(g, i, p), i);
      }
    case Receive(from, cc, k) =>
      AssertionIsWanted(g, from, k);
      AssertionIsWanted(NoteDeclaration(g, from), from, k);
      CancellationAssertsNothing(g, from, k);
  }

  /** On every run on a mesh, each petition that an event makes the gateway assert has a local module that wants it. */
  lemma MeshAsksForLocalModulesOnly(local: int, self: ModuleId, neighbors: seq<RamsNode>, events: seq<Event>, e: Event)
    ensures var g := Run(Startup(local, self, false, neighbors), events).gw;
      var h := Apply(g, e).gw;
      && g.sent <= h.sent
      && forall p :: |g.sent| <= p < |h.sent| && h.sent[p].PetitionRpdu? && h.sent[p].cc == PETITION_ASSERTION ==>
           exists i :: 0 <= i < |h.petitions| && h.petitions[i].key == h.sent[p].key && h.petitions[i].dms != []
  {
    hide Apply;
    var start := Startup(local, self, false, neighbors);
    RunKeepsNetwork(start, events);
    var g := Run(start, events).gw;
    ApplyKeepsKeys(g, e);
    OnlyWhatIsWantedIsAsserted(g, e);
  }

  // ---------- cancellations ----------

  /** From g to h one cancellation of k to each of the nodes, in order, and nothing else is sent. */
  ghost predicate Cancelled(g: GatewayState, h: GatewayState, nodes: seq<RamsNode>, k: Key) {
    && g.sent <= h.sent && |h.sent| == |g.sent| + |nodes|
    && (forall j :: 0 <= j < |nodes| ==>
          h.sent[|g.sent| + j] == PetitionRpdu(nodes[j].continuumNbr, PETITION_CANCELLATION, k))
  }

  lemma CancelToSends(g: GatewayState, i: nat, node: RamsNode)
    requires i < |g.petitions|
    ensures var s, p := CancelTo(g, i, node), g.petitions[i];
      && (s.ok <==> Declared(g, node.continuumNbr))
      && s.gw.declared == g.declared
      && (s.ok ==> Cancelled(g, s.gw, [node], ReadBack(p.key))
                   && s.gw.petitions[i] == p.(sgs := RemoveFirst(p.sgs, node)))
  {
    hide ReadBack, Declared, RemoveFirst;
  }

  lemma CancelledTogether(f: GatewayState, g: GatewayState, h: GatewayState, a: seq<RamsNode>, b: seq<RamsNode>, k: Key)
    requires Cancelled(f, g, a, k) && Cancelled(g, h, b, k)
    ensures Cancelled(f, h, a + b, k)
  {
    forall j | 0 <= j < |a + b|
      ensures h.sent[|f.sent| + j] == PetitionRpdu((a + b)[j].continuumNbr, PETITION_CANCELLATION, k)
    {
      if j < |a| {
        assert h.sent[|f.sent| + j] == g.sent[|f.sent| + j];
      } else {
        assert h.sent[|g.sent| + (j - |a|)] == PetitionRpdu(b[j - |a|].continuumNbr, PETITION_CANCELLATION, k);
      }
    }
  }

  lemma {:induction false} CancelToAllSends(g: GatewayState, i: nat)
    requires i < |g.petitions|
    ensures var s, p := CancelToAll(g, i), g.petitions[i];
      && (s.ok <==> forall n :: n in p.sgs ==> Declared(g, n.continuumNbr))
      && (s.ok ==> Cancelled(g, s.gw, p.sgs, ReadBack(p.key)) && s.gw.petitions[i] == p.(sgs := []))
    decreases |g.petitions[i].sgs|
  {
    var p := g.petitions[i];
    if p.sgs == [] {
      assert CancelToAll(g, i) == Step(g, true);
    } else {
      var s := CancelTo(g, i, p.sgs[0]);
      CancelToSends(g, i, p.sgs[0]);
      assert CancelToAll(g, i) == if !s.ok then s else CancelToAll(s.gw, i);
      assert p.sgs == [p.sgs[0]] + p.sgs[1..] && RemoveFirst(p.sgs, p.sgs[0]) == p.sgs[1..];
      hide ReadBack, Declared, CancelTo, CancelToAll, RemoveFirst, Cancelled;
      if s.ok {
        CancelToAllSends(s.gw, i);
        SameDeclared(g, s.gw);
        if CancelToAll(s.gw, i).ok {
          CancelledTogether(g, s.gw, CancelToAll(s.gw, i).gw, [p.sgs[0]], p.sgs[1..], ReadBack(p.key));
        }
      }
    }
  }

  /** Petition i has just lost somebody who wanted it, and nobody the gateway works for wants it now: if no gateway has
      asked for it, all that have been sent it are told; if one has, and has been sent it, that one is told; if others
      have asked for it too, nobody is. */
  ghost predicate GivenUp(g: GatewayState, h: GatewayState, i: nat) {
    && i < |g.petitions| && i < |h.petitions|
    && var p := g.petitions[i];
       if p.dgs == [] then
         Cancelled(g, h, p.sgs, ReadBack(p.key)) && h.petitions[i] == p.(sgs := [])
       else if |p.dgs| == 1 && p.dgs[0] in p.sgs then
         && Cancelled(g, h, p.dgs, ReadBack(p.key))
         && h.petitions[i] == p.(sgs := h.petitions[i].sgs)
         && forall n :: n in h.petitions[i].sgs <==> n in p.sgs && n != p.dgs[0]
       else h.sent == g.sent && h.petitions[i] == p
  }

  lemma CancelPetitionGivesUp(g: GatewayState, i: nat)
    requires i < |g.petitions| && NoDup(g.petitions[i].sgs) && CancelPetition(g, i).ok
    ensures GivenUp(g, CancelPetition(g, i).gw, i)
  {
    hide ReadBack, CancelTo, CancelToAll, RemoveFirst, Cancelled;
    var p := g.petitions[i];
    CancelToAllSends(g, i);
    if |p.dgs| == 1 {
      CancelToSends(g, i, p.dgs[0]);
      RemoveFirstNoDup(p.sgs, p.dgs[0]);
      assert p.dgs == [p.dgs[0]];
    }
  }

  /** A local module unsubscribes and was the only one that wanted the petition, or no module did. On a mesh, and on a
      tree if no gateway has asked for the petition, it is given up; otherwise nothing happens. */
  lemma LastUnsubscriptionTells(g: GatewayState, m: ModuleId, k: Key, i: nat)
    requires Inv(g) && k.continuumNbr != g.local && m != g.self
    requires i < |g.petitions| && g.petitions[i].key == k && forall j :: 0 <= j < i ==> g.petitions[j].key != k
    requires g.petitions[i].dms == [m] && Apply(g, Unsubscribe(m, k)).ok
    ensures var h, p := Apply(g, Unsubscribe(m, k)).gw, g.petitions[i].(dms := []);
      && (forall j :: 0 <= j < |g.petitions| && j != i ==> h.petitions[j] == g.petitions[j])
      && if g.isTree && p.dgs != [] then h == g.(petitions := g.petitions[i := p])
         else GivenUp(g.(petitions := g.petitions[i := p]), h, i)
  {
    hide CancelPetition, ReadBack;
    var p := g.petitions[i].(dms := []);
    assert FindPetition(g.petitions, k) == i;
    assert RemoveFirst([m], m) == [];
    if !(g.isTree && p.dgs != []) { CancelPetitionGivesUp(SetPetition(g, i, p), i); }
  }

  /** As long as another module wants the petition, an unsubscription tells nobody. */
  lemma OtherSubscriberRemains(g: GatewayState, m: ModuleId, other: ModuleId, k: Key, i: nat)
    requires i < |g.petitions| && g.petitions[i].key == k && forall j :: 0 <= j < i ==> g.petitions[j].key != k
    requires other in g.petitions[i].dms && other != m
    ensures var h := Apply(g, Unsubscribe(m, k)).gw;
      h.sent == g.sent && |h.petitions| == |g.petitions| && other in h.petitions[i].dms
      && h.petitions[i] == g.petitions[i].(dms := h.petitions[i].dms)
  {
    hide CancelPetition, ReadBack;
    assert FindPetition(g.petitions, k) == i;
    assert other in RemoveFirst(g.petitions[i].dms, m);
  }

  lemma {:induction false} RemoveFirstTakesOne<T>(s: seq<T>, x: T)
    requires x in s
    ensures multiset(RemoveFirst(s, x)) == multiset(s) - multiset{x}
  {
    assert s == [s[0]] + s[1..];
    if s[0] != x { RemoveFirstTakesOne(s[1..], x); }
  }

  /** A neighbour cancels a petition that it had asked for, not one on its own pseudo-subject. It is listed once less.
      If no local module wants the petition and, on a tree, no other gateway does, it is given up; otherwise nobody is
      told. */
  lemma CancellationTells(g: GatewayState, from: RamsNode, k: Key, i: nat)
    requires Inv(g) && k.subjectNbr != 0 - from.continuumNbr
    requires i < |g.petitions| && g.petitions[i].key == k && forall j :: 0 <= j < i ==> g.petitions[j].key != k
    requires from in g.petitions[i].dgs && Apply(g, Receive(from, PETITION_CANCELLATION, k)).ok
    ensures var h := Apply(g, Receive(from, PETITION_CANCELLATION, k)).gw;
      && |h.petitions| == |g.petitions|
      && (forall j :: 0 <= j < |g.petitions| && j != i ==> h.petitions[j] == g.petitions[j])
      && h.log == g.log + [LogLine(from.protocol, from.gwEid, PETITION_CANCELLATION, k)]
      && multiset(h.petitions[i].dgs) == multiset(g.petitions[i].dgs) - multiset{from}
      && var p := g.petitions[i].(dgs := h.petitions[i].dgs);
         if p.dms != [] || (g.isTree && p.dgs != []) then h == g.(petitions := g.petitions[i := p], log := h.log)
         else GivenUp(g.(petitions := g.petitions[i := p]), h, i)
  {
    hide CancelPetition, Retract, ReadBack, RemoveFirst;
    var p := g.petitions[i].(dgs := RemoveFirst(g.petitions[i].dgs, from), fromPlayback := false);
    assert FindPetition(g.petitions, k) == i && p == g.petitions[i].(dgs := p.dgs);
    RemoveFirstTakesOne(g.petitions[i].dgs, from);
    if p.dms == [] && !(g.isTree && p.dgs != []) { CancelPetitionGivesUp(SetPetition(g, i, p), i); }
  }

  // ---------- retractions ----------

  /** What a neighbour's retraction does to petition j, from g to h: the neighbour leaves DGS and SGS, is sent our own
      cancellation if it was in either, and the petition is given up if no local module wants it and, on a tree, no
      other gateway does. */
  ghost predicate Withdrawn(g: GatewayState, h: GatewayState, from: RamsNode, j: nat) {
    && j < |g.petitions| && |h.petitions| == |g.petitions|
    && h == g.(petitions := h.petitions, sent := h.sent)
    && (forall m :: 0 <= m < |g.petitions| && m != j ==> h.petitions[m] == g.petitions[m])
    && var p := g.petitions[j];
       var q := p.(dgs := h.petitions[j].dgs, sgs := RemoveFirst(p.sgs, from));
       var answer := if from in p.sgs || from in p.dgs
                     then [PetitionRpdu(from.continuumNbr, PETITION_CANCELLATION, ReadBack(p.key))] else [];
       var answered := g.(petitions := g.petitions[j := q], sent := g.sent + answer);
       && multiset(q.dgs) == multiset(p.dgs) - multiset{from}
       && from !in q.sgs && (forall n :: n in p.sgs && n != from ==> n in q.sgs)
       && if p.dms != [] || (g.isTree && q.dgs != []) then h == answered else GivenUp(answered, h, j)
  }

  /** Petition j with the neighbour out of DGS and SGS, and the answer to it sent. */
  function Answered(g: GatewayState, from: RamsNode, j: nat): GatewayState
    requires j < |g.petitions|
  {
    var p := g.petitions[j];
    var answer := if from in p.sgs || from in p.dgs
                  then [PetitionRpdu(from.continuumNbr, PETITION_CANCELLATION, ReadBack(p.key))] else [];
    g.(petitions := g.petitions[j := p.(sgs := RemoveFirst(p.sgs, from), dgs := RemoveFirst(p.dgs, from))],
       sent := g.sent + answer)
  }

  lemma RetractOneAnswers(g: GatewayState, from: RamsNode, j: nat)
    requires j < |g.petitions| && RetractOne(g, from, j).ok
    ensures var h := Answered(g, from, j);
      RetractOne(g, from, j)
      == if h.petitions[j].dms != [] || (g.isTree && h.petitions[j].dgs != []) then Step(h, true)
         else CancelPetition(h, j)
  {
    hide CancelPetition, ReadBack, RemoveFirst, Declared;
    assert g.sent + [] == g.sent;
  }

  lemma CancelOnlySgs(g: GatewayState, j: nat)
    requires j < |g.petitions|
    ensures OnlySgs(g, CancelPetition(g, j).gw, j)
  {
  }

  lemma RetractOneWithdraws(g: GatewayState, from: RamsNode, j: nat)
    requires j < |g.petitions| && NoDup(g.petitions[j].sgs) && RetractOne(g, from, j).ok
    ensures Withdrawn(g, RetractOne(g, from, j).gw, from, j)
  {
    hide RetractOne, CancelPetition, ReadBack, GivenUp, RemoveFirst;
    var p, h := g.petitions[j], Answered(g, from, j);
    RetractOneAnswers(g, from, j);
    RemoveFirstNoDup(p.sgs, from);
    if from in p.dgs { RemoveFirstTakesOne(p.dgs, from); }
    if p.dms == [] && !(g.isTree && h.petitions[j].dgs != []) {
      CancelPetitionGivesUp(h, j);
      CancelOnlySgs(h, j);
    }
  }

  /** The neighbour is withdrawn from petition after petition, from number j on. */
  ghost predicate WithdrawnInTurn(states: seq<GatewayState>, from: RamsNode, j: nat) {
    forall t :: 0 <= t < |states| - 1 ==> Withdrawn(states[t], states[t + 1], from, j + t)
  }

  lemma {:induction false} RetractGoesThrough(g: GatewayState, from: RamsNode, j: nat)
    returns (states: seq<GatewayState>)
    requires j <= |g.petitions| && (forall m :: j <= m < |g.petitions| ==> NoDup(g.petitions[m].sgs))
    requires Retract(g, from, j).ok
    ensures |states| == |g.petitions| - j + 1 && states[0] == g && WithdrawnInTurn(states, from, j)
    ensures var last := states[|states| - 1];
      Retract(g, from, j).gw == last.(declared := RemoveFirst(last.declared, from))
    decreases |g.petitions| - j
  {
    hide RetractOne, Withdrawn, RemoveFirst;
    if j == |g.petitions| {
      states := [g];
    } else {
      var s := RetractOne(g, from, j);
      RetractOneWithdraws(g, from, j);
      OthersAlone(g, s.gw, from, j);
      var rest := RetractGoesThrough(s.gw, from, j + 1);
      states := [g] + rest;
      forall t | 0 <= t < |states| - 1 ensures Withdrawn(states[t], states[t + 1], from, j + t) {
        if t > 0 { assert Withdrawn(rest[t - 1], rest[t], from, j + 1 + (t - 1)); }
      }
    }
  }

  lemma OthersAlone(g: GatewayState, h: GatewayState, from: RamsNode, j: nat)
    requires Withdrawn(g, h, from, j)
    ensures |h.petitions| == |g.petitions|
    ensures forall m :: 0 <= m < |g.petitions| && m != j ==> h.petitions[m] == g.petitions[m]
  {
  }

  lemma {:induction false} DeclaredAlone(states: seq<GatewayState>, from: RamsNode, j: nat)
    requires states != [] && WithdrawnInTurn(states, from, j)
    ensures var last := states[|states| - 1]; last.declared == states[0].declared && last.log == states[0].log
  {
    if |states| > 1 {
      var front := states[..|states| - 1];
      DeclaredAlone(front, from, j);
      assert Withdrawn(states[|states| - 2], states[|states| - 1], from, j + (|states| - 2));
    }
  }

  /** A neighbour cancels a petition that it had asked for on its own pseudo-subject, and so retracts: it is taken off
      that petition's DGS, then withdrawn from all petitions in turn, and is no longer declared. */
  lemma RetractionTells(g: GatewayState, from: RamsNode, k: Key, i: nat) returns (states: seq<GatewayState>)
    requires Inv(g) && k.subjectNbr == 0 - from.continuumNbr
    requires i < |g.petitions| && g.petitions[i].key == k && forall j :: 0 <= j < i ==> g.petitions[j].key != k
    requires from in g.petitions[i].dgs && Apply(g, Receive(from, PETITION_CANCELLATION, k)).ok
    ensures var h := Apply(g, Receive(from, PETITION_CANCELLATION, k)).gw;
      && |states| == |g.petitions| + 1 && WithdrawnInTurn(states, from, 0)
      && (var p := states[0].petitions;
          && |p| == |g.petitions| && multiset(p[i].dgs) == multiset(g.petitions[i].dgs) - multiset{from}
          && states[0] == g.(petitions := g.petitions[i := g.petitions[i].(dgs := p[i].dgs)]))
      && (var last := states[|g.petitions|];
          && h == last.(declared := h.declared, log := h.log) && last.declared == g.declared
          && from !in h.declared && (forall n :: n in g.declared && n != from ==> n in h.declared)
          && h.log == g.log + [LogLine(from.protocol, from.gwEid, PETITION_CANCELLATION, k)])
  {
    hide CancelPetition, Retract, ReadBack, RemoveFirst;
    var p := g.petitions[i].(dgs := RemoveFirst(g.petitions[i].dgs, from), fromPlayback := false);
    assert FindPetition(g.petitions, k) == i && p == g.petitions[i].(dgs := p.dgs);
    RemoveFirstTakesOne(g.petitions[i].dgs, from);
    RemoveFirstNoDup(g.declared, from);
    states := RetractGoesThrough(SetPetition(g, i, p), from, 0);
    DeclaredAlone(states, from, 0);
  }

  // ---------- what subscriptions and neighbours' assertions lead to ----------

  /** From g to h one assertion of k to each of the nodes, in order, and nothing else is sent. */
  ghost predicate Asserted(g: GatewayState, h: GatewayState, nodes: seq<RamsNode>, k: Key) {
    && g.sent <= h.sent && |h.sent| == |g.sent| + |nodes|
    && (forall j :: 0 <= j < |nodes| ==>
          h.sent[|g.sent| + j] == PetitionRpdu(nodes[j].continuumNbr, PETITION_ASSERTION, k))
  }

  lemma {:induction false} AssertionsAre(nodes: seq<RamsNode>, k: Key)
    ensures |Assertions(nodes, k)| == |nodes|
    ensures forall j :: 0 <= j < |nodes| ==>
      Assertions(nodes, k)[j] == PetitionRpdu(nodes[j].continuumNbr, PETITION_ASSERTION, k)
  {
    if nodes != [] { AssertionsAre(nodes[..|nodes| - 1], k); }
  }

  /** Petition i, for all continua, has just gained somebody who wants it: each declared neighbour that has not been
      sent it is sent it once, but for the only gateway that asked for it when no local module wants it. */
  ghost predicate AskedFor(g: GatewayState, h: GatewayState, i: nat) {
    && i < |g.petitions| && i < |h.petitions|
    && var p := g.petitions[i];
       && h.petitions[i] == p.(sgs := h.petitions[i].sgs) && p.sgs <= h.petitions[i].sgs
       && var nodes := h.petitions[i].sgs[|p.sgs|..];
          && NoDup(nodes)
          && (forall n :: n in nodes <==>
                n in g.declared && n !in p.sgs && !(p.dms == [] && |p.dgs| == 1 && p.dgs[0] == n))
          && Asserted(g, h, nodes, p.key)
  }

  lemma WhoIsAsked(g: GatewayState, p: PetitionState)
    requires p.key.continuumNbr == 0
    ensures forall n :: n in AssertionSet(g, p) <==>
      n in g.declared && n !in p.sgs && !(p.dms == [] && |p.dgs| == 1 && p.dgs[0] == n)
  {
  }

  lemma AssertPetitionIsAsked(g: GatewayState, i: nat)
    requires LogInv(g) && NodesKnown(g) && i < |g.petitions|
    requires g.petitions[i].dms != [] || (g.isTree && g.petitions[i].dgs != [])
    requires AssertPetition(g, i).ok
    ensures AssertPetition(g, i).gw == Asked(g, i, AssertionSet(g, g.petitions[i]))
  {
    var p := g.petitions[i];
    var nodes := AssertionSet(g, p);
    AssertionSetIsNew(g, i);
    hide AssertionSet, LogInv, NodesKnown, Declared;
    SendAssertionsResult(g, nodes, p.key);
    UnionOfNew(p.sgs, nodes);
  }

  lemma AssertPetitionAsks(g: GatewayState, i: nat)
    requires LogInv(g) && NodesKnown(g) && i < |g.petitions| && g.petitions[i].key.continuumNbr == 0
    requires g.petitions[i].dms != [] || (g.isTree && g.petitions[i].dgs != [])
    requires AssertPetition(g, i).ok
    ensures AskedFor(g, AssertPetition(g, i).gw, i)
  {
    hide LogInv, NodesKnown, AssertionSet, AssertPetition, Assertions;
    var p := g.petitions[i];
    var nodes := AssertionSet(g, p);
    AssertPetitionIsAsked(g, i);
    AssertionSetIsNew(g, i);
    AssertionsAre(nodes, p.key);
    WhoIsAsked(g, p);
    assert (p.sgs + nodes)[|p.sgs|..] == nodes;
  }

  /** A local module subscribes for all continua to what nobody in this gateway's care has asked for yet. */
  lemma FirstSubscriptionAsks(g: GatewayState, m: ModuleId, k: Key)
    requires Inv(g) && Noticed(k) && k.continuumNbr == 0 && g.local != 0 && m != g.self
    requires (forall p :: p in g.petitions ==> p.key != k) && Apply(g, Subscribe(m, k)).ok
    ensures var h := Apply(g, Subscribe(m, k)).gw;
      && |h.petitions| == |g.petitions| + 1 && h.petitions[..|g.petitions|] == g.petitions
      && AskedFor(g.(petitions := g.petitions + [PetitionState(ReadBack(k), [m], [], [], false)]), h, |g.petitions|)
  {
    var p := PetitionState(ReadBack(k), [m], [], [], false);
    NobodyHasKey(g.petitions, k);
    CreatedPetitionKeepsLogInv(g, k, p);
    ReadBackKeepsApart(k);
    hide AssertPetition, ReadBack, LogInv, AskedFor;
    AssertPetitionAsks(g.(petitions := g.petitions + [p]), |g.petitions|);
  }

  /** A further module subscribes to a petition for all continua; one that has subscribed before changes nothing. */
  lemma FurtherSubscriptionAsks(g: GatewayState, m: ModuleId, k: Key, i: nat)
    requires Inv(g) && k.continuumNbr == 0 && g.local != 0 && m != g.self
    requires i < |g.petitions| && g.petitions[i].key == k && forall j :: 0 <= j < i ==> g.petitions[j].key != k
    requires Apply(g, Subscribe(m, k)).ok
    ensures var h, p := Apply(g, Subscribe(m, k)).gw, g.petitions[i];
      if m in p.dms then h == g
      else
        && |h.petitions| == |g.petitions|
        && (forall j :: 0 <= j < |g.petitions| && j != i ==> h.petitions[j] == g.petitions[j])
        && AskedFor(g.(petitions := g.petitions[i := p.(dms := p.dms + [m])]), h, i)
  {
    hide AssertPetition, LogInv, AskedFor;
    var p := g.petitions[i].(dms := g.petitions[i].dms + [m], fromPlayback := false);
    assert FindPetition(g.petitions, k) == i;
    if m !in g.petitions[i].dms {
      EditPetitionKeeps(g, i, p);
      AssertPetitionAsks(SetPetition(g, i, p), i);
    }
  }

  lemma LogIsNotAsked(g: GatewayState, h: GatewayState, i: nat, log: seq<LogLine>)
    requires AskedFor(g, h, i)
    ensures AskedFor(g, h.(log := log), i)
  {
  }

  lemma NotAsserted(g: GatewayState, i: nat)
    requires i < |g.petitions| && g.petitions[i].dms == [] && !g.isTree
    ensures AssertPetition(g, i) == Step(g, true)
  {
  }

  lemma DeclaredFrom(g: GatewayState, from: RamsNode)
    requires LogInv(g) && from in g.neighbors && from in g.declared
    ensures Declared(g, from.continuumNbr) && from.continuumNbr > 0
  {
    var j :| 0 <= j < |g.declared| && g.declared[j] == from;
  }

  /** The same when nobody has asked for it before: the petition is new, with the key that its envelope reads back
      as. */
  lemma FirstAssertionAsks(g: GatewayState, from: RamsNode, k: Key)
    requires Inv(g) && Occurs(k) && k.continuumNbr == 0 && k.subjectNbr >= 0 && from in g.declared
    requires (forall p :: p in g.petitions ==> p.key != k) && Apply(g, Receive(from, PETITION_ASSERTION, k)).ok
    ensures var h := Apply(g, Receive(from, PETITION_ASSERTION, k)).gw;
      var p := PetitionState(ReadBack(k), [], [from], [], false);
      && |h.petitions| == |g.petitions| + 1 && h.petitions[..|g.petitions|] == g.petitions
      && h.log == g.log + [LogLine(from.protocol, from.gwEid, PETITION_ASSERTION, k)]
      && if g.isTree then AskedFor(g.(petitions := g.petitions + [p]), h, |g.petitions|)
         else h == g.(petitions := g.petitions + [p], log := h.log)
  {
    var p := PetitionState(ReadBack(k), [], [from], [], false);
    var h, i := g.(petitions := g.petitions + [p]), |g.petitions|;
    NobodyHasKey(g.petitions, k);
    CreatedPetitionKeepsLogInv(g, k, p);
    ReadBackKeepsApart(k);
    DeclaredFrom(g, from);
    hide AssertPetition, ReadBack, LogInv, AskedFor;
    if g.isTree {
      AssertPetitionAsks(h, i);
      LogIsNotAsked(h, AssertPetition(h, i).gw, i,
                    g.log + [LogLine(from.protocol, from.gwEid, PETITION_ASSERTION, k)]);
    } else {
      NotAsserted(h, i);
    }
  }

  /** A declared neighbour asserts a petition for all continua that is on no pseudo-subject. It is listed, even if it
      was already; and if a local module wants the petition or the network is a tree, the others are asked. */
  lemma AssertionAsks(g: GatewayState, from: RamsNode, k: Key, i: nat)
    requires Inv(g) && Occurs(k) && k.continuumNbr == 0 && k.subjectNbr >= 0 && from in g.declared
    requires i < |g.petitions| && g.petitions[i].key == k && forall j :: 0 <= j < i ==> g.petitions[j].key != k
    requires Apply(g, Receive(from, PETITION_ASSERTION, k)).ok
    ensures var h := Apply(g, Receive(from, PETITION_ASSERTION, k)).gw;
      var p := g.petitions[i].(dgs := g.petitions[i].dgs + [from]);
      && |h.petitions| == |g.petitions|
      && (forall j :: 0 <= j < |g.petitions| && j != i ==> h.petitions[j] == g.petitions[j])
      && h.log == g.log + [LogLine(from.protocol, from.gwEid, PETITION_ASSERTION, k)]
      && if p.dms != [] || g.isTree then AskedFor(g.(petitions := g.petitions[i := p]), h, i)
         else h == g.(petitions := g.petitions[i := p], log := h.log)
  {
    hide AssertPetition, LogInv, AskedFor;
    var p := g.petitions[i].(dgs := g.petitions[i].dgs + [from], fromPlayback := false);
    assert FindPetition(g.petitions, k) == i && from in g.neighbors;
    EditPetitionKeeps(g, i, p);
    DeclaredFrom(g, from);
    if p.dms != [] || g.isTree {
      AssertPetitionAsks(SetPetition(g, i, p), i);
      LogIsNotAsked(SetPetition(g, i, p), AssertPetition(SetPetition(g, i, p), i).gw, i,
                    g.log + [LogLine(from.protocol, from.gwEid, PETITION_ASSERTION, k)]);
    } else {
      NotAsserted(SetPetition(g, i, p), i);
    }
  }

  /** The first gateway that asked for what is on the pseudo-subject of continuum c. */
  ghost predicate IsConduit(g: GatewayState, c: int, n: RamsNode) {
    exists j :: 0 <= j < |g.petitions| && g.petitions[j].key.subjectNbr == 0 - c && g.petitions[j].dgs != []
      && g.petitions[j].dgs[0] == n
      && forall m :: 0 <= m < j ==> g.petitions[m].key.subjectNbr != 0 - c || g.petitions[m].dgs == []
  }

  lemma {:induction false} ConduitIsFirst(petitions: seq<PetitionState>, c: int, j: nat)
    requires j <= |petitions|
    requires forall m :: 0 <= m < j ==> petitions[m].key.subjectNbr != 0 - c || petitions[m].dgs == []
    ensures j == |petitions| ==> Conduit(petitions, c) == None
    ensures j < |petitions| && petitions[j].key.subjectNbr == 0 - c && petitions[j].dgs != [] ==>
      Conduit(petitions, c) == Some(petitions[j].dgs[0])
  {
    if j > 0 { ConduitIsFirst(petitions[1..], c, j - 1); }
  }

  lemma ConduitIs(g: GatewayState, c: int)
    ensures forall n :: Conduit(g.petitions, c) == Some(n) <==> IsConduit(g, c, n)
  {
    if j :| 0 <= j < |g.petitions| && g.petitions[j].key.subjectNbr == 0 - c && g.petitions[j].dgs != [] {
      var first := FirstConduit(g, c, j);
      ConduitIsFirst(g.petitions, c, first);
    } else {
      ConduitIsFirst(g.petitions, c, |g.petitions|);
    }
  }

  lemma {:induction false} FirstConduit(g: GatewayState, c: int, j: nat) returns (first: nat)
    requires j < |g.petitions| && g.petitions[j].key.subjectNbr == 0 - c && g.petitions[j].dgs != []
    ensures first <= j && g.petitions[first].key.subjectNbr == 0 - c && g.petitions[first].dgs != []
    ensures forall m :: 0 <= m < first ==> g.petitions[m].key.subjectNbr != 0 - c || g.petitions[m].dgs == []
  {
    first := 0;
    while g.petitions[first].key.subjectNbr != 0 - c || g.petitions[first].dgs == []
      invariant first <= j
      invariant forall m :: 0 <= m < first ==> g.petitions[m].key.subjectNbr != 0 - c || g.petitions[m].dgs == []
      decreases j - first
    {
      first := first + 1;
    }
  }

  lemma OneToAsk(g: GatewayState, p: PetitionState)
    requires p.dms != [] && p.key.continuumNbr != 0
    ensures var conduit := Conduit(g.petitions, p.key.continuumNbr);
      AssertionSet(g, p) == if conduit == None || conduit.value in p.sgs then [] else [conduit.value]
  {
    hide Conduit;
    var conduit := Conduit(g.petitions, p.key.continuumNbr);
    if conduit.Some? {
      assert [conduit.value][..0] == [];
      assert Subtract([conduit.value], p.sgs) == if conduit.value in p.sgs then [] else [conduit.value];
    }
  }

  lemma AskConduit(g: GatewayState, i: nat)
    requires i < |g.petitions| && g.petitions[i].dms != [] && g.petitions[i].key.continuumNbr != 0
    ensures var p, conduit := g.petitions[i], Conduit(g.petitions, g.petitions[i].key.continuumNbr);
      AssertPetition(g, i)
      == if conduit == None || conduit.value in p.sgs then Step(g, true)
         else if !Declared(g, conduit.value.continuumNbr) then Step(g, false)
         else Step(Asked(g, i, [conduit.value]), true)
  {
    var p, conduit := g.petitions[i], Conduit(g.petitions, g.petitions[i].key.continuumNbr);
    OneToAsk(g, p);
    hide Conduit, Declared, AssertionSet;
    if conduit == None || conduit.value in p.sgs {
      assert g.petitions[i := p] == g.petitions;
      assert SendAssertions(g, [], p.key) == Step(g, true) && Union(p.sgs, []) == p.sgs;
    } else {
      var n := conduit.value;
      SendAssertionsResult(g, [n], p.key);
      if Declared(g, n.continuumNbr) { UnionOfNew(p.sgs, [n]); } else { SendToOne(g, n, p.key); }
      hide SendAssertions, Union;
    }
  }

  lemma SendToOne(g: GatewayState, n: RamsNode, k: Key)
    requires !Declared(g, n.continuumNbr)
    ensures SendAssertions(g, [n], k) == Step(g, false)
  {
  }

  lemma SameConduit(a: seq<PetitionState>, b: seq<PetitionState>, c: int)
    requires |a| == |b| && forall i :: 0 <= i < |a| ==> b[i].key == a[i].key && b[i].dgs == a[i].dgs
    ensures Conduit(a, c) == Conduit(b, c)
  {
    if a != [] { SameConduit(a[1..], b[1..], c); }
  }

  lemma AskedOne(g: GatewayState, i: nat, p: PetitionState, n: RamsNode)
    requires i < |g.petitions|
    ensures Asked(SetPetition(g, i, p), i, [n])
         == g.(petitions := g.petitions[i := p.(sgs := p.sgs + [n])],
               sent := g.sent + [PetitionRpdu(n.continuumNbr, PETITION_ASSERTION, p.key)])
  {
    AssertionsAre([n], p.key);
    assert Assertions([n], p.key) == [PetitionRpdu(n.continuumNbr, PETITION_ASSERTION, p.key)];
    assert g.petitions[i := p][i := p.(sgs := p.sgs + [n])] == g.petitions[i := p.(sgs := p.sgs + [n])];
  }

  /** A further module subscribes to a petition limited to another continuum: only the conduit there is asked, if it has
      not been. If it has retracted in the meantime nobody is asked, and the operation fails. */
  lemma LimitedSubscriptionAsks(g: GatewayState, m: ModuleId, k: Key, i: nat)
    requires k.continuumNbr != 0 && k.continuumNbr != g.local && m != g.self
    requires i < |g.petitions| && g.petitions[i].key == k && forall j :: 0 <= j < i ==> g.petitions[j].key != k
    requires m !in g.petitions[i].dms
    ensures var s := Apply(g, Subscribe(m, k));
      var p := g.petitions[i].(dms := g.petitions[i].dms + [m], fromPlayback := false);
      var joined := g.(petitions := g.petitions[i := p]);
      && (forall n :: IsConduit(g, k.continuumNbr, n) && n !in p.sgs ==>
            if exists d :: d in g.declared && d.continuumNbr == n.continuumNbr then
              s == Step(joined.(petitions := g.petitions[i := p.(sgs := p.sgs + [n])],
                                sent := g.sent + [PetitionRpdu(n.continuumNbr, PETITION_ASSERTION, k)]), true)
            else s == Step(joined, false))
      && ((forall n :: IsConduit(g, k.continuumNbr, n) ==> n in p.sgs) ==> s == Step(joined, true))
  {
    var p := g.petitions[i].(dms := g.petitions[i].dms + [m], fromPlayback := false);
    var h := SetPetition(g, i, p);
    assert FindPetition(g.petitions, k) == i;
    ConduitIs(g, k.continuumNbr);
    SameConduit(g.petitions, h.petitions, k.continuumNbr);
    hide Conduit, IsConduit, FindPetition, AssertPetition, Asked;
    AskConduit(h, i);
    var conduit := Conduit(h.petitions, k.continuumNbr);
    if conduit.Some? { AskedOne(g, i, p, conduit.value); }
    assert Apply(g, Subscribe(m, k)) == AssertPetition(h, i);
  }

  /** A neighbour repeats an assertion that the gateway knows of from its log: it is not listed again, nobody is asked,
      and from then on the petition counts as heard of. */
  lemma PlayedBackAssertionIsConfirmed(g: GatewayState, from: RamsNode, k: Key, i: nat)
    requires i < |g.petitions| && g.petitions[i].key == k && forall j :: 0 <= j < i ==> g.petitions[j].key != k
    requires from in g.petitions[i].dgs && g.petitions[i].fromPlayback
    requires exists n :: n in g.declared && n.continuumNbr == from.continuumNbr
    ensures Apply(g, Receive(from, PETITION_ASSERTION, k))
         == Step(g.(petitions := g.petitions[i := g.petitions[i].(fromPlayback := false)],
                    log := g.log + [LogLine(from.protocol, from.gwEid, PETITION_ASSERTION, k)]), true)
  {
    hide NoteAssertion, Establish, AssertPetition;
    assert FindPetition(g.petitions, k) == i;
    assert Declared(g, from.continuumNbr);
  }

  /** What is none of its business a gateway leaves alone: subscriptions to its own continuum and its own, assertions
      from gateways that have not declared themselves, unless they do so now, cancellations from gateways that are not
      listed, and RPDUs of other kinds. */
  lemma NoneOfItsBusiness(g: GatewayState, e: Event)
    ensures (e.Subscribe? || e.Unsubscribe?) && (e.key.continuumNbr == g.local || e.m == g.self) ==>
      Apply(g, e) == Step(g, true)
    ensures e.Receive? && e.cc == PETITION_ASSERTION && e.key.subjectNbr != 0 - e.from.continuumNbr
            && (forall n :: n in g.declared ==> n.continuumNbr != e.from.continuumNbr) ==>
      Apply(g, e) == Step(g, true)
    ensures e.Receive? && e.cc == PETITION_CANCELLATION
            && (forall p :: p in g.petitions && p.key == e.key ==> e.from !in p.dgs) ==>
      Apply(g, e) == Step(g.(log := g.log + [LogLine(e.from.protocol, e.from.gwEid, e.cc, e.key)]), true)
    ensures e.Receive? && e.cc != PETITION_ASSERTION && e.cc != PETITION_CANCELLATION ==> Apply(g, e) == Step(g, true)
  {
    hide HandlePetitionAssertion, AddPetitioner, RemovePetitioner;
  }
}
