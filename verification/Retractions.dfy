/** Subscriptions to pseudo-subjects. A module may subscribe to the pseudo-subject of any continuum; if it does so under
    that of its own continuum, its unsubscription is taken by the neighbours for the retraction of its gateway. */
module Retractions {
  import opened Envelope
  import opened Lingering
  import opened Lists
  import opened Petitions
  import opened PetitionLaws
  import opened Playback
  import opened Routing
  import opened Trees

  // ---------- which unsubscriptions send a retraction ----------

  /** Among what h has sent since g is a cancellation on the gateway's own pseudo-subject. */
  ghost predicate SendsRetraction(g: GatewayState, h: GatewayState) {
    && g.sent <= h.sent
    && exists p :: |g.sent| <= p < |h.sent| && h.sent[p].PetitionRpdu? && h.sent[p].cc == PETITION_CANCELLATION
                   && h.sent[p].key.subjectNbr == 0 - g.local
  }

  /** Everything h has sent since g is a cancellation of key. */
  ghost predicate OnlyCancels(g: GatewayState, h: GatewayState, key: Key) {
    && g.sent <= h.sent && h.local == g.local
    && forall p :: |g.sent| <= p < |h.sent| ==>
         h.sent[p].PetitionRpdu? && h.sent[p].cc == PETITION_CANCELLATION && h.sent[p].key == key
  }

  lemma {:induction false} CancelToAllSends(g: GatewayState, i: nat)
    requires i < |g.petitions|
    ensures OnlyCancels(g, CancelToAll(g, i).gw, ReadBack(g.petitions[i].key))
    ensures CancelToAll(g, i).ok && g.petitions[i].sgs != [] ==> |CancelToAll(g, i).gw.sent| > |g.sent|
    ensures g.petitions[i].sgs == [] ==> CancelToAll(g, i).gw == g
    decreases |g.petitions[i].sgs|
  {
    hide ReadBack;
    if g.petitions[i].sgs != [] {
      var s := CancelTo(g, i, g.petitions[i].sgs[0]);
      if s.ok {
        CancelToAllSends(s.gw, i);
        var h := CancelToAll(s.gw, i).gw;
        forall p | |g.sent| <= p < |h.sent|
          ensures h.sent[p].PetitionRpdu? && h.sent[p].cc == PETITION_CANCELLATION
          ensures h.sent[p].key == ReadBack(g.petitions[i].key)
        {
          if p < |s.gw.sent| { assert h.sent[p] == s.gw.sent[p]; }
        }
      }
    }
  }

  /** On a tree, a module's unsubscription makes its gateway send what its neighbours take for its retraction iff it is
      on the own pseudo-subject, nobody else wants that petition, and some neighbour holds it. */
  lemma UnsubscriptionRetractsIff(gw: GatewayState, m: ModuleId, k: Key)
    requires Inv(gw) && gw.isTree && Noticed(k) && Apply(gw, Unsubscribe(m, k)).ok
    ensures var i := FindPetition(gw.petitions, k);
      SendsRetraction(gw, Apply(gw, Unsubscribe(m, k)).gw) <==>
        && k.continuumNbr != gw.local && m != gw.self && k.subjectNbr == 0 - gw.local
        && i < |gw.petitions| && RemoveFirst(gw.petitions[i].dms, m) == []
        && gw.petitions[i].dgs == [] && gw.petitions[i].sgs != []
  {
    hide Inv, ReadBack, CancelToAll, Noticed;
    var i, h := FindPetition(gw.petitions, k), Apply(gw, Unsubscribe(m, k)).gw;
    if k.continuumNbr != gw.local && m != gw.self && i < |gw.petitions| {
      var q := gw.petitions[i].(dms := RemoveFirst(gw.petitions[i].dms, m));
      ReadBackKeepsApart(k);
      CancelToAllSends(SetPetition(gw, i, q), i);
      if q.dms == [] && q.dgs == [] {
        assert h == CancelToAll(SetPetition(gw, i, q), i).gw && ReadBack(k).subjectNbr == k.subjectNbr;
        if gw.petitions[i].sgs != [] && k.subjectNbr == 0 - gw.local {
          assert h.sent[|gw.sent|].PetitionRpdu? && h.sent[|gw.sent|].key.subjectNbr == 0 - gw.local;
        }
      } else {
        assert h.sent == gw.sent;
      }
    }
  }

  // ---------- a run ----------

  function Cancelling(x: Side, k: Key): Rpdu { PetitionRpdu(x.peer.continuumNbr, PETITION_CANCELLATION, k) }

  /** The gateway after its module's subscription and unsubscription. */
  function Unsubscribed(x: Side, k: Key): GatewayState {
    var g := Acquainted(x);
    g.(petitions := g.petitions + [PetitionState(k, [], [], [], false)], sent := g.sent
        + [Asking(x, k), Cancelling(x, k)])
  }

  /** The gateway after its peer's assertion. */
  function Informed(y: Side, k: Key): GatewayState {
    var g := Acquainted(y);
    g.(petitions := g.petitions + [PetitionState(k, [], [y.peer], [], false)], log := g.log + [Heard(y, k)])
  }

  /** A key on x's own pseudo-subject that is not its declaration. */
  ghost predicate OwnPseudo(x: Side, k: Key) {
    Representable(k) && k.continuumNbr == 0 && k.subjectNbr == 0 - x.c && k != DeclarationKey(x.c)
  }

  lemma Unsubscribes(x: Side, y: Side, k: Key)
    requires Facing(x, y) && OwnPseudo(x, k)
    ensures Apply(WithPetition(x, k, [x.m], []), Unsubscribe(x.m, k)) == Step(Unsubscribed(x, k), true)
  {
    hide FindPetition, ReadBack;
    ReadBackIff(k);
    hide Representable;
    var n, g := x.peer, WithPetition(x, k, [x.m], []);
    PetitionAtTwo(x, k, [x.m], []);
    assert [x.m][1..] == [] && [n][1..] == [];
    var h := SetPetition(g, 2, g.petitions[2].(dms := []));
    assert Declared(h, n.continuumNbr) by { assert h.declared[0] == n; }
    var s := CancelTo(h, 2, n);
    assert s.ok && s.gw.petitions == Unsubscribed(x, k).petitions && s.gw.sent == Unsubscribed(x, k).sent;
    assert CancelToAll(s.gw, 2) == s;
    assert CancelPetition(h, 2) == s;
  }

  lemma PeerIsInformed(x: Side, y: Side, k: Key)
    requires Facing(x, y) && OwnPseudo(x, k)
    ensures Apply(Acquainted(y), Receive(y.peer, PETITION_ASSERTION, k)) == Step(Informed(y, k), true)
  {
    hide ReadBack, Establish, AssertPetition;
    ReadBackIff(k);
    hide Representable;
    var n, g := y.peer, Acquainted(y);
    assert Declared(g, n.continuumNbr) by { assert g.declared[0] == n; }
    assert g.petitions[0].key != k && g.petitions[1].key != k;
    assert FindPetition(g.petitions, k) == 2;
    var noted := NoteAssertion(g, n, k, false);
    assert noted.petitions == Informed(y, k).petitions;
    EstablishesNothing(noted, n);
    ListsOfOne(n);
    AssertsToNobody(noted, 2);
  }

  lemma EstablishesNothing(g: GatewayState, n: RamsNode)
    requires |g.petitions| == 3 && g.declared == [n]
    requires g.petitions[0].key.continuumNbr == 0 && g.petitions[0].sgs == [n]
    requires g.petitions[1].key.continuumNbr == 0 && g.petitions[1].sgs == []
    requires g.petitions[1].dms == [] && g.petitions[1].dgs == [n]
    ensures Establish(g, n, 2, 0) == Step(g, true)
  {
    ListsOfOne(n);
    assert Establish(g, n, 2, 3) == Step(g, true);
    assert Establish(g, n, 2, 2) == Step(g, true);
    assert Establish(g, n, 2, 1) == Step(g, true);
  }

  lemma {:induction false} RetractSucceeds(g: GatewayState, from: RamsNode, j: nat)
    requires j <= |g.petitions| && Declared(g, from.continuumNbr)
    requires forall i :: 0 <= i < |g.petitions| ==> g.petitions[i].sgs == [] || g.petitions[i].sgs == [from]
    ensures Retract(g, from, j).ok
    decreases |g.petitions| - j
  {
    hide ReadBack;
    assert [from][1..] == [];
    if j < |g.petitions| {
      RetractSucceeds(RetractOne(g, from, j).gw, from, j + 1);
    }
  }

  /** The cancellation is taken for x's retraction. */
  lemma PeerRetracts(x: Side, y: Side, k: Key)
    requires Facing(x, y) && OwnPseudo(x, k)
    ensures var s := Apply(Informed(y, k), Receive(y.peer, PETITION_CANCELLATION, k));
      s.ok && s.gw.declared == []
  {
    hide Retract, Representable;
    var n, g := y.peer, Informed(y, k);
    assert g.petitions[0].key != k && g.petitions[1].key != k && g.petitions[2].key == k;
    assert FindPetition(g.petitions, k) == 2;
    assert [n][1..] == [];
    var h := SetPetition(g, 2, g.petitions[2].(dgs := [], fromPlayback := false));
    assert Declared(h, n.continuumNbr) by { assert h.declared[0] == n; }
    RetractSucceeds(h, n, 0);
    RetractUndeclares(h, n, 0);
  }

  /** The states of two gateways: both declarations arrive, a module of x subscribes and unsubscribes, and what x sends
      about it arrives. */
  function Departure(x: Side, y: Side, k: Key): (run: seq<Net>)
    ensures |run| == 7
  {
    var x1, y1, x3, y2 := Acquainted(x), Acquainted(y), Unsubscribed(x, k), Informed(y, k);
    var y3 := Apply(y2, Receive(y.peer, PETITION_CANCELLATION, k)).gw;
    var one := map[(x.c, y.c) := 1, (y.c, x.c) := 1];
    History(x, y, k)[..3]
    + [Both(x, y, WithPetition(x, k, [x.m], []), y1, one), Both(x, y, x3, y1, one),
       Both(x, y, x3, y2, one[(x.c, y.c) := 2]), Both(x, y, x3, y3, one[(x.c, y.c) := 3])]
  }

  lemma LocalSteps(x: Side, y: Side, k: Key)
    requires Facing(x, y) && OwnPseudo(x, k)
    ensures var run, g := Departure(x, y, k), TwoGateways(x, y); Steps(g, run[2], run[3]) && Steps(g, run[3], run[4])
  {
    hide Apply, Steps, Startup, WithPetition, Unsubscribed, Informed, Acquainted;
    ModuleSubscribes(x, y, k);
    Unsubscribes(x, y, k);
    ReadBackKeepsApart(k);
    hide Representable, OwnPseudo;
    var x1, x2, x3, y1 := Acquainted(x), WithPetition(x, k, [x.m], []), Unsubscribed(x, k), Acquainted(y);
    var one: map<(int, int), nat> := map[(x.c, y.c) := 1, (y.c, x.c) := 1];
    FirstSteps(x, y, x1, y1, one, Subscribe(x.m, k), x2);
    FirstSteps(x, y, x2, y1, one, Unsubscribe(x.m, k), x3);
  }

  lemma FirstSteps(x: Side, y: Side, gx: GatewayState, gy: GatewayState, taken: map<(int, int), nat>, e: Event,
                   h: GatewayState)
    requires Facing(x, y) && !e.Receive? && Noticed(e.key) && Apply(gx, e) == Step(h, true)
    ensures Steps(TwoGateways(x, y), Both(x, y, gx, gy, taken), Both(x, y, h, gy, taken))
  {
    hide Apply, Steps, Noticed;
    var s := Both(x, y, gx, gy, taken);
    LocalStep(TwoGateways(x, y), s, x.c, e, h);
    assert s.gws[x.c := h] == Both(x, y, h, gy, taken).gws;
  }

  lemma ChannelOfUnsubscribed(x: Side, k: Key)
    ensures SentTo(Unsubscribed(x, k).sent, x.peer.continuumNbr)
         == [Asking(x, DeclarationKey(x.c)), Asking(x, k), Cancelling(x, k)]
  {
    var sent := Unsubscribed(x, k).sent;
    ChannelsOf(x, k, [x.m], []);
    assert sent[..2] == WithPetition(x, k, [x.m], []).sent;
  }

  lemma Arrivals(x: Side, y: Side, k: Key)
    requires Facing(x, y) && OwnPseudo(x, k)
    ensures var run, g := Departure(x, y, k), TwoGateways(x, y); Steps(g, run[4], run[5]) && Steps(g, run[5], run[6])
  {
    hide Apply, Steps, Both, TwoGateways, SentTo, History, Startup, Representable;
    PeerIsInformed(x, y, k);
    PeerRetracts(x, y, k);
    ChannelOfUnsubscribed(x, k);
    var x3, y1, y2 := Unsubscribed(x, k), Acquainted(y), Informed(y, k);
    var y3 := Apply(y2, Receive(y.peer, PETITION_CANCELLATION, k)).gw;
    assert y1.neighbors == [y.peer] && y2.neighbors == [y.peer];
    hide WithPetition, Unsubscribed, Informed, Acquainted;
    var one, two: map<(int, int), nat> := map[(x.c, y.c) := 1, (y.c, x.c) := 1], map[(x.c, y.c) := 2, (y.c, x.c) := 1];
    assert one[(x.c, y.c) := 2] == two && two[(x.c, y.c) := 3] == one[(x.c, y.c) := 3];
    SecondTakes(x, y, x3, y1, one, PETITION_ASSERTION, k, y2);
    SecondTakes(x, y, x3, y2, two, PETITION_CANCELLATION, k, y3);
  }

  /** A module of x subscribes and unsubscribes under any representable all-continua key on the pseudo-subject of its
      own continuum that is not the declaration itself. When this has reached y, x is not declared at y any more, though
      it never retracted itself: the run is not steady. */
  lemma UnsubscriptionUndeclares(x: Side, y: Side, k: Key)
    requires Facing(x, y) && OwnPseudo(x, k)
    ensures var run, g := Departure(x, y, k), TwoGateways(x, y);
      NetRun(g, run) && run[2].gws[y.c].declared == [y.peer] && run[6].gws[y.c].declared == [] && !SteadyRun(g, run)
  {
    hide Steps, Apply, OwnPseudo, NetStartup, Startup, WithPetition, Unsubscribed, Informed, Both, TwoGateways;
    var run, g := Departure(x, y, k), TwoGateways(x, y);
    DeclarationsArrive(x, y, k);
    LocalSteps(x, y, k);
    Arrivals(x, y, k);
    StartsUp(x, y, k);
    assert run[0] == History(x, y, k)[0] && run[1] == History(x, y, k)[1] && run[2] == History(x, y, k)[2];
    forall i | 0 < i < |run| ensures Steps(g, run[i - 1], run[i]) {
      assert i == 1 || i == 2 || i == 3 || i == 4 || i == 5 || i == 6;
    }
    DepartureStates(x, y, k);
    if SteadyRun(g, run) {
      NetStaysOk(g, run);
      EveryNeighborDeclared(g, run[6], x.c, y.c);
    }
  }

  lemma DepartureStates(x: Side, y: Side, k: Key)
    requires Facing(x, y) && OwnPseudo(x, k)
    ensures var run, g := Departure(x, y, k), TwoGateways(x, y);
      && y.c in run[2].gws && run[2].gws[y.c].declared == [y.peer]
      && y.c in run[6].gws && run[6].gws[y.c].declared == []
      && x.c in g && y.c in g[x.c] && Taken(run[6], x.c, y.c) > 0
  {
    hide Apply, OwnPseudo, Startup, WithPetition, Unsubscribed, Informed;
    PeerRetracts(x, y, k);
  }

  /** In good order, a gateway that has been heard of is declared. */
  lemma EveryNeighborDeclared(g: Graph, net: Net, a: int, b: int)
    requires NetOk(g, net) && a in g && b in g[a] && Taken(net, a, b) > 0
    ensures net.gws[b].declared != []
  {
    hide GatewayOk;
    assert LinkOk(net.gws[a], net.gws[b], NodeFor(net.gws[b].neighbors, a), Taken(net, a, b));
  }
}
