/** Two neighbouring gateways that have asked each other for the same messages: each keeps the petition alive
    for the other, so they stay listed with each other whatever their own modules do. */
module Lingering {
  import opened Envelope
  import opened Lists
  import opened Onward
  import opened Petitions
  import opened PetitionLaws
  import opened Routing
  import opened Trees

  // ---------- one direction ----------

  /** Gateway b lists a under k, and no RPDU about k is under way from a to b. */
  ghost predicate AskedBy(net: Net, a: int, b: int, k: Key) {
    && a in net.gws && b in net.gws
    && NodeFor(net.gws[b].neighbors, a) in DgsOf(net.gws[b], k)
    && forall p :: Taken(net, a, b) <= p < |Channel(net, a, b)| ==> !About(Channel(net, a, b)[p], k)
  }

  ghost predicate Mutual(net: Net, a: int, b: int, k: Key) {
    AskedBy(net, a, b, k) && AskedBy(net, b, a, k)
  }

  /** An RPDU that is no cancellation of k to dest. */
  predicate NotTold(r: Rpdu, dest: int, k: Key) { NotCancelled(r, k) || r.dest != dest }

  /** A sender that holds the petition with dest, and does not cancel it, sends dest nothing more about it. */
  lemma {:induction false} NothingNew(sent: seq<Rpdu>, later: seq<Rpdu>, dest: int, k: Key)
    requires sent <= later && NeverReasserts(later) && Representable(k)
    requires LastCode(sent, dest, k) == PETITION_ASSERTION
    requires forall p :: |sent| <= p < |later| ==> NotTold(later[p], dest, k)
    ensures LastCode(later, dest, k) == PETITION_ASSERTION
    ensures SentTo(sent, dest) <= SentTo(later, dest)
    ensures forall p :: |SentTo(sent, dest)| <= p < |SentTo(later, dest)| ==> !About(SentTo(later, dest)[p], k)
    decreases |later|
  {
    if later != sent {
      var front, r := later[..|later| - 1], later[|later| - 1];
      forall p | 0 <= p < |front| && Asserts(front[p])
        ensures LastCode(front[..p], front[p].dest, front[p].key) != PETITION_ASSERTION
      {
        assert later[p] == front[p] && later[..p] == front[..p];
      }
      NothingNew(sent, front, dest, k);
      assert NotTold(later[|later| - 1], dest, k) && later[..|front|] == front;
      assert About(r, k) && r.cc == PETITION_ASSERTION ==> Asserts(r);
    }
  }

  /** The petition that b lists a for is held with b, as far as a knows. */
  lemma HeldWith(g: Graph, net: Net, a: int, b: int, k: Key)
    requires NetOk(g, net) && a in g && b in g[a] && AskedBy(net, a, b, k) && Representable(k)
    ensures LastCode(net.gws[a].sent, b, k) == PETITION_ASSERTION
  {
    hide GatewayOk, DgsOf, Representable;
    var channel, t := Channel(net, a, b), Taken(net, a, b);
    assert LinkOk(net.gws[a], net.gws[b], NodeFor(net.gws[b].neighbors, a), t);
    LocalIs(g, net, b);
    LastCodeSkips(channel, t, b, k);
    LastCodeOfChannel(net.gws[a].sent, b, k);
  }

  // ---------- a third gateway retracts itself ----------

  /** The gateway goes on listing other wherever it did, and has not cancelled k with it. */
  ghost predicate Spares(g: GatewayState, h: GatewayState, other: RamsNode, k: Key) {
    && g.sent <= h.sent && h.isTree == g.isTree && h.neighbors == g.neighbors && |h.petitions| == |g.petitions|
    && (forall p :: |g.sent| <= p < |h.sent| ==> NotTold(h.sent[p], other.continuumNbr, k))
    && forall i :: 0 <= i < |g.petitions| ==>
         h.petitions[i].key == g.petitions[i].key && (other in g.petitions[i].dgs ==> other in h.petitions[i].dgs)
  }

  lemma SparesTransitive(f: GatewayState, g: GatewayState, h: GatewayState, other: RamsNode, k: Key)
    requires Spares(f, g, other, k) && Spares(g, h, other, k)
    ensures Spares(f, h, other, k)
  {
    hide NotTold;
    forall p | |f.sent| <= p < |h.sent| ensures NotTold(h.sent[p], other.continuumNbr, k) {
      if p < |g.sent| { assert h.sent[p] == g.sent[p]; }
    }
  }

  /** Other is listed under k wherever k is a petition's key. */
  ghost predicate ListedUnder(g: GatewayState, other: RamsNode, k: Key) {
    forall i :: 0 <= i < |g.petitions| ==>
      Read(g.petitions[i].key) && (g.petitions[i].key == k ==> other in g.petitions[i].dgs)
  }

  lemma RetractOneSpares(g: GatewayState, from: RamsNode, j: nat, other: RamsNode, k: Key)
    requires g.isTree && Representable(k) && j < |g.petitions| && ListedUnder(g, other, k)
    requires other.continuumNbr != from.continuumNbr
    ensures Spares(g, RetractOne(g, from, j).gw, other, k)
  {
    hide CancelPetition, ReadBack, Representable, Read;
    var p := g.petitions[j];
    var q := p.(sgs := RemoveFirst(p.sgs, from), dgs := RemoveFirst(p.dgs, from));
    var h := SetPetition(g, j, q);
    var s := if from in p.sgs || from in p.dgs
             then Send(h, PetitionRpdu(from.continuumNbr, PETITION_CANCELLATION, ReadBack(p.key))) else Step(h, true);
    assert Spares(g, s.gw, other, k);
    if s.ok && !Assertable(s.gw, q) {
      ReadBackKeepsApart(p.key);
      CancelPetitionIsLater(s.gw, j, k);
      assert Spares(s.gw, CancelPetition(s.gw, j).gw, other, k);
      SparesTransitive(g, s.gw, CancelPetition(s.gw, j).gw, other, k);
    }
  }

  lemma {:induction false} RetractSpares(g: GatewayState, from: RamsNode, j: nat, other: RamsNode, k: Key)
    requires g.isTree && Representable(k) && j <= |g.petitions| && ListedUnder(g, other, k)
    requires other.continuumNbr != from.continuumNbr
    ensures Spares(g, Retract(g, from, j).gw, other, k)
    decreases |g.petitions| - j
  {
    hide RetractOne, Representable;
    if j < |g.petitions| {
      var s := RetractOne(g, from, j);
      RetractOneSpares(g, from, j, other, k);
      if s.ok {
        RetractSpares(s.gw, from, j + 1, other, k);
        SparesTransitive(g, s.gw, Retract(s.gw, from, j + 1).gw, other, k);
      }
    }
  }

  /** One neighbour's retraction leaves what another has asked for, and what has been asked of it, alone. */
  lemma RetractionSpares(g: Graph, b: int, gw: GatewayState, from: RamsNode, key: Key, other: RamsNode, k: Key)
    requires GatewayOk(g, b, gw) && Representable(k) && other in DgsOf(gw, k)
    requires other.continuumNbr != from.continuumNbr && key.subjectNbr == 0 - from.continuumNbr
    ensures Spares(gw, HandlePetitionRpdu(gw, from, PETITION_CANCELLATION, key).gw, other, k)
    ensures other in DgsOf(HandlePetitionRpdu(gw, from, PETITION_CANCELLATION, key).gw, k)
  {
    hide Retract, Representable, Declares, SgsMirrorsLog, NeverReasserts, AllSettled, DgssWithoutDuplicates, Read;
    var h := HandlePetitionRpdu(gw, from, PETITION_CANCELLATION, key).gw;
    var i := FindPetition(gw.petitions, key);
    UnderKey(gw, other, k);
    if i < |gw.petitions| && from in gw.petitions[i].dgs {
      var p := gw.petitions[i].(dgs := RemoveFirst(gw.petitions[i].dgs, from), fromPlayback := false);
      RetractSpares(SetPetition(gw, i, p), from, 0, other, k);
    }
    SameFinding(gw.petitions, h.petitions, k);
  }

  lemma UnderKey(gw: GatewayState, other: RamsNode, k: Key)
    requires UniqueKeys(gw) && Representable(k) && other in DgsOf(gw, k)
    ensures ListedUnder(gw, other, k)
  {
    hide Representable, Read;
    forall i | 0 <= i < |gw.petitions| && gw.petitions[i].key == k ensures other in gw.petitions[i].dgs {
      assert FindPetition(gw.petitions, k) == i;
    }
  }

  lemma SameFinding(a: seq<PetitionState>, b: seq<PetitionState>, k: Key)
    requires |a| == |b| && forall i :: 0 <= i < |a| ==> a[i].key == b[i].key
    ensures FindPetition(a, k) == FindPetition(b, k)
  {
  }

  // ---------- the mutual state goes on ----------

  /** The step at which b takes a cancellation from a, or a one from b, for the sender's retraction. */
  ghost predicate Parts(s: Net, ev: NetEvent, a: int, b: int) {
    TakesRetraction(s, ev) && (ev == Arrival(a, b) || ev == Arrival(b, a))
  }

  /** Whatever else happens at b, it goes on listing a. */
  lemma ReceiverGoesOn(g: Graph, s: Net, t: Net, ev: NetEvent, a: int, b: int, k: Key)
    requires NetOk(g, s) && NetStep(g, s, t, ev) && a in g && b in g[a] && Representable(k) && AskedBy(s, a, b, k)
    requires !Parts(s, ev, a, b)
    ensures b in t.gws && t.gws[b].neighbors == s.gws[b].neighbors
    ensures NodeFor(t.gws[b].neighbors, a) in DgsOf(t.gws[b], k)
  {
    hide Apply, Inv, DgsOf, Representable, LinkOk;
    assert GatewayOk(g, b, s.gws[b]);
    match ev
    case LocalEvent(v, e) =>
      if v == b { LocalGatewayStaysOk(g, b, s.gws[b], e); }
    case Arrival(x, y) =>
      if y == b { ReceiverGoesOnArrival(g, s, t, x, a, b, k); }
  }

  lemma ReceiverGoesOnArrival(g: Graph, s: Net, t: Net, x: int, a: int, b: int, k: Key)
    requires NetOk(g, s) && NetStep(g, s, t, Arrival(x, b)) && a in g && b in g[a] && Representable(k)
    requires AskedBy(s, a, b, k) && !Parts(s, Arrival(x, b), a, b)
    ensures t.gws[b].neighbors == s.gws[b].neighbors
    ensures NodeFor(t.gws[b].neighbors, a) in DgsOf(t.gws[b], k)
  {
    hide HandlePetitionRpdu, Inv, DgsOf, Representable, Declares;
    var n, gw, taken := NodeFor(s.gws[b].neighbors, x), s.gws[b], Taken(s, x, b);
    var r := Channel(s, x, b)[taken];
    assert LinkOk(s.gws[x], gw, n, taken) && GatewayOk(g, x, s.gws[x]) && GatewayOk(g, b, gw);
    var h := HandlePetitionRpdu(gw, n, r.cc, r.key).gw;
    RpduKeepsKeys(gw, n, r.cc, r.key);
    assert t.gws[b] == h;
    if TakesRetraction(s, Arrival(x, b)) {
      RetractionSpares(g, b, gw, n, r.key, NodeFor(gw.neighbors, a), k);
    } else {
      ReceiverTakes(s.gws[x], gw, n, taken);
      if x == a {
        assert !About(r, k);
      } else {
        OthersUnchanged(gw, h, n, r.cc, r.key, NodeFor(gw.neighbors, a));
      }
    }
  }

  /** A gateway of the tree that lists somebody under k still wants k. */
  lemma ListingIsWanting(g: Graph, v: int, gw: GatewayState, k: Key, n: RamsNode)
    requires GatewayOk(g, v, gw) && Representable(k) && n in DgsOf(gw, k)
    ensures StillWanted(gw, k)
  {
    hide Inv, Representable;
    InvUniqueKeys(gw);
    forall i | 0 <= i < |gw.petitions| && gw.petitions[i].key == k ensures Assertable(gw, gw.petitions[i]) {
      assert FindPetition(gw.petitions, k) == i;
    }
  }

  /** The event at gateway v of a step. */
  predicate IsAt(ev: NetEvent, v: int) { if ev.LocalEvent? then ev.v == v else ev.b == v }

  /** Whatever else happens at a, it sends b nothing more about k. */
  lemma SenderGoesOn(g: Graph, s: Net, t: Net, ev: NetEvent, a: int, b: int, k: Key)
    requires NetOk(g, s) && NetStep(g, s, t, ev) && a in g && b in g[a] && Representable(k)
    requires Mutual(s, a, b, k) && IsAt(ev, a) && !Parts(s, ev, a, b)
    ensures SentTo(s.gws[a].sent, b) <= SentTo(t.gws[a].sent, b)
    ensures forall p :: |SentTo(s.gws[a].sent, b)| <= p < |SentTo(t.gws[a].sent, b)| ==>
      !About(SentTo(t.gws[a].sent, b)[p], k)
  {
    hide Apply, DgsOf, Representable, StillWanted, NeverReasserts, LinkOk, NotCancelled, Inv, Declares;
    var gw, h := s.gws[a], t.gws[a];
    assert a in g[b];
    HeldWith(g, s, a, b, k);
    assert GatewayOk(g, a, gw);
    var e := EventAt(g, s, t, ev, a);
    ApplyKeepsInv(gw, e);
    InvNeverReasserts(h);
    if TakesRetraction(s, ev) {
      RetractionSparesPeer(g, s, t, ev.a, a, b, k);
    } else {
      StepKeepsOkIff(g, s, t, ev);
      ReceiverGoesOn(g, s, t, ev, b, a, k);
      assert GatewayOk(g, a, h);
      ListingIsWanting(g, a, h, k, NodeFor(h.neighbors, b));
      InvUniqueKeys(gw);
      ApplyIsLater(gw, e, k);
    }
    NothingNew(gw.sent, h.sent, b, k);
  }

  lemma RetractionSparesPeer(g: Graph, s: Net, t: Net, x: int, a: int, b: int, k: Key)
    requires NetOk(g, s) && NetStep(g, s, t, Arrival(x, a)) && a in g && b in g[a] && Representable(k)
    requires Mutual(s, a, b, k) && TakesRetraction(s, Arrival(x, a)) && x != b
    ensures s.gws[a].sent <= t.gws[a].sent
    ensures forall p :: |s.gws[a].sent| <= p < |t.gws[a].sent| ==> NotTold(t.gws[a].sent[p], b, k)
  {
    hide HandlePetitionRpdu, DgsOf, Representable, LinkOk, NotTold;
    var n, r := NodeFor(s.gws[a].neighbors, x), Channel(s, x, a)[Taken(s, x, a)];
    assert GatewayOk(g, a, s.gws[a]);
    RetractionSpares(g, a, s.gws[a], n, r.key, NodeFor(s.gws[a].neighbors, b), k);
  }

  /** The event by which a goes on, be it a retraction or not. */
  lemma EventAt(g: Graph, s: Net, t: Net, ev: NetEvent, a: int) returns (e: Event)
    requires NetOk(g, s) && NetStep(g, s, t, ev) && a in g && IsAt(ev, a)
    ensures t.gws[a] == Apply(s.gws[a], e).gw && Apply(s.gws[a], e).ok && Admissible(s.gws[a], e)
    ensures NoRetraction(s.gws[a], e) || TakesRetraction(s, ev)
  {
    hide Apply, HandlePetitionRpdu, DgsOf, LinkOk, Read, Noticed;
    match ev
    case LocalEvent(v, x) => e := x;
    case Arrival(x, y) =>
      var n := NodeFor(s.gws[a].neighbors, x);
      assert GatewayOk(g, x, s.gws[x]) && GatewayOk(g, a, s.gws[a]);
      var r := Channel(s, x, a)[Taken(s, x, a)];
      ChannelMembers(s.gws[x].sent, a);
      assert r in Channel(s, x, a);
      SentKeyIsRead(s.gws[x], r);
      e := Receive(n, r.cc, r.key);
  }

  lemma AskingGoesOn(g: Graph, s: Net, t: Net, ev: NetEvent, a: int, b: int, k: Key)
    requires NetOk(g, s) && NetStep(g, s, t, ev) && a in g && b in g[a] && Representable(k)
    requires Mutual(s, a, b, k) && !Parts(s, ev, a, b)
    ensures AskedBy(t, a, b, k)
  {
    hide Apply, DgsOf, Representable, GatewayOk, LinksOk, SentTo, TakesRetraction;
    ReceiverGoesOn(g, s, t, ev, a, b, k);
    if IsAt(ev, a) {
      SenderGoesOn(g, s, t, ev, a, b, k);
      assert Taken(t, a, b) == Taken(s, a, b);
      var was, now := Channel(s, a, b), Channel(t, a, b);
      forall p | Taken(t, a, b) <= p < |now| ensures !About(now[p], k) {
        if p < |was| { assert now[p] == was[p]; }
      }
    } else {
      assert t.gws[a] == s.gws[a];
      assert Channel(t, a, b) == Channel(s, a, b);
      assert Taken(s, a, b) <= Taken(t, a, b);
    }
  }

  /** Once a neighbour's retraction is taken, it is listed nowhere. */
  lemma RetractionEnds(g: Graph, s: Net, t: Net, a: int, b: int, k: Key)
    requires NetOk(g, s) && NetStep(g, s, t, Arrival(a, b)) && TakesRetraction(s, Arrival(a, b)) && Representable(k)
    ensures !AskedBy(t, a, b, k)
  {
    hide HandlePetitionRpdu, Representable, LinkOk, Declares;
    var gw, n, r := s.gws[b], NodeFor(s.gws[b].neighbors, a), Channel(s, a, b)[Taken(s, a, b)];
    assert GatewayOk(g, b, gw);
    RpduKeepsKeys(gw, n, r.cc, r.key);
    RetractionUnlists(gw, n, r.key, k);
  }

  lemma {:induction false} RetractUnlists(g: GatewayState, from: RamsNode, j: nat, i: nat)
    requires j <= |g.petitions| && i < |g.petitions| && NoDup(g.petitions[i].dgs) && Retract(g, from, j).ok
    requires i < j ==> from !in g.petitions[i].dgs
    ensures Retract(g, from, j).gw.petitions[i].key == g.petitions[i].key
    ensures from !in Retract(g, from, j).gw.petitions[i].dgs
    decreases |g.petitions| - j
  {
    hide CancelPetition, ReadBack;
    if j < |g.petitions| {
      RemoveFirstNoDup(g.petitions[i].dgs, from);
      RetractUnlists(RetractOne(g, from, j).gw, from, j + 1, i);
    }
  }

  lemma RetractionUnlists(gw: GatewayState, n: RamsNode, key: Key, k: Key)
    requires DgssWithoutDuplicates(gw) && Representable(k) && HandlePetitionRpdu(gw, n, PETITION_CANCELLATION, key).ok
    requires !NoRetraction(gw, Receive(n, PETITION_CANCELLATION, key))
    ensures n !in DgsOf(HandlePetitionRpdu(gw, n, PETITION_CANCELLATION, key).gw, k)
  {
    hide Retract, Representable;
    var i, m := FindPetition(gw.petitions, key), FindPetition(gw.petitions, k);
    var h := SetPetition(gw, i, gw.petitions[i].(dgs := RemoveFirst(gw.petitions[i].dgs, n), fromPlayback := false));
    var t := Retract(h, n, 0).gw;
    RetractKeepsKeys(h, n, 0);
    SameFinding(gw.petitions, t.petitions, k);
    if m < |gw.petitions| {
      assert NoDup(DgsOf(gw, k));
      RemoveFirstNoDup(gw.petitions[m].dgs, n);
      RetractUnlists(h, n, 0, m);
    }
  }

  /** Of all steps anywhere in the network, exactly those end the mutual state at which one of the two takes a
      cancellation from the other for its retraction. */
  lemma MutualEndsIff(g: Graph, s: Net, t: Net, ev: NetEvent, a: int, b: int, k: Key)
    requires NetOk(g, s) && NetStep(g, s, t, ev) && a in g && b in g[a] && Representable(k)
    requires Mutual(s, a, b, k)
    ensures !Mutual(t, a, b, k) <==> Parts(s, ev, a, b)
  {
    hide NetStep, LinksOk, GatewayOk, AskedBy, Representable, TakesRetraction;
    assert b in g && a in g[b];
    if Parts(s, ev, a, b) {
      RetractionEnds(g, s, t, ev.a, ev.b, k);
    } else {
      assert !Parts(s, ev, b, a);
      AskingGoesOn(g, s, t, ev, a, b, k);
      AskingGoesOn(g, s, t, ev, b, a, k);
    }
  }

  lemma {:induction false} MutualForGood(g: Graph, run: seq<Net>, i: nat, j: nat, a: int, b: int, k: Key)
    requires SteadyRun(g, run) && i <= j < |run| && a in g && b in g[a] && Representable(k)
    requires Mutual(run[i], a, b, k)
    ensures Mutual(run[j], a, b, k)
  {
    hide NetStartup, NetStep, NetOk, Mutual, Representable, TakesRetraction;
    if i < j {
      MutualForGood(g, run, i, j - 1, a, b, k);
      PrefixOk(g, run, j - 1);
      PrefixOk(g, run, j);
      assert StepsSteadily(g, run[j - 1], run[j]);
      var ev :| NetStep(g, run[j - 1], run[j], ev) && !TakesRetraction(run[j - 1], ev);
      MutualEndsIff(g, run[j - 1], run[j], ev, a, b, k);
    }
  }

  // ---------- how it begins ----------

  /** A module of gateway a wants messages under k. */
  ghost predicate HasSubscriber(gw: GatewayState, k: Key) {
    exists i :: 0 <= i < |gw.petitions| && gw.petitions[i].key == k && gw.petitions[i].dms != []
  }

  lemma SubscriberIsListed(g: Graph, net: Net, a: int, b: int, k: Key)
    requires IsTree(g) && NetOk(g, net) && Drained(g, net) && a in g && b in g[a]
    requires Representable(k) && k.continuumNbr == 0 && HasSubscriber(net.gws[a], k)
    ensures AskedBy(net, a, b, k)
  {
    hide IsTree, LinksOk, GatewayOk, Representable, Parent;
    var i: nat :| i < |net.gws[a].petitions| && net.gws[a].petitions[i].key == k && net.gws[a].petitions[i].dms != [];
    ParentOrChild(g, a, a, b);
    DepthZero(g, a, a);
    assert b != a && Parent(g, a, b) == a;
    InterestIsEverywhere(g, net, a, i, b);
  }

  /** Once modules of two neighbouring gateways have subscribed to the same subject for all continua, and nothing
      is under way, the two gateways list each other under it for good: in every state that follows, whoever
      unsubscribes, each is in the other's DGS and SGS. */
  lemma ListedForGood(g: Graph, run: seq<Net>, i: nat, j: nat, a: int, b: int, k: Key)
    requires IsTree(g) && SteadyRun(g, run) && i <= j < |run| && a in g && b in g[a]
    requires Representable(k) && k.continuumNbr == 0
    requires run[i].gws.Keys == g.Keys && b in g && Drained(g, run[i])
    requires HasSubscriber(run[i].gws[a], k) && HasSubscriber(run[i].gws[b], k)
    ensures a in run[j].gws && b in run[j].gws
    ensures Listed(run[j].gws[a], b, k) && Listed(run[j].gws[b], a, k)
  {
    hide IsTree, NetStartup, StepsSteadily, NetOk, Representable, HasSubscriber, AskedBy, Drained;
    PrefixOk(g, run, i);
    PrefixOk(g, run, j);
    assert a in g[b] by { UndirectedTree(g, a, b); }
    SubscriberIsListed(g, run[i], a, b, k);
    SubscriberIsListed(g, run[i], b, a, k);
    MutualForGood(g, run, i, j, a, b, k);
    MutualIsListed(g, run[j], a, b, k);
    MutualIsListed(g, run[j], b, a, k);
  }

  lemma UndirectedTree(g: Graph, a: int, b: int)
    requires IsTree(g) && a in g && b in g[a]
    ensures b in g && a in g[b]
  {
  }

  /** The gateway's petition for k names its neighbour b in both sets. */
  ghost predicate Listed(gw: GatewayState, b: int, k: Key) {
    var i := FindPetition(gw.petitions, k);
    && i < |gw.petitions|
    && NodeFor(gw.neighbors, b) in gw.petitions[i].dgs
    && NodeFor(gw.neighbors, b) in gw.petitions[i].sgs
  }

  lemma MutualIsListed(g: Graph, net: Net, a: int, b: int, k: Key)
    requires NetOk(g, net) && a in g && b in g[a] && Representable(k) && Mutual(net, a, b, k)
    ensures a in net.gws && Listed(net.gws[a], b, k)
  {
    hide Representable, Settled, NodesKnown, Declares, LinkOk;
    HeldWith(g, net, a, b, k);
    assert GatewayOk(g, a, net.gws[a]);
    assert NodeFor(net.gws[a].neighbors, b) in DgsOf(net.gws[a], k);
  }

  // ---------- two gateways ----------

  /** A gateway of two: its continuum, its own module, the other gateway as it knows it, and a module that
      subscribes to what the other's module does. */
  datatype Side = Side(c: int, self: ModuleId, peer: RamsNode, m: ModuleId)

  ghost predicate Facing(x: Side, y: Side) {
    && x.peer.continuumNbr == y.c && y.peer.continuumNbr == x.c && x.c != y.c
    && 0 < x.c < 0x8000 && 0 < y.c < 0x8000 && x.m != x.self && y.m != y.self
  }

  function Asking(x: Side, k: Key): Rpdu { PetitionRpdu(x.peer.continuumNbr, PETITION_ASSERTION, k) }

  function Heard(x: Side, k: Key): LogLine { LogLine(x.peer.protocol, x.peer.gwEid, PETITION_ASSERTION, k) }

  /** The gateway after its peer's declaration. */
  function Acquainted(x: Side): GatewayState {
    GatewayState(x.c, x.self, true, [x.peer], [x.peer],
                 [PetitionState(DeclarationKey(x.c), [x.self], [], [x.peer], false),
                  PetitionState(DeclarationKey(x.peer.continuumNbr), [], [x.peer], [], false)],
                 [Asking(x, DeclarationKey(x.c))], [Heard(x, DeclarationKey(x.peer.continuumNbr))])
  }

  /** After its module's subscription, after the peer's assertion of the same, and after the unsubscription: the
      petition for k is all that differs. */
  function WithPetition(x: Side, k: Key, dms: seq<ModuleId>, dgs: seq<RamsNode>): GatewayState {
    var g := Acquainted(x);
    g.(petitions := g.petitions + [PetitionState(k, dms, dgs, [x.peer], false)], sent := g.sent + [Asking(x, k)],
       log := if dgs == [] then g.log else g.log + [Heard(x, k)])
  }

  lemma ListsOfOne(n: RamsNode)
    ensures Subtract([n], []) == [n] && Subtract([n], [n]) == [] && Union([], [n]) == [n]
  {
    var none: seq<RamsNode> := [];
    assert [n][..0] == none;
    assert Subtract(none, none) == none && Subtract(none, [n]) == none && Union(none, none) == none;
  }

  lemma AssertsToNobody(g: GatewayState, i: nat)
    requires i < |g.petitions| && AssertionSet(g, g.petitions[i]) == []
    ensures AssertPetition(g, i) == Step(g, true)
  {
    assert SetPetition(g, i, g.petitions[i]).petitions == g.petitions;
  }

  lemma AssertsToPeer(g: GatewayState, i: nat, n: RamsNode)
    requires i < |g.petitions| && Assertable(g, g.petitions[i]) && g.petitions[i].sgs == [] && g.declared == [n]
    requires AssertionSet(g, g.petitions[i]) == [n]
    ensures AssertPetition(g, i)
         == Step(SetPetition(g.(sent := g.sent + [PetitionRpdu(n.continuumNbr, PETITION_ASSERTION,
             g.petitions[i].key)]), i,
                             g.petitions[i].(sgs := [n])), true)
  {
    ListsOfOne(n);
    var r := PetitionRpdu(n.continuumNbr, PETITION_ASSERTION, g.petitions[i].key);
    assert Declared(g, n.continuumNbr) by { assert g.declared[0] == n; }
    assert [n][1..] == [];
    assert SendAssertions(g, [n], g.petitions[i].key)
        == SendAssertions(g.(sent := g.sent + [r]), [], g.petitions[i].key);
  }

  lemma KeysOf(x: Side, y: Side, k: Key)
    requires Facing(x, y)
    ensures ReadBack(DeclarationKey(x.c)) == DeclarationKey(x.c) && ReadBack(DeclarationKey(y.c)) == DeclarationKey(y.c)
    ensures Representable(k) ==> ReadBack(k) == k
  {
    ReadBackIff(DeclarationKey(x.c));
    ReadBackIff(DeclarationKey(y.c));
    ReadBackIff(k);
  }

  /** The declaration has been noted, and nothing needs to be asserted to the peer. */
  lemma EstablishNothing(g: GatewayState, n: RamsNode)
    requires |g.petitions| == 2 && g.petitions[0].key.continuumNbr == 0 && g.petitions[0].sgs == [n] && g.declared
        == [n]
    ensures Establish(g, n, 1, 0) == Step(g, true)
  {
    ListsOfOne(n);
    assert EstablishOne(g, n, 1, 0) == Step(g, true);
    assert Establish(g, n, 1, 2) == Step(g, true);
    assert Establish(g, n, 1, 1) == Step(g, true);
  }

  lemma PeerDeclares(x: Side, y: Side)
    requires Facing(x, y)
    ensures Apply(Startup(x.c, x.self, true, [x.peer]), Receive(x.peer, PETITION_ASSERTION, DeclarationKey(y.c)))
         == Step(Acquainted(x), true)
  {
    var n, k := x.peer, DeclarationKey(y.c);
    KeysOf(x, y, k);
    hide ReadBack, Establish, AssertPetition;
    var g := Startup(x.c, x.self, true, [n]);
    assert [n][..0] == [];
    assert Declarations([n], x.c) == Declarations([], x.c) + [Asking(x, DeclarationKey(x.c))];
    var h := g.(declared := [n]);
    assert NoteDeclaration(g, n) == h;
    assert h.petitions[0].key != k;
    assert FindPetition(h.petitions, k) == 1;
    var noted := NoteAssertion(h, n, k, false);
    assert noted.petitions == Acquainted(x).petitions;
    EstablishNothing(noted, n);
    ListsOfOne(n);
    AssertsToNobody(noted, 1);
  }

  lemma ModuleSubscribes(x: Side, y: Side, k: Key)
    requires Facing(x, y) && Representable(k) && k.continuumNbr == 0
    requires k != DeclarationKey(x.c) && k != DeclarationKey(y.c)
    ensures Apply(Acquainted(x), Subscribe(x.m, k)) == Step(WithPetition(x, k, [x.m], []), true)
  {
    var n, g := x.peer, Acquainted(x);
    KeysOf(x, y, k);
    hide ReadBack, AssertPetition;
    assert FindPetition(g.petitions, k) == 2 by { assert g.petitions[0].key != k && g.petitions[1].key != k; }
    var p := PetitionState(k, [x.m], [], [], false);
    var h := g.(petitions := g.petitions + [p]);
    ListsOfOne(n);
    AssertsToPeer(h, 2, n);
    var t := AssertPetition(h, 2).gw;
    assert t.petitions == WithPetition(x, k, [x.m], []).petitions;
  }

  lemma PetitionAtTwo(x: Side, k: Key, dms: seq<ModuleId>, dgs: seq<RamsNode>)
    requires k != DeclarationKey(x.c) && k != DeclarationKey(x.peer.continuumNbr)
    ensures FindPetition(WithPetition(x, k, dms, dgs).petitions, k) == 2
  {
    var ps := WithPetition(x, k, dms, dgs).petitions;
    assert ps[0].key != k && ps[1].key != k && ps[2].key == k;
  }

  lemma PeerAsks(x: Side, y: Side, k: Key)
    requires Facing(x, y) && k.continuumNbr == 0 && k.subjectNbr > 0
    ensures Apply(WithPetition(x, k, [x.m], []), Receive(x.peer, PETITION_ASSERTION, k))
         == Step(WithPetition(x, k, [x.m], [x.peer]), true)
  {
    hide AssertPetition, FindPetition;
    var n, g := x.peer, WithPetition(x, k, [x.m], []);
    PetitionAtTwo(x, k, [x.m], []);
    assert Declared(g, n.continuumNbr) by { assert g.declared[0] == n; }
    var noted := NoteAssertion(g, n, k, false);
    ListsOfOne(n);
    AssertsToNobody(noted, 2);
    assert noted.petitions == WithPetition(x, k, [x.m], [n]).petitions;
  }

  lemma ModuleUnsubscribes(x: Side, y: Side, k: Key)
    requires Facing(x, y) && k.continuumNbr == 0 && k.subjectNbr > 0
    ensures Apply(WithPetition(x, k, [x.m], [x.peer]), Unsubscribe(x.m, k))
         == Step(WithPetition(x, k, [], [x.peer]), true)
  {
    hide CancelPetition, FindPetition;
    PetitionAtTwo(x, k, [x.m], [x.peer]);
    assert [x.m][1..] == [];
    assert RemovePetitioner(WithPetition(x, k, [x.m], [x.peer]), x.m, k).gw.petitions
        == WithPetition(x, k, [], [x.peer]).petitions;
  }

  // ---------- the run ----------

  lemma TakeStep(g: Graph, s: Net, a: int, b: int, n: RamsNode, cc: int, k: Key, h: GatewayState)
    requires a in g && b in g[a] && a in s.gws && b in s.gws && s.gws[b].neighbors == [n] && n.continuumNbr == a
    requires Taken(s, a, b) < |Channel(s, a, b)|
    requires Channel(s, a, b)[Taken(s, a, b)] == PetitionRpdu(b, cc, k)
    requires Apply(s.gws[b], Receive(n, cc, k)) == Step(h, true)
    ensures Steps(g, s, Net(s.gws[b := h], s.taken[(a, b) := Taken(s, a, b) + 1]))
  {
    hide Apply;
    assert NodeFor(s.gws[b].neighbors, a) == n;
    assert NetStep(g, s, Net(s.gws[b := h], s.taken[(a, b) := Taken(s, a, b) + 1]), Arrival(a, b));
  }

  lemma LocalStep(g: Graph, s: Net, v: int, e: Event, h: GatewayState)
    requires v in s.gws && !e.Receive? && Noticed(e.key) && Apply(s.gws[v], e) == Step(h, true)
    ensures Steps(g, s, s.(gws := s.gws[v := h]))
  {
    hide Apply;
    assert NetStep(g, s, s.(gws := s.gws[v := h]), LocalEvent(v, e));
  }

  lemma ChannelsOf(x: Side, k: Key, dms: seq<ModuleId>, dgs: seq<RamsNode>)
    ensures SentTo([Asking(x, DeclarationKey(x.c))], x.peer.continuumNbr) == [Asking(x, DeclarationKey(x.c))]
    ensures SentTo(WithPetition(x, k, dms, dgs).sent, x.peer.continuumNbr)
        == [Asking(x, DeclarationKey(x.c)), Asking(x, k)]
  {
    var one, two := [Asking(x, DeclarationKey(x.c))], WithPetition(x, k, dms, dgs).sent;
    assert one[..0] == [] && two[..1] == one;
    assert SentTo([], x.peer.continuumNbr) == [];
    assert SentTo(one, x.peer.continuumNbr) == one;
  }

  function Both(x: Side, y: Side, gx: GatewayState, gy: GatewayState, taken: map<(int, int), nat>): Net {
    Net(map[x.c := gx, y.c := gy], taken)
  }

  /** The states that the two gateways go through: both declarations arrive, both modules subscribe, both
      assertions arrive, both modules unsubscribe. */
  function History(x: Side, y: Side, k: Key): (run: seq<Net>)
    ensures |run| == 9
  {
    var x0, y0 := Startup(x.c, x.self, true, [x.peer]), Startup(y.c, y.self, true, [y.peer]);
    var x1, y1 := Acquainted(x), Acquainted(y);
    var x2, y2 := WithPetition(x, k, [x.m], []), WithPetition(y, k, [y.m], []);
    var x3, y3 := WithPetition(x, k, [x.m], [x.peer]), WithPetition(y, k, [y.m], [y.peer]);
    var x4, y4 := WithPetition(x, k, [], [x.peer]), WithPetition(y, k, [], [y.peer]);
    var one, two := map[(x.c, y.c) := 1, (y.c, x.c) := 1], map[(x.c, y.c) := 2, (y.c, x.c) := 2];
    [Both(x, y, x0, y0, map[]), Both(x, y, x0, y1, map[(x.c, y.c) := 1]), Both(x, y, x1, y1, one),
     Both(x, y, x2, y1, one), Both(x, y, x2, y2, one),
     Both(x, y, x2, y3, map[(x.c, y.c) := 2, (y.c, x.c) := 1]), Both(x, y, x3, y3, two),
     Both(x, y, x4, y3, two), Both(x, y, x4, y4, two)]
  }

  function TwoGateways(x: Side, y: Side): Graph { map[x.c := {y.c}, y.c := {x.c}] }

  /** The next RPDU of x reaches y. */
  lemma SecondTakes(x: Side, y: Side, gx: GatewayState, gy: GatewayState, taken: map<(int, int), nat>, cc: int,
                    k: Key, h: GatewayState)
    requires Facing(x, y) && gy.neighbors == [y.peer]
    requires var t := if (x.c, y.c) in taken then taken[(x.c, y.c)] else 0;
      t < |SentTo(gx.sent, y.c)| && SentTo(gx.sent, y.c)[t] == PetitionRpdu(y.c, cc, k)
    requires Apply(gy, Receive(y.peer, cc, k)) == Step(h, true)
    ensures var t := if (x.c, y.c) in taken then taken[(x.c, y.c)] else 0;
      Steps(TwoGateways(x, y), Both(x, y, gx, gy, taken), Both(x, y, gx, h, taken[(x.c, y.c) := t + 1]))
  {
    hide Apply, Steps;
    var s := Both(x, y, gx, gy, taken);
    TakeStep(TwoGateways(x, y), s, x.c, y.c, y.peer, cc, k, h);
    assert s.gws[y.c := h] == Both(x, y, gx, h, taken).gws;
  }

  /** The next RPDU of y reaches x. */
  lemma FirstTakes(x: Side, y: Side, gx: GatewayState, gy: GatewayState, taken: map<(int, int), nat>, cc: int,
                   k: Key, h: GatewayState)
    requires Facing(x, y) && gx.neighbors == [x.peer]
    requires var t := if (y.c, x.c) in taken then taken[(y.c, x.c)] else 0;
      t < |SentTo(gy.sent, x.c)| && SentTo(gy.sent, x.c)[t] == PetitionRpdu(x.c, cc, k)
    requires Apply(gx, Receive(x.peer, cc, k)) == Step(h, true)
    ensures var t := if (y.c, x.c) in taken then taken[(y.c, x.c)] else 0;
      Steps(TwoGateways(x, y), Both(x, y, gx, gy, taken), Both(x, y, h, gy, taken[(y.c, x.c) := t + 1]))
  {
    hide Apply, Steps;
    var s := Both(x, y, gx, gy, taken);
    TakeStep(TwoGateways(x, y), s, y.c, x.c, x.peer, cc, k, h);
    assert s.gws[x.c := h] == Both(x, y, h, gy, taken).gws;
  }

  lemma DeclarationsArrive(x: Side, y: Side, k: Key)
    requires Facing(x, y)
    ensures var run, g := History(x, y, k), TwoGateways(x, y); Steps(g, run[0], run[1]) && Steps(g, run[1], run[2])
  {
    hide Apply, Steps, Startup, Both, TwoGateways;
    StartupSent(x);
    StartupSent(y);
    PeerDeclares(x, y);
    PeerDeclares(y, x);
    ChannelsOf(x, k, [], []);
    ChannelsOf(y, k, [], []);
    var x0, y0 := Startup(x.c, x.self, true, [x.peer]), Startup(y.c, y.self, true, [y.peer]);
    var none, one: map<(int, int), nat> := map[], map[(x.c, y.c) := 1];
    SecondTakes(x, y, x0, y0, none, PETITION_ASSERTION, DeclarationKey(x.c), Acquainted(y));
    FirstTakes(x, y, x0, Acquainted(y), one, PETITION_ASSERTION, DeclarationKey(y.c), Acquainted(x));
    assert none[(x.c, y.c) := 1] == one;
    assert one[(y.c, x.c) := 1] == map[(x.c, y.c) := 1, (y.c, x.c) := 1];
  }

  lemma StartupSent(x: Side)
    ensures Startup(x.c, x.self, true, [x.peer]).sent == [Asking(x, DeclarationKey(x.c))]
    ensures Startup(x.c, x.self, true, [x.peer]).neighbors == [x.peer]
  {
    assert [x.peer][..0] == [];
    assert Declarations([x.peer], x.c) == Declarations([], x.c) + [Asking(x, DeclarationKey(x.c))];
  }

  lemma SubscriptionsMade(x: Side, y: Side, k: Key)
    requires Facing(x, y) && Representable(k) && k.continuumNbr == 0 && k.subjectNbr > 0
    ensures var run, g := History(x, y, k), TwoGateways(x, y); Steps(g, run[2], run[3]) && Steps(g, run[3], run[4])
  {
    hide Apply, Steps, Representable;
    ReadBackKeepsApart(k);
    ModuleSubscribes(x, y, k);
    ModuleSubscribes(y, x, k);
    var run, g := History(x, y, k), TwoGateways(x, y);
    LocalStep(g, run[2], x.c, Subscribe(x.m, k), run[3].gws[x.c]);
    LocalStep(g, run[3], y.c, Subscribe(y.m, k), run[4].gws[y.c]);
    assert run[2].gws[x.c := run[3].gws[x.c]] == run[3].gws && run[3].gws[y.c := run[4].gws[y.c]] == run[4].gws;
  }

  lemma AssertionsArrive(x: Side, y: Side, k: Key)
    requires Facing(x, y) && k.continuumNbr == 0 && k.subjectNbr > 0
    ensures var run, g := History(x, y, k), TwoGateways(x, y); Steps(g, run[4], run[5]) && Steps(g, run[5], run[6])
  {
    hide Apply, Steps, Both, TwoGateways, Startup, SentTo;
    PeerAsks(x, y, k);
    PeerAsks(y, x, k);
    ChannelsOf(x, k, [x.m], []);
    ChannelsOf(y, k, [y.m], [y.peer]);
    var x2, y2 := WithPetition(x, k, [x.m], []), WithPetition(y, k, [y.m], []);
    var x3, y3 := WithPetition(x, k, [x.m], [x.peer]), WithPetition(y, k, [y.m], [y.peer]);
    NeighborsOf(x, k, [x.m], []);
    NeighborsOf(y, k, [y.m], []);
    hide WithPetition, Acquainted;
    var one: map<(int, int), nat> := map[(x.c, y.c) := 1, (y.c, x.c) := 1];
    var two: map<(int, int), nat> := map[(x.c, y.c) := 2, (y.c, x.c) := 1];
    SecondTakes(x, y, x2, y2, one, PETITION_ASSERTION, k, y3);
    FirstTakes(x, y, x2, y3, two, PETITION_ASSERTION, k, x3);
    assert one[(x.c, y.c) := 2] == two;
    assert two[(y.c, x.c) := 2] == map[(x.c, y.c) := 2, (y.c, x.c) := 2];
  }

  lemma NeighborsOf(x: Side, k: Key, dms: seq<ModuleId>, dgs: seq<RamsNode>)
    ensures WithPetition(x, k, dms, dgs).neighbors == [x.peer]
  {
  }

  lemma SubscriptionsEnd(x: Side, y: Side, k: Key)
    requires Facing(x, y) && Representable(k) && k.continuumNbr == 0 && k.subjectNbr > 0
    ensures var run, g := History(x, y, k), TwoGateways(x, y); Steps(g, run[6], run[7]) && Steps(g, run[7], run[8])
  {
    hide Apply, Steps, Representable;
    ReadBackKeepsApart(k);
    ModuleUnsubscribes(x, y, k);
    ModuleUnsubscribes(y, x, k);
    var run, g := History(x, y, k), TwoGateways(x, y);
    LocalStep(g, run[6], x.c, Unsubscribe(x.m, k), run[7].gws[x.c]);
    LocalStep(g, run[7], y.c, Unsubscribe(y.m, k), run[8].gws[y.c]);
    assert run[6].gws[x.c := run[7].gws[x.c]] == run[7].gws && run[7].gws[y.c := run[8].gws[y.c]] == run[8].gws;
  }

  /** Such a state does come about, with nobody left who wants anything: of two gateways, at the end of this run,
      each lists the other under k in both sets, no module of either wants k, and nothing is under way that
      could ever change this. */
  lemma TwoGatewaysLinger(x: Side, y: Side, k: Key)
    requires Facing(x, y) && Representable(k) && k.continuumNbr == 0 && k.subjectNbr > 0
    ensures NetRun(TwoGateways(x, y), History(x, y, k))
    ensures var net := History(x, y, k)[8];
      && Mutual(net, x.c, y.c, k)
      && Listed(net.gws[x.c], y.c, k) && Listed(net.gws[y.c], x.c, k)
      && !HasSubscriber(net.gws[x.c], k) && !HasSubscriber(net.gws[y.c], k)
  {
    hide Steps, Representable, Mutual, Listed, HasSubscriber, NetStartup;
    var run, g := History(x, y, k), TwoGateways(x, y);
    DeclarationsArrive(x, y, k);
    SubscriptionsMade(x, y, k);
    AssertionsArrive(x, y, k);
    SubscriptionsEnd(x, y, k);
    StartsUp(x, y, k);
    forall i | 0 < i < |run| ensures Steps(g, run[i - 1], run[i]) {
      assert i == 1 || i == 2 || i == 3 || i == 4 || i == 5 || i == 6 || i == 7 || i == 8;
    }
    EndsMutual(x, y, k);
  }

  lemma StartsUp(x: Side, y: Side, k: Key)
    requires Facing(x, y)
    ensures NetStartup(TwoGateways(x, y), History(x, y, k)[0])
  {
    hide StartedAt, Startup;
    SideStarts(x, y, TwoGateways(x, y));
    SideStarts(y, x, TwoGateways(x, y));
  }

  lemma SideStarts(x: Side, y: Side, g: Graph)
    requires Facing(x, y) && x.c in g && g[x.c] == {y.c}
    ensures StartedAt(g, x.c, Startup(x.c, x.self, true, [x.peer]))
  {
    hide Declarations, ReadBack;
    var gw := Startup(x.c, x.self, true, [x.peer]);
    assert gw.self == x.self && gw.neighbors == [x.peer];
    assert x.peer in gw.neighbors;
  }

  lemma EndsMutual(x: Side, y: Side, k: Key)
    requires Facing(x, y) && k.continuumNbr == 0 && k.subjectNbr > 0
    ensures var net := History(x, y, k)[8];
      && Mutual(net, x.c, y.c, k)
      && Listed(net.gws[x.c], y.c, k) && Listed(net.gws[y.c], x.c, k)
      && !HasSubscriber(net.gws[x.c], k) && !HasSubscriber(net.gws[y.c], k)
  {
    var net := History(x, y, k)[8];
    assert net == Both(x, y, WithPetition(x, k, [], [x.peer]), WithPetition(y, k, [], [y.peer]), net.taken);
    assert Taken(net, x.c, y.c) == 2 && Taken(net, y.c, x.c) == 2;
    hide History, WithPetition, Listed, HasSubscriber, AskedBy;
    SideEnds(x, y, k, net);
    SideEnds(y, x, k, net);
  }

  lemma SideEnds(x: Side, y: Side, k: Key, net: Net)
    requires Facing(x, y) && k.continuumNbr == 0 && k.subjectNbr > 0
    requires x.c in net.gws && net.gws[x.c] == WithPetition(x, k, [], [x.peer])
    requires y.c in net.gws && net.gws[y.c] == WithPetition(y, k, [], [y.peer])
    requires Taken(net, y.c, x.c) == 2
    ensures AskedBy(net, y.c, x.c, k) && Listed(net.gws[x.c], y.c, k) && !HasSubscriber(net.gws[x.c], k)
  {
    hide FindPetition, SentTo;
    PetitionAtTwo(x, k, [], [x.peer]);
    ChannelsOf(y, k, [], [y.peer]);
    assert NodeFor([x.peer], y.c) == x.peer;
  }
}
