/** Petition propagation and relaying together: on a tree of gateways, once no petition RPDU is under way,
    every publication reaches every gateway that has a subscriber for it, exactly once. */
module Delivery {
  import opened Enclosures
  import opened Envelope
  import opened Lists
  import opened Petitions
  import opened Relaying
  import opened RelayLaws
  import opened Trees
  import opened Units
  import Routing

  // ---------- the way back along a path ----------

  function Reversed(p: seq<int>): (r: seq<int>)
    ensures |r| == |p| && forall i :: 0 <= i < |p| ==> r[i] == p[|p| - 1 - i]
  {
    if p == [] then [] else [p[|p| - 1]] + Reversed(p[..|p| - 1])
  }

  lemma ReversedIsPath(g: Graph, p: seq<int>, a: int, b: int)
    requires Undirected(g) && IsPath(g, p, a, b)
    ensures IsPath(g, Reversed(p), b, a)
  {
    var r := Reversed(p);
    forall i | 0 <= i < |r| - 1 ensures r[i + 1] in g[r[i]] {
      var j := |p| - 2 - i;
      assert p[j + 1] in g[p[j]];
    }
  }

  /** On the path between two nodes, the next node towards one end is the one away from the other. */
  lemma ParentsOnPath(g: Graph, a: int, b: int, i: nat)
    requires IsTree(g) && a in g && b in g && i < |PathTo(g, a, b)|
    ensures var p := PathTo(g, a, b);
      && p[i] in g
      && (i > 0 ==> p[i] != a && Parent(g, a, p[i]) == p[i - 1])
      && (i < |p| - 1 ==> p[i] != b && Parent(g, b, p[i]) == p[i + 1])
  {
    var p := PathTo(g, a, b);
    PrefixIsPath(g, p, a, b, i);
    PathsAgree(g, p[..i + 1], a, p[i]);
    var r, j := Reversed(p), |p| - 1 - i;
    ReversedIsPath(g, p, a, b);
    PrefixIsPath(g, r, b, a, j);
    PathsAgree(g, r[..j + 1], b, p[i]);
  }

  // ---------- a publication relayed by gateways in fixed states ----------

  /** What gateways in fixed states do with a publication; each one judges unit numbers by its own hierarchy. */
  datatype Setting = Setting(gws: map<int, GatewayState>, namesAt: int -> UnitNames, m: AamsMessage, role: int)

  ghost predicate Sendable(w: Setting) {
    |w.m.content| <= MAX_AMS_CONTENT && FitsPdu(w.m, w.role)
  }

  function TargetsAt(w: Setting, v: int, from: int): seq<int>
    requires v in w.gws && |w.m.content| <= MAX_AMS_CONTENT
  {
    PublishTargets(w.namesAt(v), w.gws[v], PublicationPdu(w.m, w.role), from)
  }

  function StartAt(w: Setting, v: int): seq<int>
    requires v in w.gws && |w.m.content| <= MAX_AMS_CONTENT
  {
    PublishStart(w.namesAt(v), w.gws[v], w.m, w.role)
  }

  ghost predicate FixedStep(w: Setting, s: Flood, t: Flood)
    requires Sendable(w)
  {
    exists p :: p in s.inFlight && p.to in w.gws && t == Delivered(s, p, TargetsAt(w, p.to, p.from))
  }

  ghost predicate FixedRun(w: Setting, origin: int, run: seq<Flood>)
    requires Sendable(w)
  {
    && run != [] && origin in w.gws
    && run[0] == Started(origin, StartAt(w, origin))
    && (forall i :: 0 < i < |run| ==> FixedStep(w, run[i - 1], run[i]))
  }

  /** Whom v, when it has the message, sends it on to. */
  ghost function SendsTo(w: Setting, g: Graph, origin: int, v: int): seq<int>
    requires IsTree(g) && origin in g && v in g && v in w.gws && Sendable(w)
  {
    if v == origin then StartAt(w, v) else TargetsAt(w, v, Parent(g, origin, v))
  }

  ghost predicate SentAsWanted(w: Setting, g: Graph, origin: int, s: Flood)
    requires IsTree(g) && origin in g && w.gws.Keys == g.Keys && Sendable(w)
  {
    forall v :: v in s.sentBy && v in g ==> s.sentBy[v] == SendsTo(w, g, origin, v)
  }

  lemma {:induction false} FixedRunSends(w: Setting, g: Graph, origin: int, run: seq<Flood>)
    requires IsTree(g) && Network(g, w.gws) && Sendable(w) && FixedRun(w, origin, run)
    ensures FloodInv(g, origin, run[|run| - 1]) && SentAsWanted(w, g, origin, run[|run| - 1])
    decreases |run|
  {
    hide IsTree, AtNode, TargetsAt, StartAt, FloodInv, FixedStep;
    if |run| == 1 {
      PublishStartAllowed(w.namesAt(origin), g, origin, w.gws[origin], w.m, w.role);
      StartIs(w, origin);
      StartedInv(g, origin, StartAt(w, origin));
    } else {
      var s, t := run[|run| - 2], run[|run| - 1];
      var front := run[..|run| - 1];
      assert front[|front| - 1] == s;
      FixedRunSends(w, g, origin, front);
      assert FixedStep(w, s, t);
      FixedStepSends(w, g, origin, s, t);
    }
  }

  lemma StartIs(w: Setting, v: int)
    requires v in w.gws && |w.m.content| <= MAX_AMS_CONTENT
    ensures StartAt(w, v) == PublishStart(w.namesAt(v), w.gws[v], w.m, w.role)
  {
  }

  lemma FixedStepSends(w: Setting, g: Graph, origin: int, s: Flood, t: Flood)
    requires IsTree(g) && Network(g, w.gws) && origin in g && Sendable(w) && FixedStep(w, s, t)
    requires FloodInv(g, origin, s) && SentAsWanted(w, g, origin, s)
    ensures FloodInv(g, origin, t) && SentAsWanted(w, g, origin, t)
  {
    hide IsTree, AtNode, PublishTargets, PublishStart, FloodInv;
    var p :| p in s.inFlight && p.to in w.gws && t == Delivered(s, p, TargetsAt(w, p.to, p.from));
    ArrivesOnce(g, origin, s, p);
    PublishTargetsAllowed(w.namesAt(p.to), g, p.to, w.gws[p.to], PublicationPdu(w.m, w.role), p.from);
    StepKeepsInv(g, origin, s, t, p, TargetsAt(w, p.to, p.from));
  }

  // ---------- a drained network of gateways ----------

  lemma DrainedNetwork(g: Graph, net: Routing.Net)
    requires Routing.NetOk(g, net) && Routing.Drained(g, net)
    ensures Network(g, net.gws)
  {
    forall v | v in g ensures AtNode(g, v, net.gws[v]) {
      var gw := net.gws[v];
      assert Routing.GatewayOk(g, v, gw);
      Routing.NeighborFacts(gw);
      forall c ensures Declared(gw, c) <==> c in g[v] {
        if c in g[v] {
          Routing.DrainedLink(g, net, v, c);
          Routing.DrainedLink(g, net, c, v);
          Routing.DeclaredMember(gw, Routing.NodeFor(gw.neighbors, c));
        }
        if i :| 0 <= i < |gw.declared| && gw.declared[i].continuumNbr == c {
          assert gw.declared[i] in gw.declared;
        }
      }
    }
  }

  /** Key k has the publication's subject, is limited to no continuum or role but its sender's and, by every gateway's
      hierarchy, to no unit whose name is not a prefix of the name of the sender's unit. */
  ghost predicate Matches(w: Setting, g: Graph, k: Key) {
    && k.subjectNbr == w.m.subjectNbr
    && (k.continuumNbr == 0 || k.continuumNbr == w.m.continuumNbr)
    && (k.roleNbr == 0 || k.roleNbr == w.role)
    && (k.unitNbr == 0 || forall v :: v in g ==>
          var names := w.namesAt(v);
          k.unitNbr in names && w.m.unitNbr in names && names[k.unitNbr] <= names[w.m.unitNbr])
  }

  lemma MatchesEverywhere(w: Setting, g: Graph, k: Key)
    requires Matches(w, g, k)
    ensures forall v :: v in g ==> Satisfies(w.namesAt(v), MessageOf(w.m, w.role), k)
  {
  }

  /** Each gateway on the way from origin to a lists the next one under k. */
  ghost predicate WantedAlong(g: Graph, gws: map<int, GatewayState>, origin: int, a: int, k: Key)
    requires IsTree(g) && origin in g && a in g && gws.Keys == g.Keys
  {
    forall i :: 0 <= i < |PathTo(g, origin, a)| - 1 ==>
      var v, u := PathTo(g, origin, a)[i], PathTo(g, origin, a)[i + 1];
      v in gws && Routing.NodeFor(gws[v].neighbors, u) in DgsOf(gws[v], k)
  }

  /** To a node that it lists under k, every gateway sends the publication on, but not back where it came from. */
  lemma SendsToListed(w: Setting, g: Graph, net: Routing.Net, k: Key, v: int, u: int, from: int)
    requires Routing.NetOk(g, net) && Routing.Drained(g, net) && v in g && net.gws == w.gws
    requires Sendable(w) && Satisfies(w.namesAt(v), MessageOf(w.m, w.role), k)
    requires Routing.NodeFor(net.gws[v].neighbors, u) in DgsOf(net.gws[v], k)
    ensures u in StartAt(w, v)
    ensures u != from ==> u in TargetsAt(w, v, from)
  {
    hide Routing.Drained, Wants, WantedBy, WantedByOthers, CopiesTo, MessageOf, FitsPdu, DgsOf;
    var gw, names, msg, pdu := net.gws[v], w.namesAt(v), MessageOf(w.m, w.role), PublicationPdu(w.m, w.role);
    hide Routing.NetOk;
    WantsNode(names, gw, msg, k, Routing.NodeFor(gw.neighbors, u));
    PublicationReadBack(w.m, w.role);
    DrainedNetwork(g, net);
    assert AtNode(g, v, gw);
    WantedByNodes(names, gw.petitions, msg);
    WantedByOthersNodes(names, gw.petitions, msg, from);
    AllWantedDeclared(g, net, v, names, msg);
    CopiesToNodes(gw, WantedBy(names, gw.petitions, msg), pdu);
    CopiesToNodes(gw, WantedByOthers(names, gw.petitions, msg, from), Trimmed(pdu));
    assert RelayNodes(names, gw.petitions, pdu, from) == WantedByOthers(names, gw.petitions, msg, from);
  }

  lemma WantsNode(names: UnitNames, gw: GatewayState, msg: Message, k: Key, n: RamsNode)
    requires n in DgsOf(gw, k) && Satisfies(names, msg, k)
    ensures Wants(names, gw.petitions, msg, n)
  {
    var j := FindPetition(gw.petitions, k);
    assert Satisfies(names, msg, gw.petitions[j].key) && n in gw.petitions[j].dgs;
  }

  lemma AllWantedDeclared(g: Graph, net: Routing.Net, v: int, names: UnitNames, msg: Message)
    requires Routing.NetOk(g, net) && v in g && AtNode(g, v, net.gws[v])
    ensures forall n :: Wants(names, net.gws[v].petitions, msg, n) ==>
      n in net.gws[v].neighbors && Declared(net.gws[v], n.continuumNbr)
  {
    assert Routing.GatewayOk(g, v, net.gws[v]);
  }

  /** Every gateway on the way from the origin to the subscriber gets the message. */
  lemma {:induction false} ReachesAlongPath(w: Setting, g: Graph, net: Routing.Net, origin: int, s: Flood, a: int,
                                            k: Key, at: nat)
    requires IsTree(g) && Routing.NetOk(g, net) && Routing.Drained(g, net) && origin in g && a in g
    requires net.gws == w.gws && w.gws.Keys == g.Keys && Sendable(w) && Matches(w, g, k)
    requires WantedAlong(g, w.gws, origin, a, k)
    requires FloodInv(g, origin, s) && SentAsWanted(w, g, origin, s) && s.inFlight == multiset{}
    requires at < |PathTo(g, origin, a)|
    ensures PathTo(g, origin, a)[at] in s.sentBy
  {
    MatchesEverywhere(w, g, k);
    hide IsTree, Routing.NetOk, Routing.Drained, TargetsAt, StartAt, Sendable, Satisfies, DgsOf;
    if at > 0 {
      var p := PathTo(g, origin, a);
      var u, v := p[at - 1], p[at];
      ReachesAlongPath(w, g, net, origin, s, a, k, at - 1);
      ParentsOnPath(g, origin, a, at);
      ParentsOnPath(g, origin, a, at - 1);
      assert p[at - 1 + 1] == v;
      SendsToListed(w, g, net, k, u, v, if u == origin then 0 else Parent(g, origin, u));
      assert v in SendsTo(w, g, origin, u);
      assert s.received[v] == Due(g, origin, s, v) == 1;
    }
  }

  /** The gateway at the end of a way along which everybody lists the next one is handed the publication once, and
      so are its modules that asked for it. */
  lemma ServedAlongPath(w: Setting, g: Graph, net: Routing.Net, origin: int, run: seq<Flood>, a: int, i: nat,
                        subscriber: ModuleId)
    requires IsTree(g) && Routing.NetOk(g, net) && Routing.Drained(g, net) && Sendable(w)
    requires net.gws == w.gws && w.gws.Keys == g.Keys
    requires FixedRun(w, origin, run) && run[|run| - 1].inFlight == multiset{}
    requires a in g && a != origin && i < |w.gws[a].petitions| && subscriber in w.gws[a].petitions[i].dms
    requires Matches(w, g, w.gws[a].petitions[i].key) && WantedAlong(g, w.gws, origin, a, w.gws[a].petitions[i].key)
    ensures Served(w, run, a, subscriber)
  {
    hide IsTree, Routing.NetOk, Routing.Drained, FloodInv, SentAsWanted, FixedStep, StartAt, TargetsAt;
    var s := run[|run| - 1];
    DrainedNetwork(g, net);
    FixedRunSends(w, g, origin, run);
    var p := PathTo(g, origin, a);
    ReachesAlongPath(w, g, net, origin, s, a, w.gws[a].petitions[i].key, |p| - 1);
    MatchesEverywhere(w, g, w.gws[a].petitions[i].key);
    WasReceivedOnce(g, origin, s, a);
    WantedByModulesExactly(w.namesAt(a), w.gws[a].petitions, MessageOf(w.m, w.role), subscriber);
  }

  /** The publication has arrived at gateway a exactly once, and the subscriber is among the modules that a hands it
      to, once. */
  ghost predicate Served(w: Setting, run: seq<Flood>, a: int, subscriber: ModuleId) {
    && run != [] && a in w.gws && run[|run| - 1].received[a] == 1
    && var modules := WantedByModules(w.namesAt(a), w.gws[a].petitions, MessageOf(w.m, w.role));
       subscriber in modules && NoDup(modules)
  }

  lemma InterestAlong(g: Graph, net: Routing.Net, origin: int, a: int, i: nat)
    requires IsTree(g) && Routing.NetOk(g, net) && Routing.Drained(g, net) && a in g && origin in g
    requires net.gws.Keys == g.Keys && i < |net.gws[a].petitions| && net.gws[a].petitions[i].dms != []
    requires net.gws[a].petitions[i].key.continuumNbr == 0 && Representable(net.gws[a].petitions[i].key)
    ensures WantedAlong(g, net.gws, origin, a, net.gws[a].petitions[i].key)
  {
    hide IsTree, Routing.NetOk, Routing.Drained, DgsOf, Representable;
    var p := PathTo(g, origin, a);
    forall at | 0 <= at < |p| - 1
      ensures p[at] in net.gws
      ensures Routing.NodeFor(net.gws[p[at]].neighbors, p[at + 1]) in DgsOf(net.gws[p[at]], net.gws[a].petitions[i].key)
    {
      ParentsOnPath(g, origin, a, at);
      Routing.InterestIsEverywhere(g, net, a, i, p[at]);
    }
  }

  /** Subscriptions made anywhere on a tree of gateways, their petitions propagated in any order until none
      is under way; then a publication from anywhere, relayed in any order until no copy is under way. Every
      module of another continuum that subscribed to it for all continua, under a representable key, has been
      handed it exactly once, provided the gateways' unit hierarchies agree that it matches. */
  lemma EverySubscriberIsServed(w: Setting, g: Graph, nets: seq<Routing.Net>, origin: int, run: seq<Flood>,
                                a: int, i: nat, subscriber: ModuleId)
    requires IsTree(g) && Routing.SteadyRun(g, nets) && Sendable(w)
    requires var net := nets[|nets| - 1];
      net.gws == w.gws && net.gws.Keys == g.Keys && Routing.Drained(g, net)
    requires FixedRun(w, origin, run) && run[|run| - 1].inFlight == multiset{}
    requires a in g && a != origin && i < |w.gws[a].petitions| && subscriber in w.gws[a].petitions[i].dms
    requires var k := w.gws[a].petitions[i].key;
      k.continuumNbr == 0 && Representable(k) && Matches(w, g, k)
    ensures Served(w, run, a, subscriber)
  {
    hide IsTree, Routing.Drained, FixedRun, WantedAlong, Matches, Representable;
    var net := nets[|nets| - 1];
    Routing.NetStaysOk(g, nets);
    hide Routing.NetOk, Routing.SteadyRun;
    OriginIn(w, origin, run);
    InterestAlong(g, net, origin, a, i);
    ServedAlongPath(w, g, net, origin, run, a, i, subscriber);
  }

  lemma OriginIn(w: Setting, origin: int, run: seq<Flood>)
    requires Sendable(w) && FixedRun(w, origin, run)
    ensures origin in w.gws
  {
  }

  lemma WasReceivedOnce(g: Graph, origin: int, s: Flood, v: int)
    requires IsTree(g) && origin in g && FloodInv(g, origin, s) && v in g && v != origin && v in s.sentBy
    ensures s.received[v] == 1
  {
    assert s.received[v] <= Due(g, origin, s, v);
  }
}
