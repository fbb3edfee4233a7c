/** Messages for one continuum: on a tree of gateways the declarations that gateways pass on make each of them
    the conduit to everything behind it, and a private message follows the tree path to its destination. */
module Conduits {
  import opened Bytes
  import opened Enclosures
  import opened Envelope
  import opened Lists
  import opened Onward
  import opened Options
  import opened Petitions
  import opened PetitionLaws
  import opened Relaying
  import opened RelayLaws
  import opened Routing
  import opened Trees
  import Delivery

  // ---------- petitions that come from one neighbour only ----------

  /** No assertion of k was ever sent to the gateway of continuum c. */
  ghost predicate Avoids(sent: seq<Rpdu>, k: Key, c: int) {
    forall r :: r in sent && r.PetitionRpdu? && r.cc == PETITION_ASSERTION && r.key == k ==> r.dest != c
  }

  /** No local module wants k, no gateway but up does, and up has never been asked for it. */
  ghost predicate OneWay(gw: GatewayState, k: Key, up: RamsNode) {
    && (forall i :: 0 <= i < |gw.petitions| && gw.petitions[i].key == k ==>
          gw.petitions[i].dms == [] && forall n :: n in gw.petitions[i].dgs ==> n == up)
    && Avoids(gw.sent, k, up.continuumNbr)
  }

  /** What does not change while petitions are asserted. */
  ghost predicate Settling(gw: GatewayState, k: Key, up: RamsNode) {
    && k.continuumNbr == 0 && up in gw.neighbors
    && (forall n :: n in gw.declared ==> n in gw.neighbors)
    && (forall n, m :: n in gw.neighbors && m in gw.neighbors && n.continuumNbr == m.continuumNbr ==> n == m)
    && (forall i :: 0 <= i < |gw.petitions| && gw.petitions[i].key == k ==> NoDup(gw.petitions[i].dgs))
  }

  lemma {:induction false} AssertionsMembers(nodes: seq<RamsNode>, k: Key)
    ensures forall r :: r in Assertions(nodes, k) ==>
      r.PetitionRpdu? && r.key == k && exists n :: n in nodes && n.continuumNbr == r.dest
  {
    if nodes != [] {
      AssertionsMembers(nodes[..|nodes| - 1], k);
      forall r | r in Assertions(nodes, k) ensures exists n :: n in nodes && n.continuumNbr == r.dest {
        if r in Assertions(nodes[..|nodes| - 1], k) {
          var n :| n in nodes[..|nodes| - 1] && n.continuumNbr == r.dest;
          assert n in nodes;
        } else {
          assert nodes[|nodes| - 1] in nodes;
        }
      }
    }
  }

  lemma AllAlike<T>(s: seq<T>, x: T)
    requires NoDup(s) && s != [] && forall y :: y in s ==> y == x
    ensures s == [x]
  {
    NoDupBound(s, {x});
    assert s[0] in s;
  }

  /** Whom petition i has yet to be sent to does not include up, if it is the petition for k. */
  lemma UpIsNotAsked(gw: GatewayState, i: nat, k: Key, up: RamsNode)
    requires OneWay(gw, k, up) && Settling(gw, k, up) && i < |gw.petitions|
    requires gw.petitions[i].key == k && Assertable(gw, gw.petitions[i])
    ensures forall n :: n in AssertionSet(gw, gw.petitions[i]) ==> n.continuumNbr != up.continuumNbr
  {
    var p := gw.petitions[i];
    AllAlike(p.dgs, up);
    assert DomainNodes(gw, k) == gw.declared;
  }

  lemma AssertPetitionOneWay(gw: GatewayState, i: nat, k: Key, up: RamsNode)
    requires OneWay(gw, k, up) && Settling(gw, k, up) && i < |gw.petitions| && AssertPetition(gw, i).ok
    ensures OneWay(AssertPetition(gw, i).gw, k, up)
  {
    var p := gw.petitions[i];
    if Assertable(gw, p) {
      var nodes := AssertionSet(gw, p);
      SendAssertionsResult(gw, nodes, p.key);
      AssertionsMembers(nodes, p.key);
      if p.key == k { UpIsNotAsked(gw, i, k, up); }
    }
  }

  lemma {:induction false} EstablishOneWay(gw: GatewayState, from: RamsNode, skip: nat, j: nat, k: Key, up: RamsNode)
    requires OneWay(gw, k, up) && Settling(gw, k, up) && skip < |gw.petitions| && j <= |gw.petitions|
    requires Establish(gw, from, skip, j).ok
    ensures OneWay(Establish(gw, from, skip, j).gw, k, up) && Settling(Establish(gw, from, skip, j).gw, k, up)
    decreases |gw.petitions| - j
  {
    if j < |gw.petitions| {
      var p, s := gw.petitions[j], EstablishOne(gw, from, skip, j);
      if p.key == k && Assertable(gw, p) { UpIsNotAsked(gw, j, k, up); }
      assert OneWay(s.gw, k, up) && Settling(s.gw, k, up);
      EstablishOneWay(s.gw, from, skip, j + 1, k, up);
    }
  }

  lemma {:induction false} CancelToAllOneWay(gw: GatewayState, i: nat, k: Key, up: RamsNode)
    requires OneWay(gw, k, up) && i < |gw.petitions|
    ensures OneWay(CancelToAll(gw, i).gw, k, up)
    decreases |gw.petitions[i].sgs|
  {
    if gw.petitions[i].sgs != [] {
      var s := CancelTo(gw, i, gw.petitions[i].sgs[0]);
      assert OneWay(s.gw, k, up);
      if s.ok { CancelToAllOneWay(s.gw, i, k, up); }
    }
  }

  lemma CancelPetitionOneWay(gw: GatewayState, i: nat, k: Key, up: RamsNode)
    requires OneWay(gw, k, up) && i < |gw.petitions|
    ensures OneWay(CancelPetition(gw, i).gw, k, up)
  {
    CancelToAllOneWay(gw, i, k, up);
  }

  lemma AssertionOneWay(gw: GatewayState, from: RamsNode, key: Key, k: Key, up: RamsNode)
    requires OneWay(gw, k, up) && Settling(gw, k, up) && Representable(k) && Occurs(key)
    requires Representable(key) ==> from !in DgsOf(gw, key)
    requires key == k ==> from == up
    requires HandlePetitionAssertion(gw, from, key, false).ok
    ensures OneWay(HandlePetitionAssertion(gw, from, key, false).gw, k, up)
  {
    hide Establish, AssertPetition, ReadBack, Representable, Occurs;
    if !ConfirmsPlayback(gw, from, key) {
      NotedOneWay(gw, from, key, k, up);
      var i, noted := FindPetition(gw.petitions, key), NoteAssertion(gw, from, key, false);
      hide NoteAssertion, ConfirmsPlayback, OneWay, Settling;
      var s := if key.subjectNbr < 0 then Establish(noted, from, i, 0) else Step(noted, true);
      if key.subjectNbr < 0 { EstablishOneWay(noted, from, i, 0, k, up); }
      AssertPetitionOneWay(s.gw, i, k, up);
    }
  }

  lemma NotedOneWay(gw: GatewayState, from: RamsNode, key: Key, k: Key, up: RamsNode)
    requires OneWay(gw, k, up) && Settling(gw, k, up) && Representable(k) && Occurs(key)
    requires Representable(key) ==> from !in DgsOf(gw, key)
    requires key == k ==> from == up
    ensures OneWay(NoteAssertion(gw, from, key, false), k, up) && Settling(NoteAssertion(gw, from, key, false), k, up)
  {
    hide ReadBack, Representable, Occurs;
    var i := FindPetition(gw.petitions, key);
    ReadBackKeepsApart(key);
    if i < |gw.petitions| && key == k { AppendNoDup(gw.petitions[i].dgs, from); }
  }

  lemma CancellationOneWay(gw: GatewayState, from: RamsNode, key: Key, k: Key, up: RamsNode)
    requires OneWay(gw, k, up) && NoRetraction(gw, Receive(from, PETITION_CANCELLATION, key))
    ensures OneWay(HandlePetitionCancellation(gw, from, key, false).gw, k, up)
  {
    hide CancelPetition;
    var i := FindPetition(gw.petitions, key);
    if i < |gw.petitions| && from in gw.petitions[i].dgs {
      var p := gw.petitions[i].(dgs := RemoveFirst(gw.petitions[i].dgs, from), fromPlayback := false);
      var h := SetPetition(gw, i, p);
      assert OneWay(h, k, up);
      CancelPetitionOneWay(h, i, k, up);
    }
  }

  lemma SubscriptionOneWay(gw: GatewayState, e: Event, k: Key, up: RamsNode)
    requires OneWay(gw, k, up) && Settling(gw, k, up)
    requires Representable(k) && !e.Receive? && Occurs(e.key) && e.key != k && Apply(gw, e).ok
    ensures OneWay(Apply(gw, e).gw, k, up)
  {
    hide CancelPetition, AssertPetition, ReadBack, Representable, Occurs;
    var i, m, key := FindPetition(gw.petitions, e.key), e.m, e.key;
    ReadBackKeepsApart(key);
    if key.continuumNbr != gw.local && m != gw.self {
      if e.Unsubscribe? {
        if i < |gw.petitions| {
          var h := SetPetition(gw, i, gw.petitions[i].(dms := RemoveFirst(gw.petitions[i].dms, m)));
          assert OneWay(h, k, up);
          CancelPetitionOneWay(h, i, k, up);
        }
      } else if i == |gw.petitions| || m !in gw.petitions[i].dms {
        var h := if i == |gw.petitions|
                 then gw.(petitions := gw.petitions + [PetitionState(ReadBack(key), [m], [], [], false)])
                 else SetPetition(gw, i, gw.petitions[i].(dms := gw.petitions[i].dms + [m], fromPlayback := false));
        assert OneWay(h, k, up) && Settling(h, k, up);
        AssertPetitionOneWay(h, i, k, up);
      }
    }
  }

  /** An event leaves petition k one-way, as long as no module subscribes to it and no neighbour but up
      asserts it. */
  lemma ApplyOneWay(gw: GatewayState, e: Event, k: Key, up: RamsNode)
    requires OneWay(gw, k, up) && Settling(gw, k, up) && Representable(k) && Occurs(e.key) && Apply(gw, e).ok
    requires NoRetraction(gw, e)
    requires !e.Receive? ==> e.key != k
    requires e.Receive? ==> e.from in gw.neighbors
    requires e.Receive? && e.cc == PETITION_ASSERTION ==>
      (Representable(e.key) ==> e.from !in DgsOf(gw, e.key)) && (e.key == k ==> e.from == up)
    ensures OneWay(Apply(gw, e).gw, k, up)
  {
    hide HandlePetitionAssertion, HandlePetitionCancellation, AddPetitioner, RemovePetitioner, FindPetition,
        Representable;
    if !e.Receive? {
      SubscriptionOneWay(gw, e, k, up);
    } else if e.cc == PETITION_CANCELLATION {
      CancellationOneWay(gw, e.from, e.key, k, up);
    } else if e.cc == PETITION_ASSERTION {
      if e.key.subjectNbr == 0 - e.from.continuumNbr {
        var d := NoteDeclaration(gw, e.from);
        assert DgsOf(d, e.key) == DgsOf(gw, e.key);
        AssertionOneWay(d, e.from, e.key, k, up);
      } else if Declared(gw, e.from.continuumNbr) {
        AssertionOneWay(gw, e.from, e.key, k, up);
      }
    }
  }

  // ---------- the network ----------

  /** What v knows of continuum d comes to it from the neighbour on the way to d, and is not sent back there. */
  ghost predicate OneWayTo(g: Graph, net: Net, d: int, v: int)
    requires IsTree(g) && NetOk(g, net) && d in g && v in g && d != v
  {
    assert GatewayOk(g, v, net.gws[v]);
    OneWay(net.gws[v], DeclarationKey(d), NodeFor(net.gws[v].neighbors, Parent(g, d, v)))
  }

  ghost predicate AllOneWay(g: Graph, net: Net, d: int)
    requires IsTree(g) && NetOk(g, net)
  {
    forall v {:trigger OneWayTo(g, net, d, v)} :: d in g && v in g && d != v ==> OneWayTo(g, net, d, v)
  }

  /** Every petition on d's pseudo-subject is the declaration of d's gateway. */
  ghost predicate OnlyDeclared(g: Graph, net: Net, d: int) {
    forall v, i :: v in net.gws && 0 <= i < |net.gws[v].petitions|
                   && net.gws[v].petitions[i].key.subjectNbr == 0 - d ==>
      d in g && net.gws[v].petitions[i].key == DeclarationKey(d)
  }

  /** The event is no module's subscription or unsubscription under d's pseudo-subject. */
  predicate Apart(ev: NetEvent, d: int) { ev.LocalEvent? ==> ev.e.key.subjectNbr != 0 - d }

  ghost predicate StepsApart(g: Graph, s: Net, t: Net, d: int) {
    exists ev :: NetStep(g, s, t, ev) && !TakesRetraction(s, ev) && Apart(ev, d)
  }

  /** A steady run on which no module subscribes or unsubscribes under d's pseudo-subject. */
  ghost predicate RunApart(g: Graph, run: seq<Net>, d: int) {
    && run != [] && NetStartup(g, run[0])
    && (forall i :: 0 < i < |run| ==> StepsApart(g, run[i - 1], run[i], d))
  }

  lemma ApartIsSteady(g: Graph, run: seq<Net>, d: int)
    requires RunApart(g, run, d)
    ensures SteadyRun(g, run)
  {
    hide NetStep, TakesRetraction, NetStartup;
    forall i | 0 < i < |run| ensures StepsSteadily(g, run[i - 1], run[i]) {
      assert StepsApart(g, run[i - 1], run[i], d);
    }
  }

  lemma OrdinaryIsApart(g: Graph, run: seq<Net>, d: int)
    requires OrdinaryRun(g, run) && d > 0
    ensures RunApart(g, run, d)
  {
    hide NetStep, TakesRetraction, NetStartup, AllOrdinary;
    forall i | 0 < i < |run| ensures StepsApart(g, run[i - 1], run[i], d) {
      var front := run[..i];
      forall j | 0 < j < |front| ensures StepsOrdinarily(g, front[j - 1], front[j]) {
        assert StepsOrdinarily(g, run[j - 1], run[j]);
      }
      OrdinaryStaysOk(g, front);
      assert front[|front| - 1] == run[i - 1];
      assert StepsOrdinarily(g, run[i - 1], run[i]);
      var ev :| NetStep(g, run[i - 1], run[i], ev) && OrdinaryEvent(ev);
      OrdinaryStepKeeps(g, run[i - 1], run[i], ev);
    }
  }

  lemma SettlingFacts(g: Graph, v: int, gw: GatewayState, d: int, up: RamsNode)
    requires GatewayOk(g, v, gw) && up in gw.neighbors && 0 < d < 0x8000
    ensures Settling(gw, DeclarationKey(d), up) && Representable(DeclarationKey(d))
  {
    hide Inv;
    NeighborFacts(gw);
    DeclarationRepresentable(d);
    forall i | 0 <= i < |gw.petitions| && gw.petitions[i].key == DeclarationKey(d) ensures NoDup(gw.petitions[i].dgs) {
      InvUniqueKeys(gw);
      assert FindPetition(gw.petitions, DeclarationKey(d)) == i;
      assert NoDup(DgsOf(gw, DeclarationKey(d)));
    }
  }

  lemma StartupOneWay(g: Graph, net: Net, d: int)
    requires IsTree(g) && NetStartup(g, net) && d > 0
    ensures NetOk(g, net) && AllOneWay(g, net, d) && OnlyDeclared(g, net, d)
  {
    StartupOk(g, net);
    forall v | d in g && v in g && d != v ensures OneWayTo(g, net, d, v) {
      assert StartedAt(g, v, net.gws[v]);
      StartsOneWay(v, net.gws[v], d, NodeFor(net.gws[v].neighbors, Parent(g, d, v)));
    }
    forall v | v in net.gws
      ensures |net.gws[v].petitions| == 1 && v in g && net.gws[v].petitions[0].key == DeclarationKey(v)
    {
      assert StartedAt(g, v, net.gws[v]);
      StartupKey(v, net.gws[v].self, true, net.gws[v].neighbors);
    }
  }

  lemma StartsOneWay(v: int, gw: GatewayState, d: int, up: RamsNode)
    requires gw == Startup(v, gw.self, true, gw.neighbors) && GoodNeighbors(v, gw.neighbors) && d != v
    ensures OneWay(gw, DeclarationKey(d), up)
  {
    ReadBackIff(DeclarationKey(v));
  }

  /** The node by which v knows its neighbour towards d. */
  ghost function Up(g: Graph, net: Net, d: int, v: int): (n: RamsNode)
    requires IsTree(g) && NetOk(g, net) && d in g && v in g && d != v
    ensures n in net.gws[v].neighbors && n.continuumNbr == Parent(g, d, v) && 0 < d < 0x8000
  {
    assert GatewayOk(g, v, net.gws[v]) && GatewayOk(g, d, net.gws[d]);
    NodeFor(net.gws[v].neighbors, Parent(g, d, v))
  }

  lemma LocalKeepsOneWay(g: Graph, s: Net, t: Net, v: int, e: Event, d: int)
    requires IsTree(g) && NetOk(g, s) && NetStep(g, s, t, LocalEvent(v, e)) && NetOk(g, t)
    requires AllOneWay(g, s, d) && OnlyDeclared(g, s, d) && e.key.subjectNbr != 0 - d
    ensures AllOneWay(g, t, d) && OnlyDeclared(g, t, d)
  {
    hide IsTree, Apply, GatewayOk, LinkOk, OneWay, Settling, Parent, ReadBack;
    ApplyKeepsKeys(s.gws[v], e);
    ReadBackKeepsApart(e.key);
    forall w | d in g && w in g && d != w ensures OneWayTo(g, t, d, w) {
      assert OneWayTo(g, s, d, w);
      if w == v {
        var up := Up(g, s, d, v);
        assert GatewayOk(g, v, s.gws[v]);
        SettlingFacts(g, v, s.gws[v], d, up);
        ApplyOneWay(s.gws[v], e, DeclarationKey(d), up);
      }
    }
    KeysStayDeclared(g, s, t, v, e, d);
  }

  /** No petition on d's pseudo-subject but the declaration comes to be, if the event is under none other. */
  lemma KeysStayDeclared(g: Graph, s: Net, t: Net, v: int, e: Event, d: int)
    requires OnlyDeclared(g, s, d) && v in s.gws && t.gws == s.gws[v := Apply(s.gws[v], e).gw]
    requires ReadBack(e.key).subjectNbr == 0 - d ==> d in g && ReadBack(e.key) == DeclarationKey(d)
    ensures OnlyDeclared(g, t, d)
  {
    hide Apply, ReadBack;
    ApplyKeepsKeys(s.gws[v], e);
    forall w, i | w in t.gws && 0 <= i < |t.gws[w].petitions| && t.gws[w].petitions[i].key.subjectNbr == 0 - d
      ensures d in g && t.gws[w].petitions[i].key == DeclarationKey(d)
    {
      if w != v || i < |s.gws[v].petitions| {
        assert t.gws[w].petitions[i].key == s.gws[w].petitions[i].key;
      } else {
        assert t.gws[w].petitions[i].key == ReadBack(e.key);
      }
    }
  }

  /** What a gateway sends under d's pseudo-subject is about the declaration. */
  lemma SentUnderPseudoSubject(g: Graph, net: Net, a: int, r: Rpdu, d: int)
    requires NetOk(g, net) && OnlyDeclared(g, net, d) && a in g && r in net.gws[a].sent && r.PetitionRpdu?
    requires r.key.subjectNbr == 0 - d
    ensures d in g && 0 < d < 0x8000 && r.key == DeclarationKey(d) == ReadBack(r.key)
  {
    hide DgssWithoutDuplicates, Settled, SgsMirrorsLog, ReadBack, Read, LinksOk, Declares;
    var sender := net.gws[a];
    assert GatewayOk(g, a, sender);
    assert NamesPetition(sender, r.key);
    var w :| 0 <= w < |sender.petitions|
             && (r.key == sender.petitions[w].key || r.key == ReadBack(sender.petitions[w].key));
    ReadBackKeepsApart(sender.petitions[w].key);
    KeyIsRead(sender, w);
    assert GatewayOk(g, d, net.gws[d]);
    ReadBackIff(DeclarationKey(d));
    DeclarationRepresentable(d);
  }

  /** A declaration of d that reaches b comes from b's neighbour towards d. */
  lemma DeclarationsComeFromUp(g: Graph, net: Net, a: int, b: int, r: Rpdu, d: int)
    requires IsTree(g) && NetOk(g, net) && AllOneWay(g, net, d) && a in g && b in g[a] && b in g && d in g && d != b
    requires r in net.gws[a].sent && r.PetitionRpdu? && r.dest == b
    requires r.cc == PETITION_ASSERTION && r.key == DeclarationKey(d)
    ensures a == Parent(g, d, b)
  {
    hide NetOk, Parent, Depth;
    ParentOrChild(g, d, a, b);
    if a != d && b == Parent(g, d, a) {
      assert OneWayTo(g, net, d, a);
      assert Up(g, net, d, a).continuumNbr == b;
    }
  }

  lemma ArrivalKeepsOneWay(g: Graph, s: Net, t: Net, a: int, b: int, d: int)
    requires IsTree(g) && NetOk(g, s) && NetStep(g, s, t, Arrival(a, b)) && !TakesRetraction(s, Arrival(a, b))
    requires NetOk(g, t) && AllOneWay(g, s, d) && OnlyDeclared(g, s, d)
    ensures AllOneWay(g, t, d) && OnlyDeclared(g, t, d)
  {
    hide IsTree, Apply, OneWay, Settling, Parent, TakesNote, HandlePetitionRpdu, Inv, Declares, DgssWithoutDuplicates;
    hide ReadBack, OnlyDeclared;
    var n, gw, taken := NodeFor(s.gws[b].neighbors, a), s.gws[b], Taken(s, a, b);
    var r := Channel(s, a, b)[taken];
    var e := Receive(n, r.cc, r.key);
    assert LinkOk(s.gws[a], gw, n, taken) && GatewayOk(g, a, s.gws[a]) && GatewayOk(g, b, gw);
    ReceiverTakes(s.gws[a], gw, n, taken);
    ChannelMembers(s.gws[a].sent, b);
    assert r in Channel(s, a, b);
    ApplyKeepsKeys(gw, e);
    ReadBackKeepsApart(r.key);
    if r.key.subjectNbr == 0 - d { SentUnderPseudoSubject(g, s, a, r, d); }
    KeysStayDeclared(g, s, t, b, e, d);
    if d in g && d != b {
      assert OneWayTo(g, s, d, b);
      var up := Up(g, s, d, b);
      SettlingFacts(g, b, gw, d, up);
      if r.cc == PETITION_ASSERTION && r.key == DeclarationKey(d) { DeclarationsComeFromUp(g, s, a, b, r, d); }
      ApplyOneWay(gw, e, DeclarationKey(d), up);
    }
    forall w | d in g && w in g && d != w ensures OneWayTo(g, t, d, w) {
      assert OneWayTo(g, s, d, w);
    }
  }

  lemma {:induction false} NetStaysOneWay(g: Graph, run: seq<Net>, d: int)
    requires IsTree(g) && RunApart(g, run, d) && d > 0
    ensures NetOk(g, run[|run| - 1]) && AllOneWay(g, run[|run| - 1], d) && OnlyDeclared(g, run[|run| - 1], d)
    decreases |run|
  {
    hide NetOk, NetStep, NetStartup, AllOneWay, OnlyDeclared, IsTree, SteadyRun, TakesRetraction;
    ApartIsSteady(g, run, d);
    NetStaysOk(g, run);
    if |run| == 1 {
      StartupOneWay(g, run[0], d);
    } else {
      var s, t := run[|run| - 2], run[|run| - 1];
      var front := run[..|run| - 1];
      assert front[|front| - 1] == s;
      NetStaysOneWay(g, front, d);
      assert StepsApart(g, s, t, d);
      var ev :| NetStep(g, s, t, ev) && !TakesRetraction(s, ev) && Apart(ev, d);
      match ev
      case LocalEvent(v, e) => LocalKeepsOneWay(g, s, t, v, e, d);
      case Arrival(a, b) => ArrivalKeepsOneWay(g, s, t, a, b, d);
    }
  }

  // ---------- conduits and private messages ----------

  lemma {:induction false} ConduitIs(petitions: seq<PetitionState>, d: int, n: RamsNode)
    requires exists i :: 0 <= i < |petitions| && petitions[i].key.subjectNbr == 0 - d && petitions[i].dgs != []
    requires forall i, m :: 0 <= i < |petitions| && petitions[i].key.subjectNbr == 0 - d && m in petitions[i].dgs ==>
        m == n
    ensures Conduit(petitions, d) == Some(n)
  {
    var i :| 0 <= i < |petitions| && petitions[i].key.subjectNbr == 0 - d && petitions[i].dgs != [];
    if petitions[0].key.subjectNbr == 0 - d && petitions[0].dgs != [] {
      assert petitions[0].dgs[0] in petitions[0].dgs;
    } else {
      assert petitions[1..][i - 1] == petitions[i];
      ConduitIs(petitions[1..], d, n);
    }
  }

  /** Once no petition RPDU is under way, every gateway's conduit to any other continuum of the tree is its
      neighbour on the way there. */
  lemma ConduitIsOnTheWay(g: Graph, net: Net, d: int, v: int)
    requires IsTree(g) && NetOk(g, net) && AllOneWay(g, net, d) && OnlyDeclared(g, net, d) && Drained(g, net)
    requires d in g && v in g && d != v
    ensures Conduit(net.gws[v].petitions, d) == Some(Up(g, net, d, v))
  {
    hide IsTree, LinkOk, Drained, Inv;
    var gw, up, k := net.gws[v], Up(g, net, d, v), DeclarationKey(d);
    assert GatewayOk(g, d, net.gws[d]) && GatewayOk(g, v, gw);
    assert net.gws[d].petitions[0].dms != [];
    InterestIsEverywhere(g, net, d, 0, v);
    assert OneWayTo(g, net, d, v);
    var j := FindPetition(gw.petitions, k);
    assert gw.petitions[j].dgs != [];
    ConduitIs(gw.petitions, d, up);
  }

  // ---------- no conduit elsewhere ----------

  lemma {:induction false} NoConduit(petitions: seq<PetitionState>, d: int)
    requires forall i :: 0 <= i < |petitions| && petitions[i].key.subjectNbr == 0 - d ==> petitions[i].dgs == []
    ensures Conduit(petitions, d) == None
  {
    if petitions != [] {
      assert petitions[0].key.subjectNbr == 0 - d ==> petitions[0].dgs == [];
      NoConduit(petitions[1..], d);
    }
  }

  lemma {:induction false} LastAssertion(sent: seq<Rpdu>, dest: int, k: Key)
    requires LastCode(sent, dest, k) == PETITION_ASSERTION
    ensures exists r :: r in sent && r.PetitionRpdu? && r.cc == PETITION_ASSERTION && r.dest == dest && r.key == k
  {
    var r := sent[|sent| - 1];
    if !(r.PetitionRpdu? && r.dest == dest && r.key == k) {
      LastAssertion(sent[..|sent| - 1], dest, k);
      var w :| w in sent[..|sent| - 1] && w.PetitionRpdu? && w.cc == PETITION_ASSERTION && w.dest == dest && w.key == k;
      assert w in sent;
    }
  }

  /** Nobody asserts its own declaration back to a gateway. */
  lemma NotAskedForItself(g: Graph, net: Net, v: int, n: RamsNode)
    requires IsTree(g) && NetOk(g, net) && AllOneWay(g, net, v) && v in g && n in net.gws[v].neighbors
    ensures n !in DgsOf(net.gws[v], DeclarationKey(v))
  {
    hide IsTree, Inv, Declares, Parent, DgsOf;
    var gw, k, w := net.gws[v], DeclarationKey(v), n.continuumNbr;
    assert GatewayOk(g, v, gw);
    assert w in g[v];
    ParentOrChild(g, v, v, w);
    DepthZero(g, v, v);
    assert w != v && Parent(g, v, w) == v;
    assert OneWayTo(g, net, v, w) && GatewayOk(g, w, net.gws[w]);
    assert LinkOk(net.gws[w], gw, NodeFor(gw.neighbors, w), Taken(net, w, v));
    NeighborFacts(gw);
    assert NodeFor(gw.neighbors, w) == n;
    DeclarationRepresentable(v);
    if n in DgsOf(gw, k) {
      var channel := SentTo(net.gws[w].sent, v);
      LastAssertion(channel[..Taken(net, w, v)], v, k);
      var r :| r in channel[..Taken(net, w, v)] && r.PetitionRpdu? && r.cc == PETITION_ASSERTION && r.dest == v
          && r.key == k;
      ChannelMembers(net.gws[w].sent, v);
    }
  }

  /** A gateway has no conduit to its own continuum, nor to one outside the tree. */
  lemma NoConduitThere(g: Graph, net: Net, v: int, h: int)
    requires IsTree(g) && NetOk(g, net) && AllOneWay(g, net, h) && OnlyDeclared(g, net, h)
    requires v in g && h > 0 && (h == v || h !in g)
    ensures Conduit(net.gws[v].petitions, h) == None
  {
    hide IsTree, LinkOk, Declares;
    var gw := net.gws[v];
    assert GatewayOk(g, v, gw);
    forall i | 0 <= i < |gw.petitions| && gw.petitions[i].key.subjectNbr == 0 - h ensures gw.petitions[i].dgs == [] {
      assert h in g && h == v && gw.petitions[i].key == DeclarationKey(v);
      OnlyPetitionFor(g, v, gw, i);
      if gw.petitions[i].dgs != [] {
        var n := gw.petitions[i].dgs[0];
        assert n in gw.petitions[i].dgs;
        NeighborFacts(gw);
        NotAskedForItself(g, net, v, n);
      }
    }
    NoConduit(gw.petitions, h);
  }

  lemma OnlyPetitionFor(g: Graph, v: int, gw: GatewayState, i: nat)
    requires GatewayOk(g, v, gw) && i < |gw.petitions| && gw.petitions[i].key == DeclarationKey(v)
    ensures DgsOf(gw, DeclarationKey(v)) == gw.petitions[i].dgs
  {
    hide Inv;
    InvUniqueKeys(gw);
    DeclarationRepresentable(v);
    assert FindPetition(gw.petitions, DeclarationKey(v)) == i;
  }

  // ---------- messages for one continuum ----------

  /** A private message, or an announcement to one continuum: the one that the reader finds in its envelope. */
  predicate Targeted(pdu: Pdu) {
    && EnvelopeHeader(pdu, ContinuumNbr) != 0
    && (EnvelopeHeader(pdu, ControlCode) == SEND_ON_RECEPTION || EnvelopeHeader(pdu, ControlCode)
        == ANNOUNCE_ON_RECEPTION)
  }

  /** Whom a gateway that has received such a message sends it on to. */
  function RelayTargets(gw: GatewayState, pdu: Pdu, from: int): seq<int> {
    if EnvelopeHeader(pdu, ControlCode) == ANNOUNCE_ON_RECEPTION then AnnounceTargets(gw, pdu, from)
    else CopiesTo(gw, PrivateNodes(gw, EnvelopeHeader(pdu, ContinuumNbr)), Trimmed(pdu))
  }

  lemma SentToConduit(gw: GatewayState, pdu: Pdu, from: int, up: RamsNode)
    requires Targeted(pdu) && EnvelopeHeader(pdu, ContinuumNbr) > 0 && EnvelopeHeader(pdu, ContinuumNbr) != gw.local
    requires Conduit(gw.petitions, EnvelopeHeader(pdu, ContinuumNbr)) == Some(up) && Declared(gw, up.continuumNbr)
    ensures RelayTargets(gw, pdu, from) == [up.continuumNbr] == TargetedStart(gw, pdu)
  {
    hide Conduit, EnvelopeHeader, Trimmed, CopiesTo;
    CopiesAreReached(gw, [up], pdu);
    CopiesAreReached(gw, [up], Trimmed(pdu));
    assert Reached(gw, [up][1..]) == [];
  }

  lemma SentNowhere(gw: GatewayState, pdu: Pdu, from: int)
    requires Targeted(pdu)
    ensures EnvelopeHeader(pdu, ContinuumNbr) == gw.local ==> RelayTargets(gw, pdu, from) == []
    ensures (EnvelopeHeader(pdu, ContinuumNbr) > 0 ==> Conduit(gw.petitions, EnvelopeHeader(pdu, ContinuumNbr)) == None)
            ==> TargetedStart(gw, pdu) == []
  {
    hide Conduit, EnvelopeHeader, Trimmed, CopiesTo;
    CopiesAreReached(gw, [], pdu);
    CopiesAreReached(gw, [], Trimmed(pdu));
  }

  /** Networks in which messages for continuum h are followed: on a tree, no petition RPDU is under way, and only h's
      gateway has petitioned for its pseudo-subject. */
  ghost predicate AtRest(g: Graph, net: Net, h: int) {
    IsTree(g) && NetOk(g, net) && Drained(g, net) && (h > 0 ==> AllOneWay(g, net, h) && OnlyDeclared(g, net, h))
  }

  lemma SentOnTheWay(g: Graph, net: Net, pdu: Pdu, v: int, from: int)
    requires IsTree(g) && AtRest(g, net, EnvelopeHeader(pdu, ContinuumNbr)) && v in g && Targeted(pdu)
    requires EnvelopeHeader(pdu, ContinuumNbr) in g && EnvelopeHeader(pdu, ContinuumNbr) != v
    ensures RelayTargets(net.gws[v], pdu, from) == [Parent(g, EnvelopeHeader(pdu, ContinuumNbr), v)]
    ensures TargetedStart(net.gws[v], pdu) == [Parent(g, EnvelopeHeader(pdu, ContinuumNbr), v)]
  {
    hide IsTree, LinkOk, Inv, AllOneWay, Drained, RelayTargets, TargetedStart, Conduit, Parent, EnvelopeHeader;
    var h := EnvelopeHeader(pdu, ContinuumNbr);
    LocalIs(g, net, h);
    var gw, up := net.gws[v], Up(g, net, h, v);
    ConduitIsOnTheWay(g, net, h, v);
    assert GatewayOk(g, v, gw);
    DrainedLink(g, net, v, Parent(g, h, v));
    DrainedLink(g, net, Parent(g, h, v), v);
    DeclaredMember(gw, up);
    SentToConduit(gw, pdu, from, up);
  }

  /** Whom the last gateway of a trace sends the message to: its origin by ForwardTargetedMessage, any other as the
      handler of received messages does. */
  function Next(gws: map<int, GatewayState>, pdu: Pdu, trace: seq<int>): seq<int>
    requires trace != [] && trace[|trace| - 1] in gws
  {
    var gw := gws[trace[|trace| - 1]];
    if |trace| == 1 then TargetedStart(gw, pdu) else RelayTargets(gw, pdu, trace[|trace| - 2])
  }

  /** The gateways a message from origin has been through: each one sent it to the next. */
  ghost predicate Trace(gws: map<int, GatewayState>, pdu: Pdu, origin: int, trace: seq<int>) {
    && trace != [] && trace[0] == origin && (forall i :: 0 <= i < |trace| ==> trace[i] in gws)
    && (forall i :: 0 < i < |trace| ==> trace[i] in Next(gws, pdu, trace[..i]))
  }

  /** The gateways that a message for continuum h passes: those of the tree path; only its origin, if h has no
      gateway in the tree. */
  ghost function Way(g: Graph, origin: int, h: int): (way: seq<int>)
    requires IsTree(g) && origin in g
    ensures way != [] && way[0] == origin && NoDup(way)
    ensures forall v :: v in way ==> v in g
    ensures h !in g || h == origin ==> way == [origin]
  {
    DepthZero(g, origin, origin);
    if h in g then PathTo(g, origin, h) else [origin]
  }

  lemma {:induction false} TraceFollowsHeader(g: Graph, net: Net, pdu: Pdu, origin: int, trace: seq<int>)
    requires IsTree(g) && origin in g && Targeted(pdu)
    requires AtRest(g, net, EnvelopeHeader(pdu, ContinuumNbr)) && Trace(net.gws, pdu, origin, trace)
    ensures trace <= Way(g, origin, EnvelopeHeader(pdu, ContinuumNbr))
    decreases |trace|
  {
    hide IsTree, AtRest, Way, Next, Targeted, EnvelopeHeader;
    if |trace| > 1 {
      var front, w := trace[..|trace| - 1], trace[|trace| - 1];
      assert Trace(net.gws, pdu, origin, front) by { assert forall i :: 0 < i < |front| ==> front[..i] == trace[..i]; }
      TraceFollowsHeader(g, net, pdu, origin, front);
      assert w in Next(net.gws, pdu, front);
      NextHop(g, net, pdu, origin, front);
      assert trace == front + [w];
    }
  }

  /** Where a message that has come along its way goes next. */
  lemma NextHop(g: Graph, net: Net, pdu: Pdu, origin: int, trace: seq<int>)
    requires IsTree(g) && origin in g && AtRest(g, net, EnvelopeHeader(pdu, ContinuumNbr)) && Targeted(pdu)
    requires trace != [] && trace <= Way(g, origin, EnvelopeHeader(pdu, ContinuumNbr))
    ensures trace[|trace| - 1] in net.gws
    ensures var way := Way(g, origin, EnvelopeHeader(pdu, ContinuumNbr));
      Next(net.gws, pdu, trace) == if trace == way then [] else [way[|trace|]]
  {
    hide IsTree, AllOneWay, Drained, RelayTargets, TargetedStart, EnvelopeHeader, NetOk, Targeted, Way;
    var h, last := EnvelopeHeader(pdu, ContinuumNbr), trace[|trace| - 1];
    var way, from := Way(g, origin, h), if |trace| == 1 then 0 else trace[|trace| - 2];
    assert last == way[|trace| - 1];
    assert last in way;
    LocalIs(g, net, last);
    if h in g && last != h {
      OneOnWay(g, origin, h, |trace|);
      SentOnTheWay(g, net, pdu, last, from);
    } else {
      if h in g && h != origin { EndOfWay(g, origin, h, |trace| - 1); }
      assert trace == way;
      if last != h || last == origin {
        if h > 0 { NoConduitThere(g, net, origin, h); }
      }
      SentNowhere(net.gws[last], pdu, from);
    }
  }

  lemma OneOnWay(g: Graph, origin: int, h: int, i: nat)
    requires IsTree(g) && origin in g && h in g && 0 < i <= |Way(g, origin, h)| && Way(g, origin, h)[i - 1] != h
    ensures i < |Way(g, origin, h)| && Way(g, origin, h)[i] == Parent(g, h, Way(g, origin, h)[i - 1])
  {
    hide IsTree;
    Delivery.ParentsOnPath(g, origin, h, i - 1);
  }

  lemma EndOfWay(g: Graph, origin: int, h: int, i: nat)
    requires IsTree(g) && origin in g && h in g && i < |Way(g, origin, h)| && Way(g, origin, h)[i] == h
    ensures i == |Way(g, origin, h)| - 1
  {
    hide IsTree;
    NoDupLast(PathTo(g, origin, h), i);
  }

  lemma NoDupLast(path: seq<int>, i: nat)
    requires NoDup(path) && i < |path| && path[i] == path[|path| - 1]
    ensures i == |path| - 1
  {
  }

  lemma RunComesToRest(g: Graph, nets: seq<Net>, h: int)
    requires IsTree(g) && SteadyRun(g, nets) && (h > 0 ==> RunApart(g, nets, h))
    requires nets[|nets| - 1].gws.Keys == g.Keys && Drained(g, nets[|nets| - 1])
    ensures AtRest(g, nets[|nets| - 1], h)
  {
    NetStaysOk(g, nets);
    if h > 0 { NetStaysOneWay(g, nets, h); }
  }

  /** A private message, or an announcement to one continuum, on a tree of gateways at rest, as long as no module has
      subscribed to the pseudo-subject of the continuum that its envelope reads as: it follows the tree
      path from its origin to the gateway of the continuum that its envelope reads as, sent on to exactly one
      gateway until it is there; and if that continuum has no gateway in the tree, or is the origin's own, it is
      never sent at all. */
  lemma TargetedMessageFollowsHeader(g: Graph, nets: seq<Net>, origin: int, pdu: Pdu, trace: seq<int>)
    requires IsTree(g) && SteadyRun(g, nets) && origin in g && Targeted(pdu)
    requires var h := EnvelopeHeader(pdu, ContinuumNbr); h > 0 ==> RunApart(g, nets, h)
    requires var net := nets[|nets| - 1];
      net.gws.Keys == g.Keys && Drained(g, net) && Trace(net.gws, pdu, origin, trace)
    ensures var net, way := nets[|nets| - 1], Way(g, origin, EnvelopeHeader(pdu, ContinuumNbr));
      trace <= way && Next(net.gws, pdu, trace) == if trace == way then [] else [way[|trace|]]
  {
    hide IsTree, NetStartup, StepsSteadily, AtRest, Drained, Targeted, EnvelopeHeader, Next, Way, RunApart;
    var net := nets[|nets| - 1];
    RunComesToRest(g, nets, EnvelopeHeader(pdu, ContinuumNbr));
    TraceFollowsHeader(g, net, pdu, origin, trace);
    NextHop(g, net, pdu, origin, trace);
  }

  /** The message gets to d's gateway, and that gateway takes it to be for its own modules. */
  ghost predicate Arrives(gws: map<int, GatewayState>, pdu: Pdu, origin: int, d: int) {
    exists trace :: Trace(gws, pdu, origin, trace) && trace[|trace| - 1] == d
                    && EnvelopeHeader(pdu, ContinuumNbr) == gws[d].local
  }

  lemma WayIsTraced(g: Graph, net: Net, pdu: Pdu, origin: int, d: int)
    requires IsTree(g) && origin in g && d in g && AtRest(g, net, EnvelopeHeader(pdu, ContinuumNbr)) && Targeted(pdu)
    requires EnvelopeHeader(pdu, ContinuumNbr) == d
    ensures Trace(net.gws, pdu, origin, Way(g, origin, d)) && Way(g, origin, d)[|Way(g, origin, d)| - 1] == d
  {
    hide IsTree, NetOk, AllOneWay, Drained, EnvelopeHeader, Next, Targeted;
    var way := Way(g, origin, d);
    assert way[|way| - 1] == d;
    hide Way;
    forall i | 0 <= i < |way| ensures way[i] in net.gws {
      LocalIs(g, net, way[i]);
    }
    forall i | 0 < i < |way| ensures way[i] in Next(net.gws, pdu, way[..i]) {
      NextHop(g, net, pdu, origin, way[..i]);
    }
  }

  /** A targeted message for d gets to d's gateway, and is for d's modules there, iff the low octet of d is below
      128. For other d the reader takes it for one to d - 256: TargetedMessageFollowsHeader says where it goes. */
  lemma TargetedMessageArrivesIff(g: Graph, nets: seq<Net>, origin: int, d: int, unitNbr: int, sourceId: int,
                                  destId: int, subjectNbr: int, enclosure: seq<byte>, controlCode: int)
    requires IsTree(g) && RunApart(g, nets, d) && origin in g && d in g
    requires var net := nets[|nets| - 1]; net.gws.Keys == g.Keys && Drained(g, net)
    requires controlCode == SEND_ON_RECEPTION || controlCode == ANNOUNCE_ON_RECEPTION
    requires AMS_HEADER_LENGTH <= |enclosure| < 0x10000
    ensures var pdu := ModuleEnvelopeBytes(d, unitNbr, sourceId, destId, subjectNbr, enclosure, controlCode);
      && IsPdu(pdu)
      && EnvelopeHeader(pdu, ContinuumNbr) == (if Lo(d) < 0x80 then d else d - 0x100)
      && (Arrives(nets[|nets| - 1].gws, pdu, origin, d) <==> Lo(d) < 0x80)
  {
    hide IsTree, NetStartup, StepsApart, AllOneWay, OnlyDeclared, NetOk, Drained, ModuleEnvelopeBytes, EnvelopeHeader;
    hide Trace, Lo, Way;
    var net := nets[|nets| - 1];
    ApartIsSteady(g, nets, d);
    NetStaysOk(g, nets);
    LocalIs(g, net, d);
    RunComesToRest(g, nets, d);
    HeaderOfTargeted(d, unitNbr, sourceId, destId, subjectNbr, enclosure, controlCode);
    var pdu := ModuleEnvelopeBytes(d, unitNbr, sourceId, destId, subjectNbr, enclosure, controlCode);
    if Lo(d) < 0x80 { WayIsTraced(g, net, pdu, origin, d); }
  }

  lemma HeaderOfTargeted(d: int, unitNbr: int, sourceId: int, destId: int, subjectNbr: int, enclosure: seq<byte>,
                         controlCode: int)
    requires 0 < d < 0x8000 && AMS_HEADER_LENGTH <= |enclosure| < 0x10000
    requires controlCode == SEND_ON_RECEPTION || controlCode == ANNOUNCE_ON_RECEPTION
    ensures var pdu := ModuleEnvelopeBytes(d, unitNbr, sourceId, destId, subjectNbr, enclosure, controlCode);
      && IsPdu(pdu) && Targeted(pdu)
      && EnvelopeHeader(pdu, ContinuumNbr) == if Lo(d) < 0x80 then d else d - 0x100
  {
    Fields(d, unitNbr, sourceId, destId, subjectNbr, enclosure, controlCode);
    ResidueKeeps(d, 0x8000);
    ResidueKeeps(d, 0x100);
    ResidueKeeps(|enclosure|, 0x10000);
    ResidueKeeps(controlCode, 16);
    EnvelopesAgree(d, unitNbr, sourceId, destId, subjectNbr, enclosure, controlCode);
    hide ModuleEnvelopeBytes, EnvelopeBytes, EnvelopeHeader;
  }

  // ---------- why no module may subscribe to the pseudo-subject ----------

  lemma {:induction false} SomeConduit(petitions: seq<PetitionState>, d: int, i: nat)
    requires i < |petitions| && petitions[i].key.subjectNbr == 0 - d && petitions[i].dgs != []
    ensures Conduit(petitions, d).Some?
  {
    if i > 0 { SomeConduit(petitions[1..], d, i - 1); }
  }

  /** If a module of gateway a has subscribed to the pseudo-subject of continuum h for all continua, then at rest every
      other gateway has a conduit to h. So messages for h leave their origin even if h has no gateway in the tree or is
      the origin's own continuum, and no such message goes where TargetedMessageFollowsHeader says. */
  lemma PseudoSubscriptionMisleads(g: Graph, nets: seq<Net>, a: int, i: nat, origin: int, pdu: Pdu)
    requires IsTree(g) && SteadyRun(g, nets) && a in g && origin in g && origin != a && Targeted(pdu)
    requires var net, h := nets[|nets| - 1], EnvelopeHeader(pdu, ContinuumNbr);
      && net.gws.Keys == g.Keys && Drained(g, net) && h > 0 && (h !in g || h == origin)
      && i < |net.gws[a].petitions| && net.gws[a].petitions[i].dms != []
      && var k := net.gws[a].petitions[i].key; Representable(k) && k.continuumNbr == 0 && k.subjectNbr == 0 - h
    ensures var net, h := nets[|nets| - 1], EnvelopeHeader(pdu, ContinuumNbr);
      Way(g, origin, h) == [origin] && Next(net.gws, pdu, [origin]) != []
  {
    hide IsTree, NetStartup, StepsSteadily, Drained, Targeted, EnvelopeHeader, Representable, CopiesTo, Inv, LinkOk;
    var net, h := nets[|nets| - 1], EnvelopeHeader(pdu, ContinuumNbr);
    NetStaysOk(g, nets);
    InterestIsEverywhere(g, net, a, i, origin);
    var gw, k := net.gws[origin], net.gws[a].petitions[i].key;
    assert GatewayOk(g, origin, gw);
    SomeConduit(gw.petitions, h, FindPetition(gw.petitions, k));
    ConduitIsKnown(gw.petitions, h);
    var c := Conduit(gw.petitions, h).value;
    NeighborFacts(gw);
    DrainedLink(g, net, origin, c.continuumNbr);
    DrainedLink(g, net, c.continuumNbr, origin);
    DeclaredMember(gw, c);
    CopiesAreReached(gw, [c], pdu);
    ReachedOne(gw, c);
    TargetedCode(pdu);
    assert Way(g, origin, h) == [origin];
  }

  lemma ReachedOne(gw: GatewayState, c: RamsNode)
    requires Declared(gw, c.continuumNbr)
    ensures Reached(gw, [c]) != []
  {
  }

  lemma TargetedCode(pdu: Pdu)
    requires Targeted(pdu)
    ensures EnvelopeHeader(pdu, ControlCode) == SEND_ON_RECEPTION || EnvelopeHeader(pdu, ControlCode)
        == ANNOUNCE_ON_RECEPTION
  {
  }
}
