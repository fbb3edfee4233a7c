/** Petition propagation and relaying together: on a tree of gateways, once the petition RPDUs under way
    have been handled, every publication reaches every gateway that has a subscriber for it. */
module Routing {
  import opened Envelope
  import opened Lists
  import opened Onward
  import opened Options
  import opened Petitions
  import opened PetitionLaws
  import opened Playback
  import opened Trees

  // ---------- the channel from one gateway to another ----------

  /** The petition RPDUs sent to dest, in order. */
  function SentTo(sent: seq<Rpdu>, dest: int): seq<Rpdu> {
    if sent == [] then []
    else
      var front, r := SentTo(sent[..|sent| - 1], dest), sent[|sent| - 1];
      if r.PetitionRpdu? && r.dest == dest then front + [r] else front
  }

  lemma {:induction false} SentToGrows(a: seq<Rpdu>, b: seq<Rpdu>, dest: int)
    requires a <= b
    ensures SentTo(a, dest) <= SentTo(b, dest)
    decreases |b|
  {
    if a != b { SentToGrows(a, b[..|b| - 1], dest); }
  }

  lemma {:induction false} LastCodeOfChannel(sent: seq<Rpdu>, dest: int, k: Key)
    ensures LastCode(SentTo(sent, dest), dest, k) == LastCode(sent, dest, k)
  {
    if sent != [] {
      LastCodeOfChannel(sent[..|sent| - 1], dest, k);
      LastCodeAppend(SentTo(sent[..|sent| - 1], dest), sent[|sent| - 1], dest, k);
    }
  }

  predicate About(r: Rpdu, k: Key) { r.PetitionRpdu? && r.key == k }

  lemma {:induction false} LastCodeSkips(sent: seq<Rpdu>, t: nat, dest: int, k: Key)
    requires t <= |sent| && forall p :: t <= p < |sent| ==> !About(sent[p], k)
    ensures LastCode(sent, dest, k) == LastCode(sent[..t], dest, k)
  {
    if t < |sent| {
      LastCodeSkips(sent[..|sent| - 1], t, dest, k);
      assert sent[..|sent| - 1][..t] == sent[..t];
    } else {
      assert sent[..t] == sent;
    }
  }

  lemma {:induction false} ChannelNeverReasserts(sent: seq<Rpdu>, dest: int)
    requires NeverReasserts(sent)
    ensures NeverReasserts(SentTo(sent, dest))
  {
    if sent != [] {
      var front, r := sent[..|sent| - 1], sent[|sent| - 1];
      forall p | 0 <= p < |front| && Asserts(front[p])
        ensures LastCode(front[..p], front[p].dest, front[p].key) != PETITION_ASSERTION
      {
        assert sent[p] == front[p] && sent[..p] == front[..p];
      }
      ChannelNeverReasserts(front, dest);
      if r.PetitionRpdu? && r.dest == dest {
        LastCodeOfChannel(front, dest, r.key);
        assert sent[..|front|] == front;
        NeverReassertsAppend(SentTo(front, dest), r);
      }
    }
  }

  lemma {:induction false} ChannelMembers(sent: seq<Rpdu>, dest: int)
    ensures forall r :: r in SentTo(sent, dest) ==> r in sent && r.PetitionRpdu? && r.dest == dest
  {
    if sent != [] { ChannelMembers(sent[..|sent| - 1], dest); }
  }

  // ---------- what an RPDU does to the receiver's interest ----------

  ghost predicate DgssWithoutDuplicates(g: GatewayState) {
    forall k :: Representable(k) ==> NoDup(DgsOf(g, k))
  }

  /** The receiver lists the sender under key k, if that is representable, iff the RPDU was an assertion; nobody
      else's interest and, unless the sender declares itself, nobody's declaration changes. */
  ghost predicate TakesNote(g: GatewayState, h: GatewayState, from: RamsNode, cc: int, k: Key) {
    && h.declared == (if cc == PETITION_ASSERTION && k.subjectNbr == 0 - from.continuumNbr
                      then NoteDeclaration(g, from).declared else g.declared)
    && (forall other, n :: Representable(other) ==>
          (n in DgsOf(h, other) <==>
             if other == k && n == from then cc == PETITION_ASSERTION else n in DgsOf(g, other)))
    && DgssWithoutDuplicates(h)
  }

  /** The DGS of key k after the RPDU. */
  function NotedDgs(dgs: seq<RamsNode>, from: RamsNode, cc: int): seq<RamsNode> {
    if cc == PETITION_ASSERTION then dgs + [from] else RemoveFirst(dgs, from)
  }

  lemma NotedDgsTakesNote(g: GatewayState, h: GatewayState, from: RamsNode, cc: int, k: Key)
    requires DgssWithoutDuplicates(g)
    requires cc == PETITION_ASSERTION && Representable(k) ==> from !in DgsOf(g, k)
    requires h.declared == (if cc == PETITION_ASSERTION && k.subjectNbr == 0 - from.continuumNbr
                            then NoteDeclaration(g, from).declared else g.declared)
    requires forall other :: Representable(other) ==>
      DgsOf(h, other) == if other == k then NotedDgs(DgsOf(g, k), from, cc) else DgsOf(g, other)
    ensures TakesNote(g, h, from, cc, k)
  {
    hide DgsOf, Representable;
    if cc != PETITION_ASSERTION && Representable(k) { RemoveFirstNoDup(DgsOf(g, k), from); }
    forall other | Representable(other) ensures NoDup(DgsOf(h, other)) {
      assert NoDup(DgsOf(g, other));
    }
  }

  lemma RpduTakesNote(g: GatewayState, from: RamsNode, cc: int, k: Key)
    requires Occurs(k) && DgssWithoutDuplicates(g)
    requires cc == PETITION_ASSERTION || cc == PETITION_CANCELLATION
    requires cc == PETITION_ASSERTION ==>
      (Representable(k) ==> from !in DgsOf(g, k))
          && (k.subjectNbr == 0 - from.continuumNbr || Declared(g, from.continuumNbr))
    requires NoRetraction(g, Receive(from, cc, k))
    ensures TakesNote(g, HandlePetitionRpdu(g, from, cc, k).gw, from, cc, k)
  {
    hide HandlePetitionAssertion, HandlePetitionCancellation, FindPetition, Representable, Occurs, TakesNote;
    var d := if cc == PETITION_ASSERTION && k.subjectNbr == 0 - from.continuumNbr then NoteDeclaration(g, from) else g;
    assert d.petitions == g.petitions;
    var h := HandlePetitionRpdu(g, from, cc, k).gw;
    if cc == PETITION_ASSERTION {
      AssertionInterest(d, from, k, false);
    } else {
      CancellationInterest(g, from, k, false);
    }
    forall other | Representable(other)
      ensures DgsOf(h, other) == if other == k then NotedDgs(DgsOf(g, k), from, cc) else DgsOf(g, other)
    {
      assert DgsOf(d, other) == DgsOf(g, other);
    }
    NotedDgsTakesNote(g, h, from, cc, k);
  }

  // ---------- the network ----------

  /** The gateways by continuum, and how many of the petition RPDUs from one to another the receiver has
      handled. RPDUs between two gateways arrive in the order they were sent. */
  datatype Net = Net(gws: map<int, GatewayState>, taken: map<(int, int), nat>)

  function Taken(net: Net, a: int, b: int): nat {
    if (a, b) in net.taken then net.taken[(a, b)] else 0
  }

  function Channel(net: Net, a: int, b: int): seq<Rpdu>
    requires a in net.gws
  {
    SentTo(net.gws[a].sent, b)
  }

  /** A gateway in good order at node v of the tree. */
  ghost predicate GatewayOk(g: Graph, v: int, gw: GatewayState) {
    && Inv(gw) && Declares(gw) && DgssWithoutDuplicates(gw)
    && gw.local == v && 0 < v < 0x8000 && gw.isTree && v in g
    && (forall c :: c in g[v] <==> exists n :: n in gw.neighbors && n.continuumNbr == c)
  }

  /** The node by which a gateway knows its neighbour of continuum c. */
  ghost function NodeFor(neighbors: seq<RamsNode>, c: int): (n: RamsNode)
    ensures n.continuumNbr == c
    ensures (exists m :: m in neighbors && m.continuumNbr == c) ==> n in neighbors
  {
    if m :| m in neighbors && m.continuumNbr == c then m else RamsNode(c, 0, "")
  }

  /** What node n (the sender as its receiver knows it) has to do with the first t RPDUs of its channel:
      it has declared itself iff it has been heard at all, and it is listed under a representable key iff the
      last RPDU about that key was an assertion. */
  ghost predicate LinkOk(sender: GatewayState, receiver: GatewayState, n: RamsNode, t: nat) {
    var channel := SentTo(sender.sent, receiver.local);
    && t <= |channel|
    && channel != [] && channel[0] == PetitionRpdu(receiver.local, PETITION_ASSERTION, DeclarationKey(sender.local))
    && (n in receiver.declared <==> t > 0)
    && (forall k :: Representable(k) ==>
          (n in DgsOf(receiver, k) <==> LastCode(channel[..t], receiver.local, k) == PETITION_ASSERTION))
  }

  ghost predicate NetOk(g: Graph, net: Net) {
    && Undirected(g) && net.gws.Keys == g.Keys
    && (forall v {:trigger GatewayOk(g, v, net.gws[v])} :: v in g ==> GatewayOk(g, v, net.gws[v]))
    && LinksOk(g, net)
  }

  ghost predicate LinksOk(g: Graph, net: Net)
    requires Undirected(g) && net.gws.Keys == g.Keys
  {
    forall a, b {:trigger LinkOk(net.gws[a], net.gws[b], NodeFor(net.gws[b].neighbors, a), Taken(net, a, b))} ::
      a in g && b in g[a] ==> LinkOk(net.gws[a], net.gws[b], NodeFor(net.gws[b].neighbors, a), Taken(net, a, b))
  }

  lemma LocalIs(g: Graph, net: Net, v: int)
    requires NetOk(g, net) && v in g
    ensures v in net.gws && net.gws[v].local == v && 0 < v < 0x8000
  {
    assert GatewayOk(g, v, net.gws[v]);
  }

  /** The sender's later sends do not matter to what has been taken already. */
  lemma SenderMovesOn(sender: GatewayState, later: GatewayState, receiver: GatewayState, n: RamsNode, t: nat)
    requires LinkOk(sender, receiver, n, t) && Later(sender, later, DeclarationKey(sender.local))
    ensures LinkOk(later, receiver, n, t)
  {
    SentToGrows(sender.sent, later.sent, receiver.local);
    assert SentTo(sender.sent, receiver.local)[..t] == SentTo(later.sent, receiver.local)[..t];
  }

  /** Nor does the receiver's business with others. */
  lemma ReceiverHearsOthers(sender: GatewayState, receiver: GatewayState, later: GatewayState, n: RamsNode, t: nat)
    requires LinkOk(sender, receiver, n, t) && later.local == receiver.local
    requires n in later.declared <==> n in receiver.declared
    requires forall k :: Representable(k) ==> (n in DgsOf(later, k) <==> n in DgsOf(receiver, k))
    ensures LinkOk(sender, later, n, t)
  {
  }

  /** The receiver takes the next RPDU, which is not the sender's retraction. */
  lemma ReceiverTakes(sender: GatewayState, receiver: GatewayState, n: RamsNode, t: nat)
    requires LinkOk(sender, receiver, n, t) && Inv(sender) && Declares(sender) && Inv(receiver)
    requires DgssWithoutDuplicates(receiver)
    requires n in receiver.neighbors && n.continuumNbr == sender.local
    requires t < |SentTo(sender.sent, receiver.local)|
    requires var r := SentTo(sender.sent, receiver.local)[t];
      r.PetitionRpdu? ==> NoRetraction(receiver, Receive(n, r.cc, r.key))
    ensures var r := SentTo(sender.sent, receiver.local)[t];
      && r.PetitionRpdu? && r.dest == receiver.local && Read(r.key)
      && (r.cc == PETITION_ASSERTION && Representable(r.key) ==> n !in DgsOf(receiver, r.key))
      && var h := HandlePetitionRpdu(receiver, n, r.cc, r.key).gw;
         TakesNote(receiver, h, n, r.cc, r.key) && (h.local == receiver.local ==> LinkOk(sender, h, n, t + 1))
  {
    hide HandlePetitionRpdu, Inv, FindPetition, Representable, Read;
    var channel := SentTo(sender.sent, receiver.local);
    var r := channel[t];
    ChannelMembers(sender.sent, receiver.local);
    assert r in channel;
    SentKeyIsRead(sender, r);
    NeighborFacts(receiver);
    var h := HandlePetitionRpdu(receiver, n, r.cc, r.key).gw;
    if r.cc == PETITION_ASSERTION {
      assert NeverReasserts(channel) by { InvNeverReasserts(sender); ChannelNeverReasserts(sender.sent,
          receiver.local); }
      assert Representable(r.key) ==> n !in DgsOf(receiver, r.key);
      if t > 0 { DeclaredMember(receiver, n); }
    }
    RpduTakesNote(receiver, n, r.cc, r.key);
    LinkAdvances(sender, receiver, h, n, t);
  }

  lemma SentKeyIsRead(sender: GatewayState, r: Rpdu)
    requires Inv(sender) && r in sender.sent && r.PetitionRpdu?
    ensures Read(r.key)
  {
    hide ReadBack, Read;
    var w :| 0 <= w < |sender.petitions|
             && (r.key == sender.petitions[w].key || r.key == ReadBack(sender.petitions[w].key));
    assert Read(sender.petitions[w].key);
    ReadBackKeepsApart(sender.petitions[w].key);
  }

  lemma NeighborFacts(gw: GatewayState)
    requires Inv(gw)
    ensures forall n :: n in gw.declared ==> n in gw.neighbors
    ensures forall n :: n in gw.neighbors ==> n.continuumNbr > 0
    ensures forall n, m :: n in gw.neighbors && m in gw.neighbors && n.continuumNbr == m.continuumNbr ==> n == m
    ensures forall i, n :: 0 <= i < |gw.petitions| && n in gw.petitions[i].dgs ==> n in gw.neighbors
  {
  }

  lemma InvNeverReasserts(gw: GatewayState)
    requires Inv(gw)
    ensures NeverReasserts(gw.sent)
  {
  }

  lemma DeclaredMember(gw: GatewayState, n: RamsNode)
    requires n in gw.declared
    ensures Declared(gw, n.continuumNbr)
  {
    var i :| 0 <= i < |gw.declared| && gw.declared[i] == n;
  }

  lemma LinkAdvances(sender: GatewayState, receiver: GatewayState, h: GatewayState, n: RamsNode, t: nat)
    requires LinkOk(sender, receiver, n, t) && t < |SentTo(sender.sent, receiver.local)|
    requires n.continuumNbr == sender.local
    requires forall m :: m in receiver.declared && m.continuumNbr == n.continuumNbr ==> m == n
    requires var r := SentTo(sender.sent, receiver.local)[t];
      && r.PetitionRpdu? && r.dest == receiver.local && TakesNote(receiver, h, n, r.cc, r.key)
    ensures h.local == receiver.local ==> LinkOk(sender, h, n, t + 1)
  {
    var channel := SentTo(sender.sent, receiver.local);
    var r := channel[t];
    assert channel[..t + 1] == channel[..t] + [r];
    forall k ensures LastCode(channel[..t + 1], receiver.local, k)
                  == if k == r.key then r.cc else LastCode(channel[..t], receiver.local, k) {
      LastCodeAppend(channel[..t], r, receiver.local, k);
    }
  }

  datatype NetEvent = LocalEvent(v: int, e: Event) | Arrival(a: int, b: int)

  /** A local module subscribes or unsubscribes, to whatever subject, or the next petition RPDU from a reaches b; all
      sends that follow succeed. */
  ghost predicate NetStep(g: Graph, s: Net, t: Net, ev: NetEvent) {
    match ev
    case LocalEvent(v, e) =>
      && v in s.gws && !e.Receive? && Noticed(e.key)
      && Apply(s.gws[v], e).ok
      && t == s.(gws := s.gws[v := Apply(s.gws[v], e).gw])
    case Arrival(a, b) =>
      && a in g && a in s.gws && b in g[a] && b in s.gws
      && Taken(s, a, b) < |Channel(s, a, b)|
      && (exists n :: n in s.gws[b].neighbors && n.continuumNbr == a)
      && var r := Channel(s, a, b)[Taken(s, a, b)];
         r.PetitionRpdu? &&
         var e := Receive(NodeFor(s.gws[b].neighbors, a), r.cc, r.key);
         && Apply(s.gws[b], e).ok
         && t == Net(s.gws[b := Apply(s.gws[b], e).gw], s.taken[(a, b) := Taken(s, a, b) + 1])
  }

  /** The step is the arrival of a cancellation that the receiver takes for the sender's retraction: it is on the
      sender's pseudo-subject, and the receiver lists the sender under its key. */
  ghost predicate TakesRetraction(s: Net, ev: NetEvent) {
    && ev.Arrival? && ev.a in s.gws && ev.b in s.gws && Taken(s, ev.a, ev.b) < |Channel(s, ev.a, ev.b)|
    && var r := Channel(s, ev.a, ev.b)[Taken(s, ev.a, ev.b)];
       r.PetitionRpdu? && !NoRetraction(s.gws[ev.b], Receive(NodeFor(s.gws[ev.b].neighbors, ev.a), r.cc, r.key))
  }

  /** A gateway handles an event other than a retraction, all sends succeeding. */
  lemma GatewayStaysOk(g: Graph, v: int, gw: GatewayState, e: Event)
    requires GatewayOk(g, v, gw) && Occurs(e.key) && NoRetraction(gw, e)
    requires e.Receive? ==> e.from in gw.neighbors
    requires Apply(gw, e).ok && DgssWithoutDuplicates(Apply(gw, e).gw)
    ensures GatewayOk(g, v, Apply(gw, e).gw) && Later(gw, Apply(gw, e).gw, DeclarationKey(gw.local))
    ensures Apply(gw, e).gw.neighbors == gw.neighbors && Apply(gw, e).gw.local == gw.local
  {
    hide Apply, Inv, ReadBack, Occurs;
    ApplyKeepsInv(gw, e);
    InvUniqueKeys(gw);
    ApplyKeepsDeclares(gw, e);
    ApplyKeepsKeys(gw, e);
  }

  lemma InvUniqueKeys(gw: GatewayState)
    requires Inv(gw)
    ensures UniqueKeys(gw)
  {
  }

  lemma LocalKeepsOk(g: Graph, s: Net, t: Net, v: int, e: Event)
    requires NetOk(g, s) && NetStep(g, s, t, LocalEvent(v, e))
    ensures NetOk(g, t)
  {
    hide Apply, Inv, GatewayOk, LinkOk, Declares, FindPetition;
    var gw, h := s.gws[v], Apply(s.gws[v], e).gw;
    LocalGatewayStaysOk(g, v, gw, e);
    forall a, b | a in g && b in g[a]
      ensures LinkOk(t.gws[a], t.gws[b], NodeFor(t.gws[b].neighbors, a), Taken(t, a, b))
    {
      var n := NodeFor(s.gws[b].neighbors, a);
      assert LinkOk(s.gws[a], s.gws[b], n, Taken(s, a, b));
      if a == v {
        SenderMovesOn(gw, h, s.gws[b], n, Taken(s, a, b));
      } else if b == v {
        ReceiverHearsOthers(s.gws[a], gw, h, n, Taken(s, a, b));
      }
    }
  }

  lemma LocalGatewayStaysOk(g: Graph, v: int, gw: GatewayState, e: Event)
    requires GatewayOk(g, v, gw) && !e.Receive? && Noticed(e.key) && Apply(gw, e).ok
    ensures var h := Apply(gw, e).gw;
      GatewayOk(g, v, h) && Later(gw, h, DeclarationKey(gw.local)) && h.neighbors == gw.neighbors && h.local == gw.local
      && h.declared == gw.declared && forall k :: Representable(k) ==> DgsOf(h, k) == DgsOf(gw, k)
  {
    hide Apply, Inv, FindPetition;
    SubscriptionInterest(gw, e);
    forall k | Representable(k) ensures NoDup(DgsOf(Apply(gw, e).gw, k)) { assert NoDup(DgsOf(gw, k)); }
    GatewayStaysOk(g, v, gw, e);
  }

  lemma ArrivalKeepsOk(g: Graph, s: Net, t: Net, a: int, b: int)
    requires NetOk(g, s) && NetStep(g, s, t, Arrival(a, b)) && !TakesRetraction(s, Arrival(a, b))
    ensures NetOk(g, t)
  {
    hide Inv, LinkOk, Declares, FindPetition, HandlePetitionRpdu;
    var n, gw, taken := NodeFor(s.gws[b].neighbors, a), s.gws[b], Taken(s, a, b);
    var r := Channel(s, a, b)[taken];
    var e := Receive(n, r.cc, r.key);
    var h := Apply(gw, e).gw;
    assert LinkOk(s.gws[a], gw, n, taken) && GatewayOk(g, a, s.gws[a]) && GatewayOk(g, b, gw);
    ReceiverTakes(s.gws[a], gw, n, taken);
    GatewayStaysOk(g, b, gw, e);
    forall x, y | x in g && y in g[x]
      ensures LinkOk(t.gws[x], t.gws[y], NodeFor(t.gws[y].neighbors, x), Taken(t, x, y))
    {
      var m := NodeFor(s.gws[y].neighbors, x);
      assert LinkOk(s.gws[x], s.gws[y], m, Taken(s, x, y));
      if x == b {
        SenderMovesOn(gw, h, s.gws[y], m, Taken(s, x, y));
      } else if y == b && x != a {
        OthersUnchanged(gw, h, n, r.cc, r.key, m);
        ReceiverHearsOthers(s.gws[x], gw, h, m, Taken(s, x, y));
      }
    }
  }

  lemma OthersUnchanged(gw: GatewayState, h: GatewayState, from: RamsNode, cc: int, k: Key, m: RamsNode)
    requires TakesNote(gw, h, from, cc, k) && m != from
    ensures m in h.declared <==> m in gw.declared
    ensures forall other :: Representable(other) ==> (m in DgsOf(h, other) <==> m in DgsOf(gw, other))
  {
  }

  // ---------- from startup onwards ----------

  /** A cancellation on the sender's pseudo-subject undeclares it, if the sender is listed under its key, whatever the
      key's other numbers are. */
  lemma RetractionUndeclares(gw: GatewayState, n: RamsNode, k: Key)
    requires NodesKnown(gw) && !NoRetraction(gw, Receive(n, PETITION_CANCELLATION, k))
    requires HandlePetitionRpdu(gw, n, PETITION_CANCELLATION, k).ok
    ensures n !in HandlePetitionRpdu(gw, n, PETITION_CANCELLATION, k).gw.declared
  {
    hide Retract;
    var i := FindPetition(gw.petitions, k);
    var p := gw.petitions[i].(dgs := RemoveFirst(gw.petitions[i].dgs, n), fromPlayback := false);
    RetractUndeclares(SetPetition(gw, i, p), n, 0);
    RemoveFirstNoDup(gw.declared, n);
  }

  /** A cancellation from a declared neighbour undeclares it iff it is on that neighbour's pseudo-subject and the
      neighbour is listed under its key. */
  lemma CancellationUndeclaresIff(gw: GatewayState, n: RamsNode, k: Key)
    requires NodesKnown(gw) && n in gw.declared && HandlePetitionRpdu(gw, n, PETITION_CANCELLATION, k).ok
    ensures n !in HandlePetitionRpdu(gw, n, PETITION_CANCELLATION, k).gw.declared
            <==> k.subjectNbr == 0 - n.continuumNbr && n in DgsOf(gw, k)
  {
    hide Retract, CancelPetition;
    if k.subjectNbr == 0 - n.continuumNbr && n in DgsOf(gw, k) { RetractionUndeclares(gw, n, k); }
  }

  /** All gateways of the tree have just sent their declarations, and none has arrived. */
  ghost predicate NetStartup(g: Graph, net: Net) {
    && Undirected(g) && net.gws.Keys == g.Keys && net.taken == map[]
    && (forall v :: v in g ==> StartedAt(g, v, net.gws[v]))
  }

  ghost predicate StartedAt(g: Graph, v: int, gw: GatewayState) {
    && v in g && gw == Startup(v, gw.self, true, gw.neighbors) && GoodNeighbors(v, gw.neighbors)
    && (forall c :: c in g[v] <==> exists n :: n in gw.neighbors && n.continuumNbr == c)
  }

  lemma {:induction false} DeclarationsChannel(nodes: seq<RamsNode>, local: int, dest: int)
    requires NoDup(nodes)
    requires forall n, m :: n in nodes && m in nodes && n.continuumNbr == m.continuumNbr ==> n == m
    ensures SentTo(Declarations(nodes, local), dest)
         == if exists n :: n in nodes && n.continuumNbr == dest
            then [PetitionRpdu(dest, PETITION_ASSERTION, DeclarationKey(local))] else []
  {
    if nodes != [] {
      var front, last := nodes[..|nodes| - 1], nodes[|nodes| - 1];
      assert forall n :: n in nodes <==> n in front || n == last;
      assert last !in front;
      DeclarationsChannel(front, local, dest);
      assert Declarations(nodes, local)[..|front|] == Declarations(front, local);
    }
  }

  lemma StartupGatewayOk(g: Graph, v: int, gw: GatewayState)
    requires StartedAt(g, v, gw)
    ensures GatewayOk(g, v, gw)
    ensures gw.declared == [] && forall k :: DgsOf(gw, k) == []
  {
    hide ReadBack, Inv;
    StartupKey(v, gw.self, true, gw.neighbors);
    StartupInv(v, gw.self, true, gw.neighbors);
    ReadBackIff(DeclarationKey(v));
  }

  lemma StartupOk(g: Graph, net: Net)
    requires NetStartup(g, net)
    ensures NetOk(g, net)
  {
    hide GatewayOk, Startup, StartedAt, LinkOk, DgsOf;
    forall v | v in g
      ensures GatewayOk(g, v, net.gws[v]) && net.gws[v].declared == [] && forall k :: DgsOf(net.gws[v], k) == []
    {
      StartupGatewayOk(g, v, net.gws[v]);
    }
    forall a, b | a in g && b in g[a]
      ensures LinkOk(net.gws[a], net.gws[b], NodeFor(net.gws[b].neighbors, a), Taken(net, a, b))
    {
      StartupLinkOk(g, a, b, net.gws[a], net.gws[b]);
    }
  }

  lemma StartupLinkOk(g: Graph, a: int, b: int, sender: GatewayState, receiver: GatewayState)
    requires Undirected(g) && a in g && b in g[a] && StartedAt(g, a, sender) && StartedAt(g, b, receiver)
    ensures exists n :: n in receiver.neighbors && n.continuumNbr == a
    ensures LinkOk(sender, receiver, NodeFor(receiver.neighbors, a), 0)
  {
    DeclarationsChannel(sender.neighbors, a, b);
  }

  ghost predicate Steps(g: Graph, s: Net, t: Net) {
    exists ev :: NetStep(g, s, t, ev)
  }

  /** States of the network from startup, each one subscription, unsubscription or arrival after the one before. */
  ghost predicate NetRun(g: Graph, run: seq<Net>) {
    && run != [] && NetStartup(g, run[0])
    && (forall i :: 0 < i < |run| ==> Steps(g, run[i - 1], run[i]))
  }

  ghost predicate StepsSteadily(g: Graph, s: Net, t: Net) {
    exists ev :: NetStep(g, s, t, ev) && !TakesRetraction(s, ev)
  }

  /** A run on which no cancellation is taken for a retraction. */
  ghost predicate SteadyRun(g: Graph, run: seq<Net>) {
    && run != [] && NetStartup(g, run[0])
    && (forall i :: 0 < i < |run| ==> StepsSteadily(g, run[i - 1], run[i]))
  }

  lemma RetractionUnlinks(g: Graph, s: Net, t: Net, a: int, b: int)
    requires NetOk(g, s) && NetStep(g, s, t, Arrival(a, b)) && TakesRetraction(s, Arrival(a, b))
    ensures !NetOk(g, t)
  {
    hide Declares, LogInv, DgssWithoutDuplicates, AllSettled;
    var n, gw, taken := NodeFor(s.gws[b].neighbors, a), s.gws[b], Taken(s, a, b);
    var r := Channel(s, a, b)[taken];
    assert LinkOk(s.gws[a], gw, n, taken) && GatewayOk(g, a, s.gws[a]) && GatewayOk(g, b, gw);
    RetractionUndeclares(gw, n, r.key);
    RpduKeepsKeys(gw, n, r.cc, r.key);
    assert !LinkOk(t.gws[a], t.gws[b], NodeFor(t.gws[b].neighbors, a), Taken(t, a, b));
  }

  /** Whatever a step is, it keeps every gateway and every link in good order iff it does not take a cancellation for
      a retraction. */
  lemma StepKeepsOkIff(g: Graph, s: Net, t: Net, ev: NetEvent)
    requires NetOk(g, s) && NetStep(g, s, t, ev)
    ensures NetOk(g, t) <==> !TakesRetraction(s, ev)
  {
    hide NetOk, TakesRetraction;
    match ev
    case LocalEvent(v, e) =>
      LocalKeepsOk(g, s, t, v, e);
      assert !TakesRetraction(s, ev) by { LocalIsNoRetraction(s, v, e); }
    case Arrival(a, b) =>
      if TakesRetraction(s, ev) { RetractionUnlinks(g, s, t, a, b); } else { ArrivalKeepsOk(g, s, t, a, b); }
  }

  lemma LocalIsNoRetraction(s: Net, v: int, e: Event)
    ensures !TakesRetraction(s, LocalEvent(v, e))
  {
  }

  lemma {:induction false} NetStaysOk(g: Graph, run: seq<Net>)
    requires SteadyRun(g, run)
    ensures NetOk(g, run[|run| - 1])
    decreases |run|
  {
    hide NetOk, NetStep, NetStartup, TakesRetraction;
    if |run| == 1 {
      StartupOk(g, run[0]);
    } else {
      var s, t := run[|run| - 2], run[|run| - 1];
      assert run[..|run| - 1][|run| - 2] == s;
      NetStaysOk(g, run[..|run| - 1]);
      assert StepsSteadily(g, s, t);
      var ev :| NetStep(g, s, t, ev) && !TakesRetraction(s, ev);
      StepKeepsOkIff(g, s, t, ev);
    }
  }

  lemma PrefixOk(g: Graph, run: seq<Net>, j: nat)
    requires SteadyRun(g, run) && j < |run|
    ensures NetOk(g, run[j])
  {
    hide NetStartup, NetOk, StepsSteadily;
    var prefix := run[..j + 1];
    forall i | 0 < i < |prefix| ensures StepsSteadily(g, prefix[i - 1], prefix[i]) {
      assert StepsSteadily(g, run[i - 1], run[i]);
    }
    NetStaysOk(g, prefix);
  }

  /** A run keeps all gateways and links in good order iff it is steady. */
  lemma RunStaysOkIff(g: Graph, run: seq<Net>)
    requires NetRun(g, run)
    ensures SteadyRun(g, run) <==> forall i :: 0 <= i < |run| ==> NetOk(g, run[i])
  {
    hide NetOk, NetStep, NetStartup, TakesRetraction;
    if SteadyRun(g, run) {
      forall i | 0 <= i < |run| ensures NetOk(g, run[i]) { PrefixOk(g, run, i); }
    } else {
      var i :| 0 < i < |run| && !StepsSteadily(g, run[i - 1], run[i]);
      assert Steps(g, run[i - 1], run[i]);
      var ev :| NetStep(g, run[i - 1], run[i], ev);
      if NetOk(g, run[i - 1]) { StepKeepsOkIff(g, run[i - 1], run[i], ev); }
    }
  }

  // ---------- when no petition RPDU is under way ----------

  /** No petition RPDU about a representable key is under way. */
  ghost predicate Drained(g: Graph, net: Net)
    requires net.gws.Keys == g.Keys
  {
    forall a, b, p :: a in g && b in g[a] && Taken(net, a, b) <= p < |Channel(net, a, b)| ==>
      Channel(net, a, b)[p].PetitionRpdu? && !Representable(Channel(net, a, b)[p].key)
  }

  lemma DeclarationRepresentable(d: int)
    requires 0 < d < 0x8000
    ensures Representable(DeclarationKey(d))
  {
    ReadBackIff(DeclarationKey(d));
  }

  /** Once drained, a gateway knows exactly its tree neighbours as declared, and one neighbour wants
      messages under a representable key iff it has that petition's SGS list this gateway. */
  lemma DrainedLink(g: Graph, net: Net, a: int, b: int)
    requires NetOk(g, net) && Drained(g, net) && a in g && b in g[a]
    ensures b in g && a in g[b]
    ensures var n, m := NodeFor(net.gws[b].neighbors, a), NodeFor(net.gws[a].neighbors, b);
      && n in net.gws[b].declared
      && forall i :: 0 <= i < |net.gws[a].petitions| && Representable(net.gws[a].petitions[i].key) ==>
           (m in net.gws[a].petitions[i].sgs <==> n in DgsOf(net.gws[b], net.gws[a].petitions[i].key))
  {
    hide Declares, DgssWithoutDuplicates, AllSettled, NodesKnown, NothingPlayedBack, DgsOf, Representable;
    var sender, receiver := net.gws[a], net.gws[b];
    assert GatewayOk(g, a, sender) && GatewayOk(g, b, receiver);
    var n, m := NodeFor(receiver.neighbors, a), NodeFor(sender.neighbors, b);
    assert LinkOk(sender, receiver, n, Taken(net, a, b));
    var channel := SentTo(sender.sent, b);
    DeclarationRepresentable(a);
    assert channel == Channel(net, a, b);
    forall i | 0 <= i < |sender.petitions| && Representable(sender.petitions[i].key)
      ensures m in sender.petitions[i].sgs <==> n in DgsOf(receiver, sender.petitions[i].key)
    {
      LastCodeOfChannel(sender.sent, b, sender.petitions[i].key);
      LastCodeSkips(channel, Taken(net, a, b), b, sender.petitions[i].key);
    }
  }

  /** A gateway with local modules that want messages under a representable all-continua key, once nothing is
      under way, is known to: every other gateway lists the neighbour that leads to it. */
  lemma {:induction false} InterestIsEverywhere(g: Graph, net: Net, a: int, i: nat, v: int)
    requires IsTree(g) && NetOk(g, net) && Drained(g, net) && a in g && v in g && v != a
    requires i < |net.gws[a].petitions| && net.gws[a].petitions[i].dms != []
    requires net.gws[a].petitions[i].key.continuumNbr == 0 && Representable(net.gws[a].petitions[i].key)
    ensures var u := Parent(g, a, v);
      && (exists n :: n in net.gws[v].neighbors && n.continuumNbr == u)
      && NodeFor(net.gws[v].neighbors, u) in DgsOf(net.gws[v], net.gws[a].petitions[i].key)
    decreases Depth(g, a, v)
  {
    hide IsTree, Declares, DgssWithoutDuplicates, LogInv, NodesKnown, NothingPlayedBack, LinkOk, Representable;
    var u, k := Parent(g, a, v), net.gws[a].petitions[i].key;
    var gw := net.gws[u];
    ParentIsCloser(g, a, v);
    assert GatewayOk(g, u, gw) && GatewayOk(g, v, net.gws[v]);
    DrainedLink(g, net, v, u);
    DrainedLink(g, net, u, v);
    var d := NodeFor(gw.neighbors, v);
    var j: nat := i;
    if u != a {
      InterestIsEverywhere(g, net, a, i, u);
      j := FindPetition(gw.petitions, k);
      var w := NodeFor(gw.neighbors, Parent(g, a, u));
      ParentIsCloser(g, a, u);
      assert w in gw.petitions[j].dgs && w != d;
    }
    assert Settled(gw, j, None);
    assert AskedOf(gw.petitions[j], d);
  }

  // ---------- runs on which modules keep to application subjects ----------

  /** A key that either names an application subject or is the declaration of a gateway of the tree. */
  predicate OrdinaryKey(g: Graph, k: Key) {
    k.subjectNbr > 0 || (0 - k.subjectNbr in g && k == DeclarationKey(0 - k.subjectNbr))
  }

  ghost predicate AllOrdinary(g: Graph, net: Net) {
    forall v, i :: v in net.gws && 0 <= i < |net.gws[v].petitions| ==> OrdinaryKey(g, net.gws[v].petitions[i].key)
  }

  /** If a module subscribes or unsubscribes, then to an application subject. */
  predicate OrdinaryEvent(ev: NetEvent) { ev.LocalEvent? ==> ev.e.key.subjectNbr > 0 }

  ghost predicate StepsOrdinarily(g: Graph, s: Net, t: Net) {
    exists ev :: NetStep(g, s, t, ev) && OrdinaryEvent(ev)
  }

  ghost predicate OrdinaryRun(g: Graph, run: seq<Net>) {
    && run != [] && NetStartup(g, run[0])
    && (forall i :: 0 < i < |run| ==> StepsOrdinarily(g, run[i - 1], run[i]))
  }

  /** What a gateway sends is about its petitions, and it does not cancel its declaration. */
  lemma OrdinaryRpdu(g: Graph, net: Net, a: int, b: int)
    requires NetOk(g, net) && AllOrdinary(g, net) && a in g && b in g[a]
    requires Taken(net, a, b) < |Channel(net, a, b)|
    ensures var r := Channel(net, a, b)[Taken(net, a, b)];
      r.PetitionRpdu? && r in net.gws[a].sent && r.dest == b && OrdinaryKey(g, r.key) && Read(r.key)
    ensures !TakesRetraction(net, Arrival(a, b))
  {
    hide DgssWithoutDuplicates, Settled, SgsMirrorsLog, UniqueKeys, ReadBack, Read, LinkOk, OrdinaryKey, DgsOf;
    var sender, r := net.gws[a], Channel(net, a, b)[Taken(net, a, b)];
    assert GatewayOk(g, a, sender) && GatewayOk(g, b, net.gws[b]);
    ChannelMembers(sender.sent, b);
    assert r in Channel(net, a, b);
    SentKeyIsRead(sender, r);
    assert NamesPetition(sender, r.key);
    var w :| 0 <= w < |sender.petitions|
             && (r.key == sender.petitions[w].key || r.key == ReadBack(sender.petitions[w].key));
    assert OrdinaryKey(g, sender.petitions[w].key);
    assert Read(sender.petitions[w].key) by { InvUniqueKeys(sender); KeyIsRead(sender, w); }
    OrdinaryReadBack(g, sender.petitions[w].key);
    OwnSubject(g, a, r);
  }

  lemma KeyIsRead(gw: GatewayState, i: nat)
    requires UniqueKeys(gw) && i < |gw.petitions|
    ensures Read(gw.petitions[i].key)
  {
  }

  /** An ordinary key stays so in an envelope. */
  lemma OrdinaryReadBack(g: Graph, k: Key)
    requires Occurs(k) && OrdinaryKey(g, k)
    ensures OrdinaryKey(g, ReadBack(k))
  {
    ReadBackKeepsApart(k);
    ReadBackIff(k);
  }

  lemma OwnSubject(g: Graph, a: int, r: Rpdu)
    requires r.PetitionRpdu? && OrdinaryKey(g, r.key) && a > 0
    ensures r.key.subjectNbr == 0 - a ==> r.key == DeclarationKey(a)
  {
  }

  lemma OrdinaryStepKeeps(g: Graph, s: Net, t: Net, ev: NetEvent)
    requires NetOk(g, s) && AllOrdinary(g, s) && NetStep(g, s, t, ev) && OrdinaryEvent(ev)
    ensures AllOrdinary(g, t) && !TakesRetraction(s, ev)
  {
    hide Apply, NetOk, OrdinaryKey, ReadBack, Read, Noticed;
    var v: int, e: Event;
    match ev {
      case LocalEvent(w, x) =>
        v, e := w, x;
        PositiveIsOrdinary(g, e.key);
      case Arrival(a, b) =>
        OrdinaryRpdu(g, s, a, b);
        var r := Channel(s, a, b)[Taken(s, a, b)];
        v, e := b, Receive(NodeFor(s.gws[b].neighbors, a), r.cc, r.key);
    }
    OrdinaryReadBack(g, e.key);
    ApplyKeepsKeys(s.gws[v], e);
    forall w, i | w in t.gws && 0 <= i < |t.gws[w].petitions| ensures OrdinaryKey(g, t.gws[w].petitions[i].key) {
      if w == v && i >= |s.gws[v].petitions| {
        assert t.gws[w].petitions[i].key == ReadBack(e.key);
      } else {
        assert t.gws[w].petitions[i].key == s.gws[w].petitions[i].key;
      }
    }
  }

  lemma PositiveIsOrdinary(g: Graph, k: Key)
    requires k.subjectNbr > 0
    ensures OrdinaryKey(g, k)
  {
  }

  lemma {:induction false} OrdinaryStaysOk(g: Graph, run: seq<Net>)
    requires OrdinaryRun(g, run)
    ensures SteadyRun(g, run) && NetOk(g, run[|run| - 1]) && AllOrdinary(g, run[|run| - 1])
    decreases |run|
  {
    hide NetOk, NetStep, NetStartup, TakesRetraction, AllOrdinary, OrdinaryEvent;
    if |run| == 1 {
      StartupOrdinary(g, run[0]);
    } else {
      var s, t := run[|run| - 2], run[|run| - 1];
      var front := run[..|run| - 1];
      assert front[|front| - 1] == s;
      OrdinaryStaysOk(g, front);
      assert StepsOrdinarily(g, s, t);
      var ev :| NetStep(g, s, t, ev) && OrdinaryEvent(ev);
      OrdinaryStepKeeps(g, s, t, ev);
      forall i | 0 < i < |run| ensures StepsSteadily(g, run[i - 1], run[i]) {
        if i < |front| { assert StepsSteadily(g, front[i - 1], front[i]); }
      }
    }
    NetStaysOk(g, run);
  }

  lemma StartupOrdinary(g: Graph, net: Net)
    requires NetStartup(g, net)
    ensures AllOrdinary(g, net)
  {
    forall v, i | v in net.gws && 0 <= i < |net.gws[v].petitions| ensures OrdinaryKey(g, net.gws[v].petitions[i].key) {
      assert StartedAt(g, v, net.gws[v]);
      StartupKey(v, net.gws[v].self, true, net.gws[v].neighbors);
    }
  }
}
