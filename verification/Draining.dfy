/** Petition RPDUs die out: between subscriptions, every arrival of one about a representable key brings the network
    nearer to rest, whatever the order of arrival and whatever other keys are about, and rest can always be reached. */
module Draining {
  import opened Domains
  import opened Envelope
  import opened Lists
  import opened Onward
  import opened Options
  import opened Petitions
  import opened PetitionLaws
  import opened Playback
  import opened Routing
  import opened Trees
  import Conduits

  // ---------- sums over the nodes of a graph ----------

  ghost function Sum(nodes: set<int>, f: int -> int): int {
    if x :| x in nodes then f(x) + Sum(nodes - {x}, f) else 0
  }

  lemma {:induction false} SumSplits(nodes: set<int>, f: int -> int, x: int)
    requires x in nodes
    ensures Sum(nodes, f) == f(x) + Sum(nodes - {x}, f)
    decreases |nodes|
  {
    var y :| y in nodes && Sum(nodes, f) == f(y) + Sum(nodes - {y}, f);
    if y != x {
      SumSplits(nodes - {y}, f, x);
      SumSplits(nodes - {x}, f, y);
      assert nodes - {y} - {x} == nodes - {x} - {y};
    }
  }

  lemma {:induction false} SumChanges(nodes: set<int>, f: int -> int, h: int -> int, x: int, delta: int)
    requires forall y :: y in nodes ==> h(y) == f(y) + if y == x then delta else 0
    ensures Sum(nodes, h) == Sum(nodes, f) + if x in nodes then delta else 0
    decreases |nodes|
  {
    if y :| y in nodes {
      SumSplits(nodes, f, y);
      SumSplits(nodes, h, y);
      SumChanges(nodes - {y}, f, h, x, delta);
    }
  }

  lemma {:induction false} SumAtMost(nodes: set<int>, f: int -> int, h: int -> int)
    requires forall y :: y in nodes ==> f(y) <= h(y)
    ensures Sum(nodes, f) <= Sum(nodes, h)
    decreases |nodes|
  {
    if y :| y in nodes {
      SumSplits(nodes, f, y);
      SumSplits(nodes, h, y);
      SumAtMost(nodes - {y}, f, h);
    }
  }

  // ---------- what lies behind an edge ----------

  /** The gateways that a goes to by way of b. */
  ghost function Beyond(g: Graph, a: int, b: int): set<int>
    requires IsTree(g) && a in g
  {
    set x | x in g && x != a && Parent(g, x, a) == b
  }

  ghost function BeyondAny(g: Graph, a: int, next: set<int>): set<int>
    requires IsTree(g) && a in g
  {
    set x | x in g && x != a && Parent(g, x, a) in next
  }

  lemma ParentIsNeighbor(g: Graph, a: int, b: int)
    requires IsTree(g) && a in g && b in g[a]
    ensures b in g && a in g[b] && b != a && Parent(g, a, b) == a
  {
    ParentOrChild(g, a, a, b);
    DepthZero(g, a, a);
  }

  /** What b goes to by way of others than a, a goes to by way of b. */
  lemma BeyondShrinks(g: Graph, a: int, b: int, next: set<int>)
    requires IsTree(g) && a in g && b in g[a] && b in g && a !in next
    ensures |BeyondAny(g, b, next)| < |Beyond(g, a, b)|
  {
    hide IsTree;
    ParentIsNeighbor(g, a, b);
    ParentIsNeighbor(g, b, a);
    forall x | x in BeyondAny(g, b, next) ensures x in Beyond(g, a, b) {
      ParentOrChild(g, x, a, b);
    }
    assert b in Beyond(g, a, b) && b !in BeyondAny(g, b, next);
    Fewer(BeyondAny(g, b, next), Beyond(g, a, b));
  }

  lemma Fewer<T>(a: set<T>, b: set<T>)
    requires a <= b && a != b
    ensures |a| < |b|
  {
    if x :| x in b && x !in a {
      Subsets(a, b - {x});
    }
  }

  lemma {:induction false} Subsets<T>(a: set<T>, b: set<T>)
    requires a <= b
    ensures |a| <= |b|
    decreases |a|
  {
    if a != {} {
      var x :| x in a;
      Subsets(a - {x}, b - {x});
    }
  }

  // ---------- how much an RPDU can bring about ----------

  /** A cancellation can make its receiver cancel what it holds; an assertion can also make those behind it ask
      each other. RPDUs under keys that are not representable do neither to representable ones. */
  ghost function Weight(g: Graph, a: int, r: Rpdu): nat
    requires IsTree(g) && a in g
  {
    if !r.PetitionRpdu? || !Representable(r.key) then 0
    else if r.cc == PETITION_CANCELLATION then 1
    else if Beyond(g, a, r.dest) == {} then 0
    else 2 * |Beyond(g, a, r.dest)| - 1
  }

  ghost function Issued(g: Graph, a: int, sent: seq<Rpdu>): nat
    requires IsTree(g) && a in g
  {
    if sent == [] then 0 else Issued(g, a, sent[..|sent| - 1]) + Weight(g, a, sent[|sent| - 1])
  }

  lemma {:induction false} IssuedTogether(g: Graph, a: int, sent: seq<Rpdu>, more: seq<Rpdu>)
    requires IsTree(g) && a in g
    ensures Issued(g, a, sent + more) == Issued(g, a, sent) + Issued(g, a, more)
  {
    hide IsTree, Weight;
    if more == [] {
      assert sent + more == sent;
    } else {
      assert (sent + more)[..|sent + more| - 1] == sent + more[..|more| - 1];
      IssuedTogether(g, a, sent, more[..|more| - 1]);
    }
  }

  function Continua(nodes: seq<RamsNode>): set<int> { set n | n in nodes :: n.continuumNbr }

  /** One more neighbour to go by. */
  lemma BeyondGrows(g: Graph, b: int, next: set<int>, c: int)
    requires IsTree(g) && b in g && c !in next
    ensures |BeyondAny(g, b, next + {c})| == |BeyondAny(g, b, next)| + |Beyond(g, b, c)|
  {
    hide IsTree, Parent;
    assert BeyondAny(g, b, next + {c}) == BeyondAny(g, b, next) + Beyond(g, b, c);
    assert BeyondAny(g, b, next) !! Beyond(g, b, c);
  }

  lemma AssertionWeighs(g: Graph, b: int, c: int, k: Key)
    requires IsTree(g) && b in g && c in g[b] && Representable(k)
    ensures Weight(g, b, PetitionRpdu(c, PETITION_ASSERTION, k)) == 2 * |Beyond(g, b, c)| - 1
  {
    hide IsTree, Parent, Representable;
    ParentIsNeighbor(g, b, c);
    ParentIsNeighbor(g, c, b);
    assert c in Beyond(g, b, c);
  }

  lemma {:induction false} IssuedAssertions(g: Graph, b: int, nodes: seq<RamsNode>, k: Key)
    requires IsTree(g) && b in g && Representable(k)
    requires NoDup(nodes) && forall n :: n in nodes ==> n.continuumNbr in g[b]
    requires forall n, m :: n in nodes && m in nodes && n.continuumNbr == m.continuumNbr ==> n == m
    ensures Issued(g, b, Assertions(nodes, k)) + |nodes| == 2 * |BeyondAny(g, b, Continua(nodes))|
  {
    hide IsTree, Weight, Representable;
    if nodes != [] {
      hide BeyondAny;
      var front, last := nodes[..|nodes| - 1], nodes[|nodes| - 1];
      assert forall n :: n in nodes <==> n in front || n == last;
      assert last !in front;
      IssuedAssertions(g, b, front, k);
      assert Continua(nodes) == Continua(front) + {last.continuumNbr};
      BeyondGrows(g, b, Continua(front), last.continuumNbr);
      AssertionWeighs(g, b, last.continuumNbr, k);
    } else {
      assert BeyondAny(g, b, Continua(nodes)) == {};
    }
  }

  function Counted(p: PetitionState): nat { if Representable(p.key) then |p.sgs| else 0 }

  /** The entries of the SGSs of petitions with representable keys. */
  function HeldSgs(petitions: seq<PetitionState>): nat {
    if petitions == [] then 0 else HeldSgs(petitions[..|petitions| - 1]) + Counted(petitions[|petitions| - 1])
  }

  lemma {:induction false} HeldSgsChanges(petitions: seq<PetitionState>, i: nat, p: PetitionState)
    requires i < |petitions|
    ensures HeldSgs(petitions[i := p]) == HeldSgs(petitions) - Counted(petitions[i]) + Counted(p)
  {
    hide Counted;
    var front, last := petitions[..|petitions| - 1], petitions[|petitions| - 1];
    if i < |front| {
      assert petitions[i := p][..|front|] == front[i := p];
      HeldSgsChanges(front, i, p);
    } else {
      assert petitions[i := p][..|front|] == front;
    }
  }

  lemma HeldSgsOfNew(petitions: seq<PetitionState>, p: PetitionState)
    ensures HeldSgs(petitions + [p]) == HeldSgs(petitions) + Counted(p)
  {
    assert (petitions + [p])[..|petitions|] == petitions;
  }

  // ---------- an assertion arrives at a gateway ----------

  /** Every wanted petition on an application subject, under a representable key, has been sent to all nodes of its
      domain that must have it. */
  ghost predicate AllAsked(gw: GatewayState) {
    forall i, n {:trigger AskedOf(gw.petitions[i], n)} ::
      0 <= i < |gw.petitions| && gw.petitions[i].key.subjectNbr > 0 && Representable(gw.petitions[i].key)
      && Assertable(gw, gw.petitions[i]) && n in DomainNodes(gw, gw.petitions[i].key) ==>
        AskedOf(gw.petitions[i], n)
  }

  /** Petitions on other subjects do not matter to a conduit. */
  lemma {:induction false} SameConduit(a: seq<PetitionState>, b: seq<PetitionState>, c: int)
    requires |a| <= |b|
    requires forall i :: 0 <= i < |a| ==>
      b[i].key == a[i].key && (a[i].key.subjectNbr == 0 - c ==> b[i].dgs == a[i].dgs)
    requires forall i :: |a| <= i < |b| ==> b[i].key.subjectNbr != 0 - c
    ensures Conduit(a, c) == Conduit(b, c)
    decreases |b|
  {
    if b != [] { SameConduit(if a == [] then [] else a[1..], b[1..], c); }
  }

  /** The sender of an assertion is not asked in return. */
  lemma NotAskedBack(gw: GatewayState, from: RamsNode, k: Key)
    requires AllAsked(gw) && gw.isTree && k.subjectNbr > 0 && Representable(k) && from !in DgsOf(gw, k)
    ensures var noted, i := NoteAssertion(gw, from, k, false), FindPetition(gw.petitions, k);
      noted.petitions[i].key == k && from !in AssertionSet(noted, noted.petitions[i])
  {
    ReadBackKeepsApart(k);
    hide ReadBack;
    var noted, i := NoteAssertion(gw, from, k, false), FindPetition(gw.petitions, k);
    if k.continuumNbr > 0 { SameConduit(gw.petitions, noted.petitions, k.continuumNbr); }
    assert DomainNodes(noted, k) == DomainNodes(gw, k);
    if i < |gw.petitions| && from in DomainNodes(gw, k) && Assertable(gw, gw.petitions[i]) {
      assert AskedOf(gw.petitions[i], from);
      assert from in gw.petitions[i].sgs;
    }
  }

  /** Noting an assertion asks nobody. */
  lemma NotedHeldSgs(gw: GatewayState, from: RamsNode, k: Key)
    ensures HeldSgs(NoteAssertion(gw, from, k, false).petitions) == HeldSgs(gw.petitions)
  {
    hide Representable, ReadBack, HeldSgs, FindPetition;
    var noted, i := NoteAssertion(gw, from, k, false), FindPetition(gw.petitions, k);
    if i < |gw.petitions| {
      HeldSgsChanges(gw.petitions, i, noted.petitions[i]);
    } else {
      HeldSgsOfNew(gw.petitions, noted.petitions[i]);
    }
  }

  /** What an assertion on an application subject makes a gateway send, and hold: nothing back to the sender. */
  lemma AssertionIssues(gw: GatewayState, from: RamsNode, k: Key) returns (nodes: seq<RamsNode>)
    requires Inv(gw) && AllAsked(gw) && gw.isTree && Representable(k) && k.subjectNbr > 0
    requires from in gw.neighbors && from !in DgsOf(gw, k) && HandlePetitionAssertion(gw, from, k, false).ok
    ensures NoDup(nodes) && from !in nodes && forall n :: n in nodes ==> n in gw.neighbors
    ensures var h := HandlePetitionAssertion(gw, from, k, false).gw;
      h.sent == gw.sent + Assertions(nodes, k) && HeldSgs(h.petitions) == HeldSgs(gw.petitions) + |nodes|
  {
    hide LogInv, Representable, ReadBack, AllAsked, AllSettled, NodesKnown;
    ReadBackKeepsApart(k);
    var noted, i := NoteAssertion(gw, from, k, false), FindPetition(gw.petitions, k);
    NoteAssertionKeeps(gw, from, k);
    NotAskedBack(gw, from, k);
    NotedHeldSgs(gw, from, k);
    var p := noted.petitions[i];
    nodes := AssertionSet(noted, p);
    AssertionSetIsNew(noted, i);
    SendAssertionsResult(noted, nodes, k);
    UnionOfNew(p.sgs, nodes);
    HeldSgsChanges(noted.petitions, i, p.(sgs := p.sgs + nodes));
    assert !ConfirmsPlayback(gw, from, k);
  }

  ghost predicate NoneRepresentable(sent: seq<Rpdu>) {
    forall r :: r in sent && r.PetitionRpdu? ==> !Representable(r.key)
  }

  lemma {:induction false} IssuedForNothing(g: Graph, v: int, sent: seq<Rpdu>)
    requires IsTree(g) && v in g && NoneRepresentable(sent)
    ensures Issued(g, v, sent) == 0
  {
    hide IsTree, Representable;
    if sent != [] {
      assert sent[|sent| - 1] in sent;
      IssuedForNothing(g, v, sent[..|sent| - 1]);
    }
  }

  lemma NotedKey(gw: GatewayState, from: RamsNode, k: Key)
    requires Occurs(k) && !Representable(k)
    ensures !Representable(NoteAssertion(gw, from, k, false).petitions[FindPetition(gw.petitions, k)].key)
  {
    hide Representable, ReadBack, Occurs;
    ReadBackKeepsApart(k);
  }

  /** An assertion under another key makes a gateway send and hold nothing under a representable one. */
  lemma OtherAssertionIssues(gw: GatewayState, from: RamsNode, k: Key) returns (more: seq<Rpdu>)
    requires NothingPlayedBack(gw) && Occurs(k) && !Representable(k) && k.subjectNbr >= 0
    requires HandlePetitionAssertion(gw, from, k, false).ok
    ensures var h := HandlePetitionAssertion(gw, from, k, false).gw;
      h.sent == gw.sent + more && NoneRepresentable(more) && HeldSgs(h.petitions) == HeldSgs(gw.petitions)
  {
    hide Representable, ReadBack, Occurs, HeldSgs, AssertionSet, Assertable;
    var noted, i := NoteAssertion(gw, from, k, false), FindPetition(gw.petitions, k);
    NotedHeldSgs(gw, from, k);
    NotedKey(gw, from, k);
    var p := noted.petitions[i];
    assert !ConfirmsPlayback(gw, from, k) && noted.sent == gw.sent;
    hide NoteAssertion, ConfirmsPlayback, FindPetition;
    var nodes := AssertionSet(noted, p);
    SendAssertionsResult(noted, nodes, p.key);
    HeldSgsChanges(noted.petitions, i, p.(sgs := Union(p.sgs, nodes)));
    Conduits.AssertionsMembers(nodes, p.key);
    more := if Assertable(noted, p) then Assertions(nodes, p.key) else [];
  }

  // ---------- a cancellation arrives ----------

  ghost predicate OnlyCancellations(sent: seq<Rpdu>, k: Key) {
    forall r :: r in sent ==> r.PetitionRpdu? && r.cc == PETITION_CANCELLATION && r.key == k
  }

  /** Whoever is sent a cancellation leaves an SGS. */
  ghost predicate Releases(gw: GatewayState, h: GatewayState, k: Key, cancelled: seq<Rpdu>) {
    && h.sent == gw.sent + cancelled && OnlyCancellations(cancelled, k)
    && HeldSgs(h.petitions) + (if Representable(k) then |cancelled| else 0) == HeldSgs(gw.petitions)
  }

  /** A petition's key is representable iff the key of its cancellations is. */
  lemma CancelledKey(k: Key)
    requires Read(k)
    ensures Representable(ReadBack(k)) <==> Representable(k)
  {
    ReadBackKeepsApart(k);
  }

  lemma CancelToReleases(gw: GatewayState, i: nat, node: RamsNode) returns (cancelled: seq<Rpdu>)
    requires i < |gw.petitions| && Read(gw.petitions[i].key) && node in gw.petitions[i].sgs
    ensures Releases(gw, CancelTo(gw, i, node).gw, ReadBack(gw.petitions[i].key), cancelled)
  {
    hide ReadBack, Representable, Read;
    var p := gw.petitions[i];
    CancelledKey(p.key);
    HeldSgsChanges(gw.petitions, i, p.(sgs := RemoveFirst(p.sgs, node)));
    cancelled := if Declared(gw, node.continuumNbr)
                 then [PetitionRpdu(node.continuumNbr, PETITION_CANCELLATION, ReadBack(p.key))] else [];
  }

  lemma {:induction false} CancelToAllReleases(gw: GatewayState, i: nat) returns (cancelled: seq<Rpdu>)
    requires i < |gw.petitions| && Read(gw.petitions[i].key)
    ensures Releases(gw, CancelToAll(gw, i).gw, ReadBack(gw.petitions[i].key), cancelled)
    decreases |gw.petitions[i].sgs|
  {
    hide CancelTo, ReadBack, Representable, Read;
    cancelled := [];
    if gw.petitions[i].sgs != [] {
      var first := CancelToReleases(gw, i, gw.petitions[i].sgs[0]);
      cancelled := first;
      var s := CancelTo(gw, i, gw.petitions[i].sgs[0]);
      if s.ok {
        CancelToShortens(gw, i);
        var rest := CancelToAllReleases(s.gw, i);
        cancelled := first + rest;
      }
    }
  }

  lemma CancelToShortens(gw: GatewayState, i: nat)
    requires i < |gw.petitions| && gw.petitions[i].sgs != []
    ensures var s := CancelTo(gw, i, gw.petitions[i].sgs[0]);
      s.ok ==> |s.gw.petitions[i].sgs| < |gw.petitions[i].sgs|
  {
  }

  lemma CancelPetitionReleases(gw: GatewayState, i: nat) returns (cancelled: seq<Rpdu>)
    requires i < |gw.petitions| && Read(gw.petitions[i].key)
    ensures Releases(gw, CancelPetition(gw, i).gw, ReadBack(gw.petitions[i].key), cancelled)
  {
    hide CancelTo, CancelToAll, ReadBack, Representable, Read;
    var p := gw.petitions[i];
    cancelled := [];
    if p.dgs == [] {
      cancelled := CancelToAllReleases(gw, i);
    } else if |p.dgs| == 1 && p.dgs[0] in p.sgs {
      cancelled := CancelToReleases(gw, i, p.dgs[0]);
    }
  }

  lemma CancellationReleases(gw: GatewayState, from: RamsNode, k: Key) returns (cancelled: seq<Rpdu>)
    requires NoRetraction(gw, Receive(from, PETITION_CANCELLATION, k)) && UniqueKeys(gw)
    ensures Releases(gw, HandlePetitionCancellation(gw, from, k, false).gw, ReadBack(k), cancelled)
  {
    hide CancelPetition, ReadBack, Representable, Read;
    var i := FindPetition(gw.petitions, k);
    cancelled := [];
    if i < |gw.petitions| && from in gw.petitions[i].dgs {
      var p := gw.petitions[i].(dgs := RemoveFirst(gw.petitions[i].dgs, from), fromPlayback := false);
      HeldSgsChanges(gw.petitions, i, p);
      if !Assertable(SetPetition(gw, i, p), p) { cancelled := CancelPetitionReleases(SetPetition(gw, i, p), i); }
    }
  }

  lemma {:induction false} IssuedCancellations(g: Graph, v: int, cancelled: seq<Rpdu>, k: Key)
    requires IsTree(g) && v in g && OnlyCancellations(cancelled, k)
    ensures Issued(g, v, cancelled) == if Representable(k) then |cancelled| else 0
  {
    hide IsTree, Representable;
    if cancelled != [] {
      assert cancelled[|cancelled| - 1] in cancelled;
      IssuedCancellations(g, v, cancelled[..|cancelled| - 1], k);
    }
  }

  // ---------- declarations stand ----------

  ghost predicate DeclarationsWanted(gw: GatewayState) {
    forall i :: 0 <= i < |gw.petitions| && gw.petitions[i].key.subjectNbr < 0 ==> Assertable(gw, gw.petitions[i])
  }

  /** Nobody's declaration has ever been cancelled from here. */
  ghost predicate DeclarationsStand(gw: GatewayState) {
    && DeclarationsWanted(gw)
    && forall r, d :: r in gw.sent && 0 < d < 0x8000 ==> NotCancelled(r, DeclarationKey(d))
  }

  lemma AssertionKeepsWanted(gw: GatewayState, from: RamsNode, k: Key)
    requires DeclarationsWanted(gw) && gw.isTree
    ensures DeclarationsWanted(HandlePetitionAssertion(gw, from, k, false).gw)
  {
    hide Establish, AssertPetition, ReadBack;
    var i, noted := FindPetition(gw.petitions, k), NoteAssertion(gw, from, k, false);
    EstablishChangesSgss(noted, from, i, 0);
    assert DeclarationsWanted(noted);
  }

  /** A petition found by key k, on no pseudo-subject, is edited, and cancelled if nobody wants it. */
  lemma EditKeepsWanted(gw: GatewayState, i: nat, p: PetitionState)
    requires DeclarationsWanted(gw) && i < |gw.petitions| && p.key == gw.petitions[i].key && p.key.subjectNbr >= 0
    ensures var h := SetPetition(gw, i, p); DeclarationsWanted(h) && DeclarationsWanted(CancelPetition(h, i).gw)
  {
    hide CancelPetition;
  }

  lemma CancellationKeepsWanted(gw: GatewayState, from: RamsNode, k: Key)
    requires DeclarationsWanted(gw) && NoRetraction(gw, Receive(from, PETITION_CANCELLATION, k)) && k.subjectNbr >= 0
    ensures DeclarationsWanted(HandlePetitionCancellation(gw, from, k, false).gw)
  {
    hide CancelPetition, DeclarationsWanted;
    var i := FindPetition(gw.petitions, k);
    if i < |gw.petitions| {
      EditKeepsWanted(gw, i, gw.petitions[i].(dgs := RemoveFirst(gw.petitions[i].dgs, from), fromPlayback := false));
    }
  }

  lemma SubscriptionKeepsWanted(gw: GatewayState, e: Event)
    requires DeclarationsWanted(gw) && !e.Receive? && e.key.subjectNbr >= 0 && Occurs(e.key)
    ensures DeclarationsWanted(Apply(gw, e).gw)
  {
    hide CancelPetition, AssertPetition, ReadBack, Occurs;
    ReadBackKeepsApart(e.key);
    var i := FindPetition(gw.petitions, e.key);
    if e.Unsubscribe? && i < |gw.petitions| {
      EditKeepsWanted(gw, i, gw.petitions[i].(dms := RemoveFirst(gw.petitions[i].dms, e.m)));
    }
  }

  lemma ApplyKeepsStanding(gw: GatewayState, e: Event)
    requires UniqueKeys(gw) && gw.isTree && DeclarationsStand(gw) && Occurs(e.key) && NoRetraction(gw, e)
    requires e.Receive? ==> e.cc == PETITION_ASSERTION || e.cc == PETITION_CANCELLATION
    requires e.key.subjectNbr < 0 ==> e.Receive? && e.cc == PETITION_ASSERTION
    ensures DeclarationsStand(Apply(gw, e).gw)
  {
    hide UniqueKeys, Occurs, NotCancelled, HandlePetitionAssertion;
    var h := Apply(gw, e).gw;
    if e.Receive? && e.cc == PETITION_ASSERTION {
      AssertionKeepsWanted(NoteDeclaration(gw, e.from), e.from, e.key);
      AssertionKeepsWanted(gw, e.from, e.key);
    } else if e.Receive? {
      CancellationKeepsWanted(gw, e.from, e.key);
    } else {
      SubscriptionKeepsWanted(gw, e);
    }
    hide Apply;
    assert DeclarationsWanted(h);
    forall r, d | r in h.sent && 0 < d < 0x8000 ensures NotCancelled(r, DeclarationKey(d)) {
      DeclarationRepresentable(d);
      ApplyIsLater(gw, e, DeclarationKey(d));
      var p :| 0 <= p < |h.sent| && h.sent[p] == r;
      if p < |gw.sent| { assert gw.sent[p] == r && r in gw.sent; }
    }
  }

  // ---------- sends succeed ----------

  /** Petitions on application subjects have been sent to declared neighbours only. */
  ghost predicate AskedAreDeclared(gw: GatewayState) {
    forall i, n :: 0 <= i < |gw.petitions| && gw.petitions[i].key.subjectNbr > 0 && n in gw.petitions[i].sgs ==>
      n in gw.declared
  }

  lemma DeclaredNeighbor(gw: GatewayState, n: RamsNode)
    requires DistinctNodes(gw) && NodesKnown(gw) && n in gw.neighbors && Declared(gw, n.continuumNbr)
    ensures n in gw.declared
  {
    var i :| 0 <= i < |gw.declared| && gw.declared[i].continuumNbr == n.continuumNbr;
    assert gw.declared[i] in gw.declared;
  }

  lemma AssertPetitionAsksDeclared(gw: GatewayState, i: nat)
    requires DistinctNodes(gw) && NodesKnown(gw) && AskedAreDeclared(gw) && i < |gw.petitions|
    requires AssertPetition(gw, i).ok
    ensures AskedAreDeclared(AssertPetition(gw, i).gw)
  {
    var p := gw.petitions[i];
    if Assertable(gw, p) {
      var nodes := AssertionSet(gw, p);
      SendAssertionsResult(gw, nodes, p.key);
      ConduitIsKnown(gw.petitions, p.key.continuumNbr);
      forall n | n in nodes ensures n in gw.declared { DeclaredNeighbor(gw, n); }
    }
  }

  lemma {:induction false} EstablishAsksDeclared(gw: GatewayState, from: RamsNode, skip: nat, j: nat)
    requires AskedAreDeclared(gw) && skip < |gw.petitions| && j <= |gw.petitions| && from in gw.declared
    ensures Establish(gw, from, skip, j).ok && AskedAreDeclared(Establish(gw, from, skip, j).gw)
    ensures OnlySgss(gw, Establish(gw, from, skip, j).gw)
    decreases |gw.petitions| - j
  {
    if j < |gw.petitions| {
      DeclaredMember(gw, from);
      EstablishAsksDeclared(EstablishOne(gw, from, skip, j).gw, from, skip, j + 1);
    }
  }

  lemma SgssKeepNodesKnown(g: GatewayState, h: GatewayState)
    requires OnlySgss(g, h) && DistinctNodes(g) && NodesKnown(g)
    ensures DistinctNodes(h) && NodesKnown(h) && (ListedAreDeclared(g) ==> ListedAreDeclared(h))
  {
  }

  lemma AssertionAsksDeclared(gw: GatewayState, from: RamsNode, k: Key)
    requires LogInv(gw) && NodesKnown(gw) && NothingPlayedBack(gw)
    requires AskedAreDeclared(gw) && Occurs(k) && from in gw.declared
    requires HandlePetitionAssertion(gw, from, k, false).ok
    ensures AskedAreDeclared(HandlePetitionAssertion(gw, from, k, false).gw)
  {
    hide Establish, AssertPetition, ReadBack, Occurs;
    assert !ConfirmsPlayback(gw, from, k);
    NoteAssertionKeeps(gw, from, k);
    var i, noted := FindPetition(gw.petitions, k), NoteAssertion(gw, from, k, false);
    assert AskedAreDeclared(noted) && from in noted.declared;
    EstablishAsksDeclared(noted, from, i, 0);
    var s := if k.subjectNbr < 0 then Establish(noted, from, i, 0) else Step(noted, true);
    SgssKeepNodesKnown(noted, s.gw);
    AssertPetitionAsksDeclared(s.gw, i);
  }

  /** An assertion from a declared neighbour finds everybody it has to be sent on to declared. */
  lemma AssertionSucceeds(gw: GatewayState, from: RamsNode, k: Key)
    requires LogInv(gw) && NodesKnown(gw) && NothingPlayedBack(gw)
    requires AskedAreDeclared(gw) && ListedAreDeclared(gw) && Occurs(k) && from in gw.declared
    ensures HandlePetitionAssertion(gw, from, k, false).ok
  {
    hide Establish, ReadBack, Occurs;
    assert !ConfirmsPlayback(gw, from, k);
    NoteAssertionKeeps(gw, from, k);
    var i, noted := FindPetition(gw.petitions, k), NoteAssertion(gw, from, k, false);
    assert AskedAreDeclared(noted) && ListedAreDeclared(noted) && from in noted.declared;
    EstablishAsksDeclared(noted, from, i, 0);
    var s := if k.subjectNbr < 0 then Establish(noted, from, i, 0) else Step(noted, true);
    SgssKeepNodesKnown(noted, s.gw);
    hide NoteAssertion, HandlePetitionAssertion;
    AssertPetitionSucceeds(s.gw, i);
    assert HandlePetitionAssertion(gw, from, k, false).ok;
  }

  lemma AssertPetitionSucceeds(gw: GatewayState, i: nat)
    requires ListedAreDeclared(gw) && i < |gw.petitions|
    ensures AssertPetition(gw, i).ok
  {
    var p := gw.petitions[i];
    var nodes := AssertionSet(gw, p);
    SendAssertionsResult(gw, nodes, p.key);
    ConduitIsKnown(gw.petitions, p.key.continuumNbr);
    forall n | n in nodes ensures Declared(gw, n.continuumNbr) { DeclaredMember(gw, n); }
  }

  lemma {:induction false} CancelToAllSucceeds(gw: GatewayState, i: nat)
    requires i < |gw.petitions| && forall n :: n in gw.petitions[i].sgs ==> n in gw.declared
    ensures CancelToAll(gw, i).ok
    decreases |gw.petitions[i].sgs|
  {
    if gw.petitions[i].sgs != [] {
      DeclaredMember(gw, gw.petitions[i].sgs[0]);
      CancelToAllSucceeds(CancelTo(gw, i, gw.petitions[i].sgs[0]).gw, i);
    }
  }

  lemma CancellationSucceeds(gw: GatewayState, from: RamsNode, k: Key)
    requires AskedAreDeclared(gw) && k.subjectNbr > 0 && NoRetraction(gw, Receive(from, PETITION_CANCELLATION, k))
    ensures HandlePetitionCancellation(gw, from, k, false).ok
  {
    hide CancelToAll;
    var i := FindPetition(gw.petitions, k);
    if i < |gw.petitions| && from in gw.petitions[i].dgs {
      var p := gw.petitions[i].(dgs := RemoveFirst(gw.petitions[i].dgs, from), fromPlayback := false);
      var h := SetPetition(gw, i, p);
      CancelToAllSucceeds(h, i);
      if |p.dgs| == 1 && p.dgs[0] in p.sgs { DeclaredMember(h, p.dgs[0]); }
    }
  }

  lemma {:induction false} CancelToAllShrinks(gw: GatewayState, i: nat)
    requires i < |gw.petitions|
    ensures forall n :: n in CancelToAll(gw, i).gw.petitions[i].sgs ==> n in gw.petitions[i].sgs
    decreases |gw.petitions[i].sgs|
  {
    if gw.petitions[i].sgs != [] {
      var s := CancelTo(gw, i, gw.petitions[i].sgs[0]);
      if s.ok { CancelToAllShrinks(s.gw, i); }
    }
  }

  lemma CancelPetitionAsksDeclared(gw: GatewayState, i: nat)
    requires AskedAreDeclared(gw) && i < |gw.petitions|
    ensures AskedAreDeclared(CancelPetition(gw, i).gw)
  {
    hide CancelToAll;
    CancelToAllShrinks(gw, i);
  }

  lemma CancellationAsksDeclared(gw: GatewayState, from: RamsNode, k: Key)
    requires AskedAreDeclared(gw) && NoRetraction(gw, Receive(from, PETITION_CANCELLATION, k))
    ensures AskedAreDeclared(HandlePetitionCancellation(gw, from, k, false).gw)
  {
    hide CancelPetition;
    var i := FindPetition(gw.petitions, k);
    if i < |gw.petitions| && from in gw.petitions[i].dgs {
      var p := gw.petitions[i].(dgs := RemoveFirst(gw.petitions[i].dgs, from), fromPlayback := false);
      assert AskedAreDeclared(SetPetition(gw, i, p));
      CancelPetitionAsksDeclared(SetPetition(gw, i, p), i);
    }
  }

  lemma SubscriptionAsksDeclared(gw: GatewayState, e: Event)
    requires Inv(gw) && AskedAreDeclared(gw) && !e.Receive? && Apply(gw, e).ok
    ensures AskedAreDeclared(Apply(gw, e).gw)
  {
    hide CancelPetition, AssertPetition, ReadBack, AllSettled;
    var i, m, k := FindPetition(gw.petitions, e.key), e.m, e.key;
    if k.continuumNbr != gw.local && m != gw.self {
      if e.Unsubscribe? {
        if i < |gw.petitions| {
          var p := gw.petitions[i].(dms := RemoveFirst(gw.petitions[i].dms, m));
          assert AskedAreDeclared(SetPetition(gw, i, p));
          CancelPetitionAsksDeclared(SetPetition(gw, i, p), i);
        }
      } else if i == |gw.petitions| || m !in gw.petitions[i].dms {
        var h := if i == |gw.petitions|
                 then gw.(petitions := gw.petitions + [PetitionState(ReadBack(k), [m], [], [], false)])
                 else SetPetition(gw, i, gw.petitions[i].(dms := gw.petitions[i].dms + [m], fromPlayback := false));
        assert AskedAreDeclared(h);
        AssertPetitionAsksDeclared(h, i);
      }
    }
  }

  // ---------- the network ----------

  /** Declarations stand, and whoever asks or is asked, other than by declarations, is declared. */
  ghost predicate Stands(gw: GatewayState) { DeclarationsStand(gw) && AskedAreDeclared(gw) && ListedAreDeclared(gw) }

  ghost predicate AllStand(g: Graph, net: Net)
    requires net.gws.Keys == g.Keys
  {
    forall v {:trigger Stands(net.gws[v])} :: v in g ==> Stands(net.gws[v])
  }

  lemma StartupStands(g: Graph, net: Net)
    requires NetStartup(g, net)
    ensures AllStand(g, net)
  {
    forall v | v in g ensures Stands(net.gws[v]) {
      assert StartedAt(g, v, net.gws[v]);
      StartedStands(v, net.gws[v]);
    }
  }

  lemma StartedStands(v: int, gw: GatewayState)
    requires gw == Startup(v, gw.self, true, gw.neighbors) && 0 < v < 0x8000
    ensures Stands(gw)
  {
    DeclarationRepresentable(v);
    ReadBackIff(DeclarationKey(v));
  }

  /** What is known of the next RPDU from a to b. */
  ghost predicate Ordinary(g: Graph, a: int, gw: GatewayState, n: RamsNode, r: Rpdu) {
    && r.PetitionRpdu? && Read(r.key) && n in gw.neighbors && n.continuumNbr == a
    && (r.cc == PETITION_ASSERTION || r.cc == PETITION_CANCELLATION) && NoRetraction(gw, Receive(n, r.cc, r.key))
    && (r.key.subjectNbr <= 0 ==>
          r.cc == PETITION_ASSERTION && 0 - r.key.subjectNbr in g && r.key == DeclarationKey(0 - r.key.subjectNbr))
    && (r.cc == PETITION_ASSERTION && Representable(r.key) ==> n !in DgsOf(gw, r.key))
    && (n in gw.declared || (r.cc == PETITION_ASSERTION && r.key == DeclarationKey(a)))
    && TakesNote(gw, HandlePetitionRpdu(gw, n, r.cc, r.key).gw, n, r.cc, r.key)
  }

  lemma NextRpdu(g: Graph, net: Net, a: int, b: int)
    requires NetOk(g, net) && AllOrdinary(g, net) && AllStand(g, net) && a in g && b in g[a] && b in g
    requires Taken(net, a, b) < |Channel(net, a, b)|
    ensures var r := Channel(net, a, b)[Taken(net, a, b)];
      && Ordinary(g, a, net.gws[b], NodeFor(net.gws[b].neighbors, a), r)
      && r in net.gws[a].sent && r.dest == b && GatewayOk(g, b, net.gws[b])
  {
    hide TakesNote, HandlePetitionRpdu, Inv, DgssWithoutDuplicates, Representable, Read, DgsOf, AllOrdinary;
    var sender, gw, n, taken := net.gws[a], net.gws[b], NodeFor(net.gws[b].neighbors, a), Taken(net, a, b);
    var r := Channel(net, a, b)[taken];
    assert LinkOk(sender, gw, n, taken) && GatewayOk(g, a, sender) && GatewayOk(g, b, gw) && Stands(sender);
    OrdinaryRpdu(g, net, a, b);
    ReceiverTakes(sender, gw, n, taken);
    assert NotCancelled(r, DeclarationKey(sender.local));
    if r.key.subjectNbr <= 0 {
      var d := 0 - r.key.subjectNbr;
      assert GatewayOk(g, d, net.gws[d]);
      assert NotCancelled(r, DeclarationKey(d));
    }
  }

  /** The gateway once it has noted who speaks. */
  function Hearing(gw: GatewayState, n: RamsNode, k: Key): GatewayState {
    if k.subjectNbr == 0 - n.continuumNbr then NoteDeclaration(gw, n) else gw
  }

  lemma HearingFacts(g: Graph, a: int, b: int, gw: GatewayState, n: RamsNode, r: Rpdu)
    requires GatewayOk(g, b, gw) && Stands(gw) && Ordinary(g, a, gw, n, r)
    ensures var d := Hearing(gw, n, r.key);
      && LogInv(d) && NodesKnown(d) && NothingPlayedBack(d) && AskedAreDeclared(d) && ListedAreDeclared(d)
      && d.petitions == gw.petitions && d.sent == gw.sent && d.isTree
      && (r.cc == PETITION_ASSERTION ==>
            n in d.declared && Apply(gw, Receive(n, r.cc, r.key))
                            == Logged(HandlePetitionAssertion(d, n, r.key, false), n, r.cc, r.key))
  {
    hide TakesNote, DgsOf, Representable, Read, DeclarationsStand, HandlePetitionAssertion, LogInv, AllSettled;
    DeclarationKeepsAllButSettled(gw, n);
    if r.cc == PETITION_ASSERTION {
      if n in gw.declared { DeclaredMember(gw, n); }
      DeclaredNode(gw, Hearing(gw, n, r.key), n);
    }
  }

  lemma OrdinaryIsTame(g: Graph, a: int, gw: GatewayState, n: RamsNode, r: Rpdu)
    requires Ordinary(g, a, gw, n, r)
    ensures Tame(gw, Receive(n, r.cc, r.key)) && Admissible(gw, Receive(n, r.cc, r.key))
  {
    hide TakesNote;
  }

  lemma StandsAfter(g: Graph, a: int, b: int, gw: GatewayState, n: RamsNode, r: Rpdu)
    requires GatewayOk(g, b, gw) && Stands(gw) && Ordinary(g, a, gw, n, r) && Apply(gw, Receive(n, r.cc, r.key)).ok
    ensures Stands(Apply(gw, Receive(n, r.cc, r.key)).gw)
  {
    hide Inv, TakesNote, DgsOf, Representable, DeclarationsStand, HandlePetitionAssertion, HandlePetitionCancellation;
    InvUniqueKeys(gw);
    ApplyKeepsStanding(gw, Receive(n, r.cc, r.key));
    OrdinaryIsTame(g, a, gw, n, r);
    TameKeepsListed(gw, Receive(n, r.cc, r.key));
    if r.cc == PETITION_CANCELLATION {
      CancellationAsksDeclared(gw, n, r.key);
    } else {
      HearingFacts(g, a, b, gw, n, r);
      AssertionAsksDeclared(Hearing(gw, n, r.key), n, r.key);
    }
  }

  lemma LocalKeepsStanding(g: Graph, s: Net, t: Net, v: int, e: Event)
    requires NetOk(g, s) && AllStand(g, s) && NetStep(g, s, t, LocalEvent(v, e)) && e.key.subjectNbr > 0
    ensures t.gws.Keys == g.Keys && AllStand(g, t)
  {
    hide Apply, LinksOk, Stands, Inv;
    assert GatewayOk(g, v, s.gws[v]) && Stands(s.gws[v]);
    LocalStands(g, v, s.gws[v], e);
    forall w | w in g ensures Stands(t.gws[w]) {
      if w != v { assert Stands(s.gws[w]); }
    }
  }

  lemma LocalStands(g: Graph, v: int, gw: GatewayState, e: Event)
    requires GatewayOk(g, v, gw) && Stands(gw) && !e.Receive? && Noticed(e.key) && e.key.subjectNbr > 0
    requires Apply(gw, e).ok
    ensures Stands(Apply(gw, e).gw)
  {
    hide Apply, Inv, DeclarationsStand, Noticed;
    InvUniqueKeys(gw);
    ApplyKeepsStanding(gw, e);
    TameKeepsListed(gw, e);
    SubscriptionAsksDeclared(gw, e);
  }

  lemma ArrivalKeepsStanding(g: Graph, s: Net, t: Net, a: int, b: int)
    requires NetOk(g, s) && AllOrdinary(g, s) && AllStand(g, s) && NetStep(g, s, t, Arrival(a, b)) && b in g
    ensures t.gws.Keys == g.Keys && AllStand(g, t)
  {
    hide Apply, LinksOk, Stands, Ordinary, GatewayOk;
    NextRpdu(g, s, a, b);
    assert Stands(s.gws[b]);
    StandsAfter(g, a, b, s.gws[b], NodeFor(s.gws[b].neighbors, a), Channel(s, a, b)[Taken(s, a, b)]);
    forall w | w in g ensures Stands(t.gws[w]) {
      if w != b { assert Stands(s.gws[w]); }
    }
  }

  lemma KeysOf(g: Graph, net: Net)
    requires NetOk(g, net)
    ensures net.gws.Keys == g.Keys && Undirected(g)
  {
  }

  lemma {:induction false} NetStaysStanding(g: Graph, run: seq<Net>)
    requires OrdinaryRun(g, run)
    ensures run[|run| - 1].gws.Keys == g.Keys && AllStand(g, run[|run| - 1])
    decreases |run|
  {
    hide NetOk, NetStep, NetStartup, AllStand, AllOrdinary, SteadyRun;
    OrdinaryStaysOk(g, run);
    KeysOf(g, run[|run| - 1]);
    if |run| == 1 {
      StartupStands(g, run[0]);
    } else {
      var s, t := run[|run| - 2], run[|run| - 1];
      var front := run[..|run| - 1];
      assert front[|front| - 1] == s;
      NetStaysStanding(g, front);
      OrdinaryStaysOk(g, front);
      assert StepsOrdinarily(g, s, t);
      var ev :| NetStep(g, s, t, ev) && OrdinaryEvent(ev);
      match ev
      case LocalEvent(v, e) => LocalKeepsStanding(g, s, t, v, e);
      case Arrival(a, b) =>
        KeysOf(g, s);
        ArrivalIsBetween(g, s, t, a, b);
        ArrivalKeepsStanding(g, s, t, a, b);
    }
  }

  lemma ArrivalIsBetween(g: Graph, s: Net, t: Net, a: int, b: int)
    requires NetStep(g, s, t, Arrival(a, b))
    ensures a in g && b in g[a] && a in s.gws && Taken(s, a, b) < |Channel(s, a, b)|
  {
  }

  ghost predicate AllGuided(g: Graph, net: Net)
    requires IsTree(g) && NetOk(g, net)
  {
    forall d {:trigger Guided(g, net, d)} :: d > 0 ==> Guided(g, net, d)
  }

  /** What holds on every run over a tree on which modules keep to application subjects. */
  ghost predicate Sound(g: Graph, net: Net) {
    IsTree(g) && NetOk(g, net) && AllOrdinary(g, net) && AllGuided(g, net) && AllStand(g, net)
  }

  lemma ArrivalKeepsSound(g: Graph, s: Net, t: Net, a: int, b: int)
    requires Sound(g, s) && NetStep(g, s, t, Arrival(a, b))
    ensures Sound(g, t)
  {
    hide IsTree, Guided, LinksOk, GatewayOk, AllStand, AllOrdinary, Apply;
    ArrivalIsBetween(g, s, t, a, b);
    OrdinaryStepKeeps(g, s, t, Arrival(a, b));
    ArrivalKeepsOk(g, s, t, a, b);
    forall d | d > 0 ensures Guided(g, t, d) {
      assert Guided(g, s, d);
      ArrivalKeepsGuided(g, s, t, a, b, d);
    }
    assert b in g by { assert b in s.gws; }
    ArrivalKeepsStanding(g, s, t, a, b);
  }

  lemma AllAskedAt(g: Graph, net: Net, v: int)
    requires Sound(g, net) && v in g
    ensures AllAsked(net.gws[v])
  {
    hide IsTree, LinksOk, Declares, LogInv, NodesKnown, DgssWithoutDuplicates, AskedOf, AllStand;
    hide Conduits.AllOneWay, Conduits.OnlyDeclared;
    var gw := net.gws[v];
    assert GatewayOk(g, v, gw);
    forall i, n | 0 <= i < |gw.petitions| && gw.petitions[i].key.subjectNbr > 0 && Representable(gw.petitions[i].key)
                  && Assertable(gw, gw.petitions[i]) && n in DomainNodes(gw, gw.petitions[i].key)
      ensures AskedOf(gw.petitions[i], n)
    {
      var c := gw.petitions[i].key.continuumNbr;
      if c == 0 {
        assert Settled(gw, i, None);
      } else {
        assert Guided(g, net, c);
        if c !in g || c == v { Conduits.NoConduitThere(g, net, v, c); }
        LeadsUp(g, net, c, v);
        assert SettledUpAt(g, net, c, v);
        ConduitIsUp(gw, c, Conduits.Up(g, net, c, v));
        assert SettledFor(gw, i, c, Conduits.Up(g, net, c, v));
      }
    }
  }

  /** The next RPDU on any link can arrive: all sends that follow from it succeed. */
  lemma ArrivalSucceeds(g: Graph, net: Net, a: int, b: int) returns (t: Net)
    requires Sound(g, net) && a in g && b in g[a] && Taken(net, a, b) < |Channel(net, a, b)|
    ensures NetStep(g, net, t, Arrival(a, b))
  {
    hide IsTree, AllGuided, AllOrdinary, LinksOk, GatewayOk, Ordinary, Apply;
    assert b in g && Stands(net.gws[b]);
    NextRpdu(g, net, a, b);
    var gw, n, r := net.gws[b], NodeFor(net.gws[b].neighbors, a), Channel(net, a, b)[Taken(net, a, b)];
    HandlingSucceeds(g, a, b, gw, n, r);
    t := Net(net.gws[b := Apply(gw, Receive(n, r.cc, r.key)).gw], net.taken[(a, b) := Taken(net, a, b) + 1]);
  }

  lemma HandlingSucceeds(g: Graph, a: int, b: int, gw: GatewayState, n: RamsNode, r: Rpdu)
    requires GatewayOk(g, b, gw) && Stands(gw) && Ordinary(g, a, gw, n, r)
    ensures n in gw.neighbors && n.continuumNbr == a && r.PetitionRpdu? && Apply(gw, Receive(n, r.cc, r.key)).ok
  {
    hide GatewayOk, TakesNote, DgsOf, Representable, DeclarationsStand;
    hide HandlePetitionAssertion, HandlePetitionCancellation;
    if r.cc == PETITION_CANCELLATION {
      CancellationSucceeds(gw, n, r.key);
    } else {
      HearingFacts(g, a, b, gw, n, r);
      AssertionSucceeds(Hearing(gw, n, r.key), n, r.key);
    }
  }

  // ---------- first rank: conduits still to be learned ----------

  /** The pairs of a continuum and a gateway that has no conduit to it yet. */
  ghost function Unknown(g: Graph, net: Net): set<(int, int)>
    requires net.gws.Keys == g.Keys
  {
    set d, v | d in g && v in g && d != v && !Known(net.gws[v], d) :: (d, v)
  }

  lemma KnownIsListed(g: Graph, net: Net, v: int, d: int)
    requires NetOk(g, net) && Conduits.OnlyDeclared(g, net, d) && v in g && d in g
    ensures 0 < d < 0x8000 && (Known(net.gws[v], d) <==> DgsOf(net.gws[v], DeclarationKey(d)) != [])
  {
    hide DgssWithoutDuplicates, Declares, AllSettled, NodesKnown, LinksOk;
    var gw := net.gws[v];
    assert GatewayOk(g, v, gw) && GatewayOk(g, d, net.gws[d]);
    DeclarationRepresentable(d);
    KnownIff(gw.petitions, d);
    forall i | 0 <= i < |gw.petitions| && gw.petitions[i].key.subjectNbr == 0 - d
      ensures FindPetition(gw.petitions, DeclarationKey(d)) == i
    {
      assert gw.petitions[i].key == DeclarationKey(d);
    }
  }

  /** No arrival makes a conduit unknown, and one of another gateway's declaration makes it known. */
  lemma KnownGrows(g: Graph, s: Net, t: Net, a: int, b: int, n: RamsNode, r: Rpdu, d: int)
    requires NetOk(g, s) && NetOk(g, t) && b in g && d in g
    requires Conduits.OnlyDeclared(g, s, d) && Conduits.OnlyDeclared(g, t, d)
    requires Ordinary(g, a, s.gws[b], n, r) && t.gws[b] == HandlePetitionRpdu(s.gws[b], n, r.cc, r.key).gw
    ensures Known(s.gws[b], d) || r.key == DeclarationKey(d) ==> Known(t.gws[b], d)
  {
    hide GatewayOk, LinksOk, HandlePetitionRpdu, DgsOf, Known, Conduits.OnlyDeclared, Representable;
    var gw, h, k := s.gws[b], t.gws[b], DeclarationKey(d);
    KnownIsListed(g, s, b, d);
    KnownIsListed(g, t, b, d);
    DeclarationRepresentable(d);
    if r.key == k {
      assert n in DgsOf(h, k);
    } else if DgsOf(gw, k) != [] {
      assert DgsOf(gw, k)[0] in DgsOf(gw, k);
      assert DgsOf(gw, k)[0] in DgsOf(h, k);
    }
  }

  lemma UnknownShrinks(g: Graph, s: Net, t: Net, a: int, b: int)
    requires Sound(g, s) && Sound(g, t) && NetStep(g, s, t, Arrival(a, b))
    requires a in g && b in g[a] && Taken(s, a, b) < |Channel(s, a, b)|
    ensures Unknown(g, t) <= Unknown(g, s)
    ensures Channel(s, a, b)[Taken(s, a, b)].PetitionRpdu?
    ensures Channel(s, a, b)[Taken(s, a, b)].key.subjectNbr <= 0 ==> Unknown(g, t) != Unknown(g, s)
  {
    hide IsTree, LinksOk, HandlePetitionRpdu, Known, Inv, Declares, TakesNote, Conduits.AllOneWay,
        Conduits.OnlyDeclared;
    hide DgssWithoutDuplicates, AllStand, AllOrdinary, AllSettledUp, DgsOf;
    var gw, n, r := s.gws[b], NodeFor(s.gws[b].neighbors, a), Channel(s, a, b)[Taken(s, a, b)];
    NextRpdu(g, s, a, b);
    forall d | d in g ensures Known(gw, d) || r.key == DeclarationKey(d) ==> Known(t.gws[b], d) {
      LocalIs(g, s, d);
      assert Guided(g, s, d) && Guided(g, t, d);
      KnownGrows(g, s, t, a, b, n, r, d);
    }
    if r.key.subjectNbr <= 0 {
      var d := 0 - r.key.subjectNbr;
      NewlyKnown(g, s, a, b, d);
      assert (d, b) in Unknown(g, s) && (d, b) !in Unknown(g, t);
    }
  }

  lemma NotItsOwn(g: Graph, net: Net, a: int, b: int, r: Rpdu)
    requires Sound(g, net) && a in g && b in g[a] && b in g && r in net.gws[a].sent
    requires r.PetitionRpdu? && r.cc == PETITION_ASSERTION && r.dest == b
    ensures r.key != DeclarationKey(b)
  {
    hide IsTree, LinksOk, Inv, Declares, DgssWithoutDuplicates, AllStand, AllSettledUp, Conduits.OnlyDeclared;
    ParentIsNeighbor(g, b, a);
    LocalIs(g, net, b);
    assert Guided(g, net, b) && GatewayOk(g, a, net.gws[a]);
    assert Conduits.OneWayTo(g, net, b, a);
  }

  lemma FirstIsMember<T>(s: seq<T>)
    ensures s != [] ==> s[0] in s
  {
  }

  lemma NobodyListed(gw: GatewayState, d: int, up: RamsNode)
    requires Leads(gw, d, up) && up !in DgsOf(gw, DeclarationKey(d))
    ensures DgsOf(gw, DeclarationKey(d)) == []
  {
    FirstIsMember(DgsOf(gw, DeclarationKey(d)));
  }

  /** A declaration that arrives is somebody else's, and news. */
  lemma NewlyKnown(g: Graph, net: Net, a: int, b: int, d: int)
    requires Sound(g, net) && a in g && b in g[a] && b in g && Taken(net, a, b) < |Channel(net, a, b)|
    requires var r := Channel(net, a, b)[Taken(net, a, b)];
      r.PetitionRpdu? && r.key.subjectNbr <= 0 && d == 0 - r.key.subjectNbr
    ensures Channel(net, a, b)[Taken(net, a, b)].key == DeclarationKey(d)
    ensures d in g && d != b && !Known(net.gws[b], d)
  {
    hide IsTree, LinksOk, Inv, Declares, DgssWithoutDuplicates, TakesNote, AllSettledUp, Conduits.AllOneWay;
    hide Conduits.OnlyDeclared, AllOrdinary;
    var gw, n, r := net.gws[b], NodeFor(net.gws[b].neighbors, a), Channel(net, a, b)[Taken(net, a, b)];
    NextRpdu(g, net, a, b);
    LocalIs(g, net, d);
    assert Guided(g, net, d) && GatewayOk(g, a, net.gws[a]);
    DeclarationRepresentable(d);
    NotItsOwn(g, net, a, b, r);
    Conduits.DeclarationsComeFromUp(g, net, a, b, r, d);
    LeadsUp(g, net, d, b);
    KnownIsListed(g, net, b, d);
    NobodyListed(gw, d, n);
  }

  // ---------- second rank: what is under way, and what may yet be cancelled ----------

  /** The weight of what c has taken from v. */
  ghost function Took(g: Graph, net: Net, v: int, c: int): int
    requires IsTree(g)
  {
    if v in g && v in net.gws && Taken(net, v, c) <= |Channel(net, v, c)|
    then Issued(g, v, Channel(net, v, c)[..Taken(net, v, c)]) else 0
  }

  /** The weight of what v's neighbours have still to take from it, and the entries of its SGSs. */
  ghost function Held(g: Graph, net: Net, v: int): int
    requires IsTree(g)
  {
    if v in g && v in net.gws
    then HeldSgs(net.gws[v].petitions) + Issued(g, v, net.gws[v].sent) - Sum(g[v], c => Took(g, net, v, c)) else 0
  }

  ghost function Backlog(g: Graph, net: Net): int
    requires IsTree(g)
  {
    Sum(g.Keys, v => Held(g, net, v))
  }

  lemma {:induction false} TakenAtMostIssued(g: Graph, v: int, sent: seq<Rpdu>)
    requires IsTree(g) && v in g
    ensures Sum(g[v], c => Issued(g, v, SentTo(sent, c))) <= Issued(g, v, sent)
  {
    hide IsTree, Weight;
    var f := c => Issued(g, v, SentTo(sent, c));
    if sent == [] {
      SumAtMost(g[v], f, c => 0);
      SumOfZeros(g[v]);
    } else {
      var front, r := sent[..|sent| - 1], sent[|sent| - 1];
      TakenAtMostIssued(g, v, front);
      var weight := if r.PetitionRpdu? then Weight(g, v, r) else 0;
      var dest := if r.PetitionRpdu? then r.dest else 0;
      forall c | c in g[v]
        ensures Issued(g, v, SentTo(sent, c)) == Issued(g, v, SentTo(front, c)) + if c == dest then weight else 0
      {
        assert (SentTo(front, c) + [r])[..|SentTo(front, c)|] == SentTo(front, c);
      }
      SumChanges(g[v], c => Issued(g, v, SentTo(front, c)), f, dest, weight);
    }
  }

  lemma {:induction false} SumOfZeros(nodes: set<int>)
    ensures Sum(nodes, c => 0) == 0
    decreases |nodes|
  {
    if y :| y in nodes {
      SumSplits(nodes, c => 0, y);
      SumOfZeros(nodes - {y});
    }
  }

  lemma HeldIsNat(g: Graph, net: Net, v: int)
    requires IsTree(g)
    ensures Held(g, net, v) >= 0
  {
    hide IsTree, Weight;
    if v in g && v in net.gws {
      var sent := net.gws[v].sent;
      forall c | c in g[v] ensures Took(g, net, v, c) <= Issued(g, v, SentTo(sent, c)) {
        var channel, t := SentTo(sent, c), Taken(net, v, c);
        if t <= |channel| {
          assert channel == channel[..t] + channel[t..];
          IssuedTogether(g, v, channel[..t], channel[t..]);
        }
      }
      SumAtMost(g[v], c => Took(g, net, v, c), c => Issued(g, v, SentTo(sent, c)));
      TakenAtMostIssued(g, v, sent);
    }
  }

  lemma BacklogIsNat(g: Graph, net: Net)
    requires IsTree(g)
    ensures Backlog(g, net) >= 0
  {
    hide IsTree, Held;
    forall v | v in g ensures Held(g, net, v) >= 0 { HeldIsNat(g, net, v); }
    SumAtMost(g.Keys, c => 0, v => Held(g, net, v));
    SumOfZeros(g.Keys);
  }

  /** What an arrival from a at b does to the backlog, as b's sent log and SGSs say. */
  lemma BacklogChanges(g: Graph, s: Net, t: Net, a: int, b: int, more: seq<Rpdu>)
    requires IsTree(g) && NetOk(g, s) && a in g && b in g[a] && b in g && a != b
    requires Taken(s, a, b) < |Channel(s, a, b)| && t.gws.Keys == g.Keys && t.gws == s.gws[b := t.gws[b]]
    requires t.taken == s.taken[(a, b) := Taken(s, a, b) + 1] && t.gws[b].sent == s.gws[b].sent + more
    ensures Backlog(g, t) == Backlog(g, s) - Weight(g, a, Channel(s, a, b)[Taken(s, a, b)])
                             + HeldSgs(t.gws[b].petitions) - HeldSgs(s.gws[b].petitions) + Issued(g, b, more)
  {
    hide IsTree, Weight, HeldSgs, LinksOk, GatewayOk, Issued, Channel;
    var weight: int := Weight(g, a, Channel(s, a, b)[Taken(s, a, b)]);
    var delta := HeldSgs(t.gws[b].petitions) - HeldSgs(s.gws[b].petitions) + Issued(g, b, more);
    forall v | v in g
      ensures Held(g, t, v) == Held(g, s, v) + (if v == a then 0 - weight else 0) + if v == b then delta else 0
    {
      HeldChanges(g, s, t, a, b, more, v);
    }
    hide Held;
    var between := v => Held(g, s, v) + if v == a then 0 - weight else 0;
    SumChanges(g.Keys, v => Held(g, s, v), between, a, 0 - weight);
    SumChanges(g.Keys, between, v => Held(g, t, v), b, delta);
  }

  lemma HeldChanges(g: Graph, s: Net, t: Net, a: int, b: int, more: seq<Rpdu>, v: int)
    requires IsTree(g) && NetOk(g, s) && a in g && b in g[a] && b in g && a != b && v in g
    requires Taken(s, a, b) < |Channel(s, a, b)| && t.gws.Keys == g.Keys && t.gws == s.gws[b := t.gws[b]]
    requires t.taken == s.taken[(a, b) := Taken(s, a, b) + 1] && t.gws[b].sent == s.gws[b].sent + more
    ensures Held(g, t, v) == Held(g, s, v)
      + (if v == a then 0 - Weight(g, a, Channel(s, a, b)[Taken(s, a, b)]) else 0)
      + (if v == b then HeldSgs(t.gws[b].petitions) - HeldSgs(s.gws[b].petitions) + Issued(g, b, more) else 0)
  {
    hide Trees.Joined, Weight, HeldSgs, Inv, Declares;
    var weight: int := Weight(g, a, Channel(s, a, b)[Taken(s, a, b)]);
    forall c | c in g[v] ensures Took(g, t, v, c) == Took(g, s, v, c) + if v == a && c == b then weight else 0 {
      assert GatewayOk(g, c, s.gws[c]);
      assert LinkOk(s.gws[v], s.gws[c], NodeFor(s.gws[c].neighbors, v), Taken(s, v, c));
      TookChanges(g, s, t, a, b, more, v, c);
    }
    SumChanges(g[v], c => Took(g, s, v, c), c => Took(g, t, v, c), b, if v == a then weight else 0);
    if v == b { IssuedTogether(g, b, s.gws[b].sent, more); }
  }

  lemma TookChanges(g: Graph, s: Net, t: Net, a: int, b: int, more: seq<Rpdu>, v: int, c: int)
    requires IsTree(g) && s.gws.Keys == g.Keys && a in g && b in g && a != b && v in g
    requires Taken(s, v, c) <= |Channel(s, v, c)|
    requires Taken(s, a, b) < |Channel(s, a, b)| && t.gws.Keys == g.Keys && t.gws == s.gws[b := t.gws[b]]
    requires t.taken == s.taken[(a, b) := Taken(s, a, b) + 1] && t.gws[b].sent == s.gws[b].sent + more
    ensures Took(g, t, v, c)
         == Took(g, s, v, c) + if v == a && c == b then Weight(g, a, Channel(s, a, b)[Taken(s, a, b)]) else 0
  {
    hide IsTree, Weight;
    SentToGrows(s.gws[v].sent, t.gws[v].sent, c);
    var channel, taken := Channel(s, v, c), Taken(s, v, c);
    assert Channel(t, v, c)[..taken] == channel[..taken];
    if v == a && c == b {
      assert channel[..taken + 1][..taken] == channel[..taken];
    }
  }

  // ---------- every arrival lowers the rank ----------

  /** More conduits are known, or as many and less is under way. */
  ghost predicate Nearer(g: Graph, s: Net, t: Net)
    requires IsTree(g) && s.gws.Keys == g.Keys && t.gws.Keys == g.Keys
  {
    || |Unknown(g, t)| < |Unknown(g, s)|
    || (|Unknown(g, t)| == |Unknown(g, s)| && Backlog(g, t) < Backlog(g, s))
  }

  /** Not the other way round. */
  ghost predicate NotFarther(g: Graph, s: Net, t: Net)
    requires IsTree(g) && s.gws.Keys == g.Keys && t.gws.Keys == g.Keys
  {
    || |Unknown(g, t)| < |Unknown(g, s)|
    || (|Unknown(g, t)| == |Unknown(g, s)| && Backlog(g, t) <= Backlog(g, s))
  }

  /** A petition RPDU on an application subject that arrives weighs more than all that it makes its receiver send, if
      its key is representable, and as much as that, namely nothing, otherwise. */
  lemma ApplicationLowersBacklog(g: Graph, s: Net, t: Net, a: int, b: int)
    requires Sound(g, s) && NetStep(g, s, t, Arrival(a, b)) && t.gws.Keys == g.Keys && a in g && b in g[a] && b in g
    requires Taken(s, a, b) < |Channel(s, a, b)|
    requires var r := Channel(s, a, b)[Taken(s, a, b)]; r.PetitionRpdu? && r.key.subjectNbr > 0
    ensures if Representable(Channel(s, a, b)[Taken(s, a, b)].key) then Backlog(g, t) < Backlog(g, s)
            else Backlog(g, t) == Backlog(g, s)
  {
    hide IsTree, LinksOk, AllGuided, AllOrdinary, Inv, TakesNote, Backlog, Declares, Read, ReadBack;
    hide HandlePetitionAssertion, HandlePetitionCancellation, Representable, DgssWithoutDuplicates, DgsOf, AllStand;
    var gw, n, r := s.gws[b], NodeFor(s.gws[b].neighbors, a), Channel(s, a, b)[Taken(s, a, b)];
    NextRpdu(g, s, a, b);
    ParentIsNeighbor(g, a, b);
    LocalIs(g, s, a);
    AsHandled(g, a, b, gw, n, r);
    InvUniqueKeys(gw);
    CancelledKey(r.key);
    hide HandlePetitionRpdu;
    var more: seq<Rpdu>;
    if r.cc == PETITION_CANCELLATION {
      more := CancellationReleases(gw, n, r.key);
      IssuedCancellations(g, b, more, ReadBack(r.key));
    } else if Representable(r.key) {
      AllAskedAt(g, s, b);
      var nodes := AssertionIssues(gw, n, r.key);
      more := Assertions(nodes, r.key);
      AssertionsWeighLess(g, a, b, gw, n, r, nodes);
    } else {
      InvNothing(gw);
      more := OtherAssertionIssues(gw, n, r.key);
      IssuedForNothing(g, b, more);
    }
    BacklogChanges(g, s, t, a, b, more);
  }

  lemma InvNothing(gw: GatewayState)
    requires Inv(gw)
    ensures NothingPlayedBack(gw)
  {
  }

  lemma AsHandled(g: Graph, a: int, b: int, gw: GatewayState, n: RamsNode, r: Rpdu)
    requires GatewayOk(g, b, gw) && Ordinary(g, a, gw, n, r) && r.key.subjectNbr > 0 && a > 0
    ensures Apply(gw, Receive(n, r.cc, r.key))
         == Logged(if r.cc == PETITION_CANCELLATION then HandlePetitionCancellation(gw, n, r.key, false)
                   else HandlePetitionAssertion(gw, n, r.key, false), n, r.cc, r.key)
  {
    hide HandlePetitionAssertion, HandlePetitionCancellation, GatewayOk, TakesNote;
    if n in gw.declared { DeclaredMember(gw, n); }
  }

  lemma AssertionsWeighLess(g: Graph, a: int, b: int, gw: GatewayState, n: RamsNode, r: Rpdu, nodes: seq<RamsNode>)
    requires IsTree(g) && GatewayOk(g, b, gw) && a in g && b in g[a] && b in g && n in gw.neighbors
    requires n.continuumNbr == a && r.PetitionRpdu? && r.dest == b && r.cc == PETITION_ASSERTION
    requires Representable(r.key) && NoDup(nodes) && n !in nodes && forall m :: m in nodes ==> m in gw.neighbors
    ensures Issued(g, b, Assertions(nodes, r.key)) + |nodes| < Weight(g, a, r)
  {
    hide IsTree, Inv;
    NeighborFacts(gw);
    IssuedAssertions(g, b, nodes, r.key);
    BeyondShrinks(g, a, b, Continua(nodes));
  }

  /** Every arrival brings the network nearer to rest if it is about a representable key, and no farther from it in any
      case. */
  lemma ArrivalLowersRank(g: Graph, s: Net, t: Net, a: int, b: int)
    requires Sound(g, s) && NetStep(g, s, t, Arrival(a, b))
    ensures Sound(g, t) && NotFarther(g, s, t)
    ensures NextIsRepresentable(s, a, b) ==> Nearer(g, s, t)
  {
    hide IsTree, NetStep, LinksOk, AllGuided, AllOrdinary, GatewayOk, Backlog, AllStand, Unknown, Representable;
    ArrivalKeepsSound(g, s, t, a, b);
    ArrivalIsBetween(g, s, t, a, b);
    UnknownShrinks(g, s, t, a, b);
    if Unknown(g, t) != Unknown(g, s) {
      Fewer(Unknown(g, t), Unknown(g, s));
    } else {
      assert b in g;
      ApplicationLowersBacklog(g, s, t, a, b);
    }
  }

  /** The next RPDU from a to b is about a representable key. */
  ghost predicate NextIsRepresentable(net: Net, a: int, b: int) {
    && a in net.gws && Taken(net, a, b) < |Channel(net, a, b)|
    && Channel(net, a, b)[Taken(net, a, b)].PetitionRpdu?
    && Representable(Channel(net, a, b)[Taken(net, a, b)].key)
  }

  lemma SoundIsTree(g: Graph, net: Net)
    requires Sound(g, net)
    ensures IsTree(g) && net.gws.Keys == g.Keys
  {
  }

  ghost predicate Arrives(g: Graph, s: Net, t: Net) {
    exists a, b :: NetStep(g, s, t, Arrival(a, b))
  }

  /** States of the network that follow each other by arrivals. */
  ghost predicate ArrivalPath(g: Graph, path: seq<Net>) {
    path != [] && forall i :: 0 < i < |path| ==> Arrives(g, path[i - 1], path[i])
  }

  ghost predicate ArrivesRepresentable(g: Graph, s: Net, t: Net) {
    exists a, b :: NetStep(g, s, t, Arrival(a, b)) && NextIsRepresentable(s, a, b)
  }

  /** However petition RPDUs go on arriving, there comes an end to those about representable keys: no sequence of
      arrivals holds infinitely many of them. */
  least predicate Ends(g: Graph, net: Net) {
    forall path, t :: ArrivalPath(g, path) && path[0] == net && ArrivesRepresentable(g, path[|path| - 1], t) ==>
      Ends(g, t)
  }

  lemma {:induction false} PathNotFarther(g: Graph, path: seq<Net>)
    requires ArrivalPath(g, path) && Sound(g, path[0])
    ensures Sound(g, path[|path| - 1]) && NotFarther(g, path[0], path[|path| - 1])
    decreases |path|
  {
    hide Sound, NetStep, Unknown, Backlog;
    SoundIsTree(g, path[0]);
    if |path| > 1 {
      var front, s, t := path[..|path| - 1], path[|path| - 2], path[|path| - 1];
      forall i | 0 < i < |front| ensures Arrives(g, front[i - 1], front[i]) { assert Arrives(g, path[i - 1], path[i]); }
      assert front[0] == path[0] && front[|front| - 1] == s;
      PathNotFarther(g, front);
      SoundIsTree(g, s);
      assert Arrives(g, s, t);
      var a, b :| NetStep(g, s, t, Arrival(a, b));
      ArrivalLowersRank(g, s, t, a, b);
      SoundIsTree(g, t);
    }
  }

  lemma {:induction false} SoundEnds(g: Graph, net: Net)
    requires Sound(g, net)
    ensures Ends(g, net)
    decreases |Unknown(g, net)|, Backlog(g, net)
  {
    hide Sound, NetStep, Unknown, Backlog, NextIsRepresentable, Arrives;
    forall path, t | ArrivalPath(g, path) && path[0] == net && ArrivesRepresentable(g, path[|path| - 1], t)
      ensures Ends(g, t)
    {
      var s := path[|path| - 1];
      PathNotFarther(g, path);
      var a, b :| NetStep(g, s, t, Arrival(a, b)) && NextIsRepresentable(s, a, b);
      ArrivalLowersRank(g, s, t, a, b);
      SoundIsTree(g, net);
      BacklogIsNat(g, t);
      SoundEnds(g, t);
    }
  }

  /** Nothing but arrivals leads from net by way of rest, and then nothing about a representable key is under way. */
  ghost predicate ComesToRest(g: Graph, net: Net, rest: seq<Net>) {
    && ArrivalPath(g, [net] + rest)
    && ([net] + rest)[|rest|].gws.Keys == g.Keys && Drained(g, ([net] + rest)[|rest|])
  }

  lemma PathGrows(g: Graph, s: Net, t: Net, more: seq<Net>)
    requires Arrives(g, s, t) && ArrivalPath(g, [t] + more)
    ensures ArrivalPath(g, [s] + ([t] + more))
  {
    hide Arrives;
    var path := [s] + ([t] + more);
    forall i | 0 < i < |path| ensures Arrives(g, path[i - 1], path[i]) {
      if i > 1 { assert Arrives(g, ([t] + more)[i - 2], ([t] + more)[i - 1]); }
    }
  }

  /** Everything on the way to b up to the RPDU at p can arrive, and if that is about a representable key, the rank is
      lower then; and from there on to rest. */
  lemma {:induction false} RestIsReachedBy(g: Graph, net: Net, a: int, b: int, p: nat) returns (rest: seq<Net>)
    requires Sound(g, net) && a in g && b in g[a] && Taken(net, a, b) <= p < |Channel(net, a, b)|
    requires Channel(net, a, b)[p].PetitionRpdu? && Representable(Channel(net, a, b)[p].key)
    ensures ComesToRest(g, net, rest)
    decreases |Unknown(g, net)|, Backlog(g, net), 0, p - Taken(net, a, b)
  {
    hide Sound, Unknown, Backlog, Drained, Representable, ArrivalPath, IsTree, NotFarther;
    SoundIsTree(g, net);
    var t := ArrivalSucceeds(g, net, a, b);
    ArrivalLowersRank(g, net, t, a, b);
    BacklogIsNat(g, t);
    NotAlone(g, a, b);
    assert Channel(t, a, b) == Channel(net, a, b) && Taken(t, a, b) == Taken(net, a, b) + 1;
    assert Arrives(g, net, t);
    hide NetStep;
    var more: seq<Net>;
    RankSteps(g, net, t);
    if Taken(net, a, b) < p {
      more := RestIsReachedBy(g, t, a, b, p);
    } else {
      more := RestIsReached(g, t);
    }
    PathGrows(g, net, t, more);
    rest := [t] + more;
    assert ([net] + rest)[|rest|] == ([t] + more)[|more|];
  }

  lemma NotAlone(g: Graph, a: int, b: int)
    requires IsTree(g) && a in g && b in g[a]
    ensures a != b && b in g
  {
  }

  lemma RankSteps(g: Graph, s: Net, t: Net)
    requires IsTree(g) && s.gws.Keys == g.Keys && t.gws.Keys == g.Keys && NotFarther(g, s, t)
    ensures |Unknown(g, t)| < |Unknown(g, s)| || (|Unknown(g, t)| == |Unknown(g, s)| && Backlog(g, t) <= Backlog(g, s))
  {
  }

  lemma {:induction false} RestIsReached(g: Graph, net: Net) returns (rest: seq<Net>)
    requires Sound(g, net)
    ensures ComesToRest(g, net, rest)
    decreases |Unknown(g, net)|, Backlog(g, net), 1, 0
  {
    hide Sound, NetStep, Unknown, Backlog, Representable;
    SoundIsTree(g, net);
    if a, b, p :| a in g && b in g[a] && Taken(net, a, b) <= p < |Channel(net, a, b)|
                  && (Channel(net, a, b)[p].PetitionRpdu? ==> Representable(Channel(net, a, b)[p].key)) {
      OnlyPetitions(g, net, a, b, p);
      rest := RestIsReachedBy(g, net, a, b, p);
    } else {
      rest := [];
    }
  }

  lemma OnlyPetitions(g: Graph, net: Net, a: int, b: int, p: nat)
    requires a in net.gws && p < |Channel(net, a, b)|
    ensures Channel(net, a, b)[p].PetitionRpdu?
  {
    ChannelMembers(net.gws[a].sent, b);
    assert Channel(net, a, b)[p] in Channel(net, a, b);
  }

  /** Every petition anywhere has a key that its envelope keeps. */
  ghost predicate AllRepresentable(net: Net) {
    forall v, i :: v in net.gws && 0 <= i < |net.gws[v].petitions| ==> Representable(net.gws[v].petitions[i].key)
  }

  lemma KeyArrives(g: Graph, net: Net, a: int, b: int)
    requires NetOk(g, net) && AllRepresentable(net) && a in g && Taken(net, a, b) < |Channel(net, a, b)|
    ensures NextIsRepresentable(net, a, b)
  {
    hide Representable, Declares, DgssWithoutDuplicates, Settled, SgsMirrorsLog, UniqueKeys, ReadBack;
    var sender, r := net.gws[a], Channel(net, a, b)[Taken(net, a, b)];
    assert GatewayOk(g, a, sender);
    ChannelMembers(sender.sent, b);
    assert r in Channel(net, a, b);
    assert NamesPetition(sender, r.key);
    var w :| 0 <= w < |sender.petitions|
             && (r.key == sender.petitions[w].key || r.key == ReadBack(sender.petitions[w].key));
    assert Representable(sender.petitions[w].key);
    ReadBackKeepsApart(sender.petitions[w].key);
  }

  lemma ArrivalKeepsRepresentable(g: Graph, s: Net, t: Net, a: int, b: int)
    requires NetOk(g, s) && AllRepresentable(s) && NetStep(g, s, t, Arrival(a, b))
    ensures AllRepresentable(t) && NextIsRepresentable(s, a, b)
  {
    hide LinksOk, GatewayOk, Apply, Representable;
    ArrivalIsBetween(g, s, t, a, b);
    KeyArrives(g, s, a, b);
    var r := Channel(s, a, b)[Taken(s, a, b)];
    var e := Receive(NodeFor(s.gws[b].neighbors, a), r.cc, r.key);
    ReadBackKeepsApart(r.key);
    ApplyKeepsKeys(s.gws[b], e);
    forall v, i | v in t.gws && 0 <= i < |t.gws[v].petitions| ensures Representable(t.gws[v].petitions[i].key) {
      if v == b && i >= |s.gws[b].petitions| {
        assert t.gws[b].petitions[i].key == r.key;
      } else {
        assert t.gws[v].petitions[i].key == s.gws[v].petitions[i].key;
      }
    }
  }

  /** If all petitions have representable keys, every RPDU that ever arrives is about one. */
  lemma {:induction false} EveryArrivalCounts(g: Graph, path: seq<Net>)
    requires ArrivalPath(g, path) && Sound(g, path[0]) && AllRepresentable(path[0])
    ensures AllRepresentable(path[|path| - 1])
    ensures |path| > 1 ==> ArrivesRepresentable(g, path[|path| - 2], path[|path| - 1])
    decreases |path|
  {
    hide Sound, NetStep, AllRepresentable, NextIsRepresentable, NetOk;
    if |path| > 1 {
      var front, s, t := path[..|path| - 1], path[|path| - 2], path[|path| - 1];
      forall i | 0 < i < |front| ensures Arrives(g, front[i - 1], front[i]) { assert Arrives(g, path[i - 1], path[i]); }
      assert front[0] == path[0] && front[|front| - 1] == s;
      EveryArrivalCounts(g, front);
      PathNotFarther(g, front);
      SoundIsOk(g, s);
      assert Arrives(g, s, t);
      var a, b :| NetStep(g, s, t, Arrival(a, b));
      ArrivalKeepsRepresentable(g, s, t, a, b);
    }
  }

  lemma SoundIsOk(g: Graph, net: Net)
    requires Sound(g, net)
    ensures NetOk(g, net)
  {
  }

  lemma {:induction false} ContinuedRun(g: Graph, run: seq<Net>, rest: seq<Net>)
    requires OrdinaryRun(g, run) && ComesToRest(g, run[|run| - 1], rest)
    ensures OrdinaryRun(g, run + rest)
  {
    hide NetStartup, NetStep, Drained;
    var states := [run[|run| - 1]] + rest;
    forall i | 0 < i < |run + rest| ensures StepsOrdinarily(g, (run + rest)[i - 1], (run + rest)[i]) {
      if i >= |run| {
        var j := i - |run| + 1;
        assert Arrives(g, states[j - 1], states[j]);
        var a, b :| NetStep(g, states[j - 1], states[j], Arrival(a, b));
        assert OrdinaryEvent(Arrival(a, b));
      } else {
        assert StepsOrdinarily(g, run[i - 1], run[i]);
      }
    }
  }

  lemma RunIsSound(g: Graph, run: seq<Net>)
    requires IsTree(g) && OrdinaryRun(g, run)
    ensures Sound(g, run[|run| - 1])
  {
    hide IsTree, NetStartup, StepsOrdinarily, NetOk, Guided, AllStand, AllOrdinary;
    OrdinaryStaysOk(g, run);
    NetStaysStanding(g, run);
    var net := run[|run| - 1];
    forall d | d > 0 ensures Guided(g, net, d) {
      Conduits.OrdinaryIsApart(g, run, d);
      NetStaysSettledUp(g, run, d);
    }
  }

  /** After any run over a tree on which modules keep to application subjects, whatever keys are about, and as long as
      modules leave their subscriptions as they are: no order of arrival goes on for ever with RPDUs about
      representable keys, and every state can go on to one with none of these under way. If all petitions have
      representable keys, these are all the RPDUs there are. */
  lemma PropagationEnds(g: Graph, run: seq<Net>)
    requires IsTree(g) && OrdinaryRun(g, run)
    ensures Ends(g, run[|run| - 1])
    ensures exists rest :: ComesToRest(g, run[|run| - 1], rest) && OrdinaryRun(g, run + rest)
    ensures AllRepresentable(run[|run| - 1]) ==>
      forall path :: ArrivalPath(g, path) && path[0] == run[|run| - 1] && |path| > 1 ==>
        ArrivesRepresentable(g, path[|path| - 2], path[|path| - 1])
  {
    hide IsTree, Sound, NetStartup, StepsOrdinarily, ComesToRest, Ends, AllRepresentable, Arrives, ArrivesRepresentable;
    RunIsSound(g, run);
    forall path | AllRepresentable(run[|run| - 1]) && ArrivalPath(g, path) && path[0] == run[|run| - 1] && |path| > 1
      ensures ArrivesRepresentable(g, path[|path| - 2], path[|path| - 1])
    {
      EveryArrivalCounts(g, path);
    }
    SoundEnds(g, run[|run| - 1]);
    var rest := RestIsReached(g, run[|run| - 1]);
    ContinuedRun(g, run, rest);
  }
}
