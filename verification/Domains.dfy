/** Subscriptions limited to one continuum: on a tree of gateways each of them asks its conduit to that continuum,
    and so on along the path, and publications come back the same way. */
module Domains {
  import opened Bytes
  import opened Enclosures
  import opened Envelope
  import opened Lists
  import opened Onward
  import opened Options
  import opened Petitions
  import opened PetitionLaws
  import opened Relaying
  import opened RelayLaws
  import opened Routing
  import opened Trees
  import opened Units
  import Conduits
  import Delivery

  // ---------- one gateway ----------

  /** Only up leads to continuum d. */
  ghost predicate Leads(gw: GatewayState, d: int, up: RamsNode) {
    forall i, n :: 0 <= i < |gw.petitions| && gw.petitions[i].key.subjectNbr == 0 - d && n in gw.petitions[i].dgs ==>
      n == up
  }

  predicate Known(gw: GatewayState, d: int) { Conduit(gw.petitions, d).Some? }

  /** Petition i, if it is limited to continuum d, on an application subject or under a representable key, and still
      wanted, has been sent to up, or up alone wants it. */
  predicate SettledFor(gw: GatewayState, i: nat, d: int, up: RamsNode)
    requires i < |gw.petitions|
  {
    var p := gw.petitions[i];
    p.key.continuumNbr == d && (p.key.subjectNbr > 0 || Representable(p.key)) && Assertable(gw, p) ==> AskedOf(p, up)
  }

  ghost predicate SettledUp(gw: GatewayState, d: int, up: RamsNode) {
    Known(gw, d) ==> forall i :: 0 <= i < |gw.petitions| ==> SettledFor(gw, i, d, up)
  }

  /** What decides about the conduit: a petition on d's pseudo-subject that somebody has asked for. */
  ghost predicate AskedFor(petitions: seq<PetitionState>, d: int) {
    exists i :: 0 <= i < |petitions| && petitions[i].key.subjectNbr == 0 - d && petitions[i].dgs != []
  }

  lemma {:induction false} KnownIff(petitions: seq<PetitionState>, d: int)
    ensures Conduit(petitions, d).Some? <==> AskedFor(petitions, d)
    ensures Conduit(petitions, d).Some? ==>
      exists i :: 0 <= i < |petitions| && petitions[i].key.subjectNbr == 0 - d
                  && Conduit(petitions, d).value in petitions[i].dgs
  {
    if petitions != [] {
      var rest := petitions[1..];
      KnownIff(rest, d);
      if petitions[0].key.subjectNbr == 0 - d && petitions[0].dgs != [] {
        assert petitions[0].dgs[0] in petitions[0].dgs;
      } else {
        if i :| 0 <= i < |rest| && rest[i].key.subjectNbr == 0 - d && Conduit(rest, d).Some?
                && Conduit(rest, d).value in rest[i].dgs {
          assert petitions[i + 1] == rest[i];
        }
        if i :| 0 <= i < |petitions| && petitions[i].key.subjectNbr == 0 - d && petitions[i].dgs != [] {
          assert rest[i - 1] == petitions[i];
        }
      }
    }
  }

  /** Petitions on other subjects do not matter to the conduit to d, nor do SGSs and local modules. */
  lemma KnownAlike(g: GatewayState, h: GatewayState, d: int)
    requires |g.petitions| <= |h.petitions|
    requires forall i :: 0 <= i < |g.petitions| ==> h.petitions[i].key.subjectNbr == g.petitions[i].key.subjectNbr
    requires forall i :: 0 <= i < |g.petitions| && g.petitions[i].key.subjectNbr == 0 - d ==>
      (h.petitions[i].dgs != [] ==> g.petitions[i].dgs != [])
    requires forall i :: |g.petitions| <= i < |h.petitions| ==> h.petitions[i].key.subjectNbr != 0 - d
    ensures Known(h, d) ==> Known(g, d)
  {
    KnownIff(g.petitions, d);
    KnownIff(h.petitions, d);
    if Known(h, d) {
      var i :| 0 <= i < |h.petitions| && h.petitions[i].key.subjectNbr == 0 - d && h.petitions[i].dgs != [];
      assert g.petitions[i].dgs != [];
    }
  }

  lemma ConduitIsUp(gw: GatewayState, d: int, up: RamsNode)
    requires Leads(gw, d, up) && Known(gw, d)
    ensures Conduit(gw.petitions, d) == Some(up)
  {
    KnownIff(gw.petitions, d);
  }

  /** A petition that need not be sent to up, its only domain node, has been sent there already or is wanted by up
      alone. */
  lemma NotInSet(gw: GatewayState, i: nat, d: int, up: RamsNode)
    requires Leads(gw, d, up) && Known(gw, d) && d > 0 && i < |gw.petitions| && gw.petitions[i].key.continuumNbr == d
    ensures up in AssertionSet(gw, gw.petitions[i]) || AskedOf(gw.petitions[i], up)
  {
    var p := gw.petitions[i];
    ConduitIsUp(gw, d, up);
    assert DomainNodes(gw, p.key) == [up];
    if p.dms == [] && |p.dgs| == 1 { assert p.dgs == [p.dgs[0]]; }
  }

  /** Asserting petition i settles it, and unsettles no other. */
  lemma AssertPetitionSettles(gw: GatewayState, i: nat, d: int, up: RamsNode)
    requires Leads(gw, d, up) && d > 0 && i < |gw.petitions| && AssertPetition(gw, i).ok
    requires Known(gw, d) ==> forall m :: 0 <= m < |gw.petitions| && m != i ==> SettledFor(gw, m, d, up)
    ensures SettledUp(AssertPetition(gw, i).gw, d, up)
  {
    var p, h := gw.petitions[i], AssertPetition(gw, i).gw;
    KnownAlike(gw, h, d);
    if Known(h, d) {
      if p.key.continuumNbr == d { NotInSet(gw, i, d, up); }
      forall m | 0 <= m < |h.petitions| ensures SettledFor(h, m, d, up) {
        if m != i { assert SettledFor(gw, m, d, up); }
      }
    }
  }

  /** Establishing a conduit takes nobody off an SGS. */
  lemma {:induction false} EstablishGrows(gw: GatewayState, from: RamsNode, skip: nat, j: nat)
    requires skip < |gw.petitions| && j <= |gw.petitions|
    ensures OnlySgss(gw, Establish(gw, from, skip, j).gw)
    ensures forall m, n :: 0 <= m < |gw.petitions| && n in gw.petitions[m].sgs ==>
      n in Establish(gw, from, skip, j).gw.petitions[m].sgs
    decreases |gw.petitions| - j
  {
    if j < |gw.petitions| {
      var s := EstablishOne(gw, from, skip, j);
      assert OnlySgss(gw, s.gw);
      if s.ok { EstablishGrows(s.gw, from, skip, j + 1); }
    }
  }

  lemma EstablishKeepsSettled(gw: GatewayState, from: RamsNode, skip: nat, m: nat, d: int, up: RamsNode)
    requires skip < |gw.petitions| && m < |gw.petitions| && SettledFor(gw, m, d, up)
    ensures m < |Establish(gw, from, skip, 0).gw.petitions|
    ensures SettledFor(Establish(gw, from, skip, 0).gw, m, d, up)
  {
    EstablishGrows(gw, from, skip, 0);
  }

  lemma EstablishOneSettlesFor(gw: GatewayState, skip: nat, j: nat, d: int, up: RamsNode)
    requires Leads(gw, d, up) && Known(gw, d) && d > 0 && skip < |gw.petitions| && j < |gw.petitions| && j != skip
    requires UniqueKeys(gw) && gw.petitions[skip].key.subjectNbr < 0 && EstablishOne(gw, up, skip, j).ok
    ensures SettledFor(EstablishOne(gw, up, skip, j).gw, j, d, up)
  {
    hide Representable, UniqueKeys, Leads, AssertionSet;
    var p := gw.petitions[j];
    if p.key.continuumNbr == d { NotInSet(gw, j, d, up); }
    if Representable(p.key) { NoRepresentableTwin(gw, skip, j); }
  }

  lemma SgsKeepsFacts(g: GatewayState, h: GatewayState, j: nat, d: int, up: RamsNode)
    requires OnlySgs(g, h, j)
    ensures Leads(g, d, up) ==> Leads(h, d, up)
    ensures Known(g, d) ==> Known(h, d)
    ensures UniqueKeys(g) ==> UniqueKeys(h)
  {
    hide Representable, Read;
    KnownAlike(h, g, d);
  }

  lemma OthersStaySettled(g: GatewayState, h: GatewayState, j: nat, m: nat, d: int, up: RamsNode)
    requires OnlySgs(g, h, j) && m < |g.petitions| && m != j && SettledFor(g, m, d, up)
    ensures SettledFor(h, m, d, up)
  {
  }

  /** Establishing up as the conduit settles every other petition. */
  lemma {:induction false} EstablishSettles(gw: GatewayState, skip: nat, j: nat, d: int, up: RamsNode)
    requires Leads(gw, d, up) && Known(gw, d) && d > 0 && skip < |gw.petitions| && j <= |gw.petitions|
    requires UniqueKeys(gw) && gw.petitions[skip].key.subjectNbr < 0 && Establish(gw, up, skip, j).ok
    requires forall m :: 0 <= m < j && m != skip ==> SettledFor(gw, m, d, up)
    ensures var h := Establish(gw, up, skip, j).gw;
      |h.petitions| == |gw.petitions| && forall m :: 0 <= m < |h.petitions| && m != skip ==> SettledFor(h, m, d, up)
    decreases |gw.petitions| - j
  {
    hide Leads, UniqueKeys, Known, EstablishOne, SettledFor;
    if j < |gw.petitions| {
      var s := EstablishOne(gw, up, skip, j);
      SgsKeepsFacts(gw, s.gw, j, d, up);
      forall m | 0 <= m < j + 1 && m != skip ensures SettledFor(s.gw, m, d, up) {
        if m < j { OthersStaySettled(gw, s.gw, j, m, d, up); } else { EstablishOneSettlesFor(gw, skip, j, d, up); }
      }
      EstablishSettles(s.gw, skip, j + 1, d, up);
    }
  }

  lemma NoRepresentableTwin(gw: GatewayState, i: nat, j: nat)
    requires UniqueKeys(gw) && i < |gw.petitions| && j < |gw.petitions| && i != j && Representable(gw.petitions[j].key)
    ensures gw.petitions[i].key != gw.petitions[j].key
  {
  }

  lemma LeadsAlike(g: GatewayState, h: GatewayState, d: int, up: RamsNode)
    requires OnlySgss(g, h) && Leads(h, d, up)
    ensures Leads(g, d, up)
  {
    assert forall i :: 0 <= i < |g.petitions| ==>
      h.petitions[i].key == g.petitions[i].key && h.petitions[i].dgs == g.petitions[i].dgs;
  }

  /** What noting an assertion leaves alone. */
  lemma NotedFacts(gw: GatewayState, from: RamsNode, k: Key)
    requires Occurs(k) && UniqueKeys(gw)
    ensures UniqueKeys(NoteAssertion(gw, from, k, false))
    ensures var i, noted := FindPetition(gw.petitions, k), NoteAssertion(gw, from, k, false);
      && i < |noted.petitions| && |gw.petitions| <= |noted.petitions| && |noted.petitions| <= i + 1 + |gw.petitions|
      && noted.isTree == gw.isTree && noted.petitions[i].key.subjectNbr == k.subjectNbr
      && (forall m :: 0 <= m < |gw.petitions| ==> noted.petitions[m].key == gw.petitions[m].key)
      && (forall m :: 0 <= m < |noted.petitions| && m != i ==>
            m < |gw.petitions| && noted.petitions[m] == gw.petitions[m])
  {
    hide ReadBack, Occurs;
    ReadBackKeepsApart(k);
  }

  /** A neighbour's assertion, as long as only up asserts d's pseudo-subject. */
  lemma AssertionSettles(gw: GatewayState, from: RamsNode, k: Key, d: int, up: RamsNode)
    requires SettledUp(gw, d, up) && NothingPlayedBack(gw) && UniqueKeys(gw) && d > 0 && Occurs(k)
    requires k.subjectNbr == 0 - d ==> from == up
    requires HandlePetitionAssertion(gw, from, k, false).ok
    requires Leads(HandlePetitionAssertion(gw, from, k, false).gw, d, up)
    ensures SettledUp(HandlePetitionAssertion(gw, from, k, false).gw, d, up)
  {
    hide AssertPetition, Establish, ReadBack, Occurs, Leads, AskedOf;
    var i, noted := FindPetition(gw.petitions, k), NoteAssertion(gw, from, k, false);
    assert !ConfirmsPlayback(gw, from, k);
    NotedFacts(gw, from, k);
    hide NoteAssertion, ConfirmsPlayback, FindPetition;
    var s := if k.subjectNbr < 0 then Establish(noted, from, i, 0) else Step(noted, true);
    EstablishGrows(noted, from, i, 0);
    LeadsAlike(s.gw, AssertPetition(s.gw, i).gw, d, up);
    LeadsAlike(noted, s.gw, d, up);
    if Known(s.gw, d) {
      KnownAlike(noted, s.gw, d);
      forall m | 0 <= m < |s.gw.petitions| && m != i ensures SettledFor(s.gw, m, d, up) {
        if k.subjectNbr == 0 - d {
          EstablishSettles(noted, i, 0, d, up);
        } else {
          KnownAlike(gw, noted, d);
          assert SettledFor(gw, m, d, up) && SettledFor(noted, m, d, up);
          if k.subjectNbr < 0 { EstablishKeepsSettled(noted, from, i, m, d, up); }
        }
      }
    }
    AssertPetitionSettles(s.gw, i, d, up);
  }

  /** A petition that loses one of those who want it stays settled, or is wanted no more. */
  lemma FewerSettles(gw: GatewayState, i: nat, q: PetitionState, d: int, up: RamsNode)
    requires SettledUp(gw, d, up) && i < |gw.petitions|
    requires var p := gw.petitions[i];
      && q.key == p.key && q.sgs == p.sgs
      && (q.dms != [] ==> p.dms != []) && (p.dms == [] ==> q.dms == [])
      && (q.dgs == p.dgs || exists n :: n in p.dgs && q.dgs == RemoveFirst(p.dgs, n))
    ensures var h := SetPetition(gw, i, q);
      SettledUp(if Assertable(h, q) then h else CancelPetition(h, i).gw, d, up)
  {
    hide CancelPetition;
    var p, h := gw.petitions[i], SetPetition(gw, i, q);
    var t := if Assertable(h, q) then h else CancelPetition(h, i).gw;
    assert p.dgs == [] ==> q.dgs == [];
    KnownAlike(gw, t, d);
    if Known(t, d) {
      forall m | 0 <= m < |t.petitions| ensures SettledFor(t, m, d, up) {
        assert SettledFor(gw, m, d, up);
        if m == i && Assertable(h, q) && p.dms == [] && p.dgs == [up] { assert |q.dgs| > 0; }
      }
    }
  }

  lemma CancellationSettles(gw: GatewayState, from: RamsNode, k: Key, d: int, up: RamsNode)
    requires SettledUp(gw, d, up) && NoRetraction(gw, Receive(from, PETITION_CANCELLATION, k))
    ensures SettledUp(HandlePetitionCancellation(gw, from, k, false).gw, d, up)
  {
    hide CancelPetition, SettledUp;
    var i := FindPetition(gw.petitions, k);
    if i < |gw.petitions| && from in gw.petitions[i].dgs {
      var p := gw.petitions[i];
      FewerSettles(gw, i, p.(dgs := RemoveFirst(p.dgs, from), fromPlayback := false), d, up);
    }
  }

  lemma SubscriptionSettles(gw: GatewayState, e: Event, d: int, up: RamsNode)
    requires SettledUp(gw, d, up) && d > 0 && !e.Receive? && Occurs(e.key) && e.key.subjectNbr != 0 - d
    requires Apply(gw, e).ok && Leads(Apply(gw, e).gw, d, up)
    ensures SettledUp(Apply(gw, e).gw, d, up)
  {
    hide CancelPetition, AssertPetition, ReadBack, Occurs, AskedOf;
    var i, m, k := FindPetition(gw.petitions, e.key), e.m, e.key;
    ReadBackKeepsApart(k);
    if k.continuumNbr != gw.local && m != gw.self {
      if e.Unsubscribe? {
        if i < |gw.petitions| {
          FewerSettles(gw, i, gw.petitions[i].(dms := RemoveFirst(gw.petitions[i].dms, m)), d, up);
        }
      } else if i == |gw.petitions| || m !in gw.petitions[i].dms {
        var h := if i == |gw.petitions|
                 then gw.(petitions := gw.petitions + [PetitionState(ReadBack(k), [m], [], [], false)])
                 else SetPetition(gw, i, gw.petitions[i].(dms := gw.petitions[i].dms + [m], fromPlayback := false));
        LeadsAlike(h, AssertPetition(h, i).gw, d, up);
        KnownAlike(gw, h, d);
        forall j | Known(h, d) && 0 <= j < |h.petitions| && j != i ensures SettledFor(h, j, d, up) {
          assert SettledFor(gw, j, d, up);
        }
        AssertPetitionSettles(h, i, d, up);
      }
    }
  }

  lemma SamePetitionsSettle(g: GatewayState, h: GatewayState, d: int, up: RamsNode)
    requires h.petitions == g.petitions && h.isTree == g.isTree && SettledUp(g, d, up)
    ensures SettledUp(h, d, up)
  {
    forall i | Known(h, d) && 0 <= i < |h.petitions| ensures SettledFor(h, i, d, up) {
      assert SettledFor(g, i, d, up);
    }
  }

  lemma LoggedSettles(s: Step, e: Event, d: int, up: RamsNode)
    requires e.Receive? && SettledUp(s.gw, d, up)
    ensures SettledUp(Logged(s, e.from, e.cc, e.key).gw, d, up)
  {
    SamePetitionsSettle(s.gw, Logged(s, e.from, e.cc, e.key).gw, d, up);
  }

  lemma ApplySettles(gw: GatewayState, e: Event, d: int, up: RamsNode)
    requires SettledUp(gw, d, up) && NothingPlayedBack(gw) && UniqueKeys(gw) && d > 0 && Occurs(e.key)
    requires NoRetraction(gw, e)
    requires Apply(gw, e).ok && Leads(Apply(gw, e).gw, d, up)
    requires !e.Receive? ==> e.key.subjectNbr != 0 - d
    requires e.Receive? && e.cc == PETITION_ASSERTION && e.key.subjectNbr == 0 - d ==> e.from == up
    ensures SettledUp(Apply(gw, e).gw, d, up)
  {
    hide HandlePetitionAssertion, HandlePetitionCancellation, AddPetitioner, RemovePetitioner;
    hide Occurs, SettledFor, Conduit;
    if !e.Receive? {
      SubscriptionSettles(gw, e, d, up);
    } else if e.cc == PETITION_CANCELLATION {
      CancellationSettles(gw, e.from, e.key, d, up);
      LoggedSettles(HandlePetitionCancellation(gw, e.from, e.key, false), e, d, up);
    } else if e.cc == PETITION_ASSERTION {
      var declares := e.key.subjectNbr == 0 - e.from.continuumNbr;
      if declares || Declared(gw, e.from.continuumNbr) {
        var g := if declares then NoteDeclaration(gw, e.from) else gw;
        SamePetitionsSettle(gw, g, d, up);
        AssertionSettles(g, e.from, e.key, d, up);
        LoggedSettles(HandlePetitionAssertion(g, e.from, e.key, false), e, d, up);
      }
    }
  }

  // ---------- the network ----------

  /** If every petition on d's pseudo-subject is d's declaration, then only the neighbour towards d leads there. */
  lemma LeadsUp(g: Graph, net: Net, d: int, v: int)
    requires IsTree(g) && NetOk(g, net) && Conduits.AllOneWay(g, net, d) && Conduits.OnlyDeclared(g, net, d)
    requires d in g && v in g && d != v
    ensures Leads(net.gws[v], d, Conduits.Up(g, net, d, v))
  {
    hide IsTree, Inv;
    assert GatewayOk(g, v, net.gws[v]) && Conduits.OneWayTo(g, net, d, v);
  }

  /** Every petition that v has for continuum d has been sent to the neighbour towards d, once that one is known. */
  ghost predicate SettledUpAt(g: Graph, net: Net, d: int, v: int)
    requires IsTree(g) && NetOk(g, net) && d in g && v in g && d != v
  {
    SettledUp(net.gws[v], d, Conduits.Up(g, net, d, v))
  }

  ghost predicate AllSettledUp(g: Graph, net: Net, d: int)
    requires IsTree(g) && NetOk(g, net)
  {
    forall v {:trigger SettledUpAt(g, net, d, v)} :: d in g && v in g && d != v ==> SettledUpAt(g, net, d, v)
  }

  /** What holds of the petitions for d's declaration, and of those limited to d. */
  ghost predicate Guided(g: Graph, net: Net, d: int)
    requires IsTree(g) && NetOk(g, net)
  {
    Conduits.AllOneWay(g, net, d) && Conduits.OnlyDeclared(g, net, d) && AllSettledUp(g, net, d)
  }

  lemma StartupGuided(g: Graph, net: Net, d: int)
    requires IsTree(g) && NetStartup(g, net) && d > 0
    ensures NetOk(g, net) && Guided(g, net, d)
  {
    Conduits.StartupOneWay(g, net, d);
    hide IsTree, NetOk;
    forall v | d in g && v in g && d != v ensures SettledUpAt(g, net, d, v) {
      assert StartedAt(g, v, net.gws[v]);
      Conduits.NoConduit(net.gws[v].petitions, d);
    }
  }

  lemma LocalKeepsGuided(g: Graph, s: Net, t: Net, v: int, e: Event, d: int)
    requires IsTree(g) && NetOk(g, s) && NetOk(g, t) && Guided(g, s, d) && e.key.subjectNbr != 0 - d
    requires NetStep(g, s, t, LocalEvent(v, e))
    ensures Guided(g, t, d)
  {
    hide IsTree, Apply, LinkOk, SettledUp, Leads, Parent, Conduits.AllOneWay, Conduits.OnlyDeclared;
    Conduits.LocalKeepsOneWay(g, s, t, v, e, d);
    ApplyKeepsKeys(s.gws[v], e);
    forall w | d in g && w in g && d != w ensures SettledUpAt(g, t, d, w) {
      assert SettledUpAt(g, s, d, w);
      if w == v {
        assert GatewayOk(g, v, s.gws[v]);
        LeadsUp(g, t, d, v);
        ApplySettles(s.gws[v], e, d, Conduits.Up(g, s, d, v));
      }
    }
  }

  lemma ArrivalKeepsGuided(g: Graph, s: Net, t: Net, a: int, b: int, d: int)
    requires IsTree(g) && NetOk(g, s) && NetOk(g, t) && Guided(g, s, d)
    requires NetStep(g, s, t, Arrival(a, b)) && !TakesRetraction(s, Arrival(a, b))
    ensures Guided(g, t, d)
  {
    hide IsTree, Apply, SettledUp, Leads, Parent, TakesNote, HandlePetitionRpdu, Declares, DgssWithoutDuplicates;
    hide Conduits.AllOneWay, Conduits.OnlyDeclared;
    var n, gw, taken := NodeFor(s.gws[b].neighbors, a), s.gws[b], Taken(s, a, b);
    var r := Channel(s, a, b)[taken];
    var e := Receive(n, r.cc, r.key);
    Conduits.ArrivalKeepsOneWay(g, s, t, a, b, d);
    assert LinkOk(s.gws[a], gw, n, taken) && GatewayOk(g, a, s.gws[a]) && GatewayOk(g, b, gw);
    ReceiverTakes(s.gws[a], gw, n, taken);
    ChannelMembers(s.gws[a].sent, b);
    assert r in Channel(s, a, b);
    ApplyKeepsKeys(gw, e);
    forall w | d in g && w in g && d != w ensures SettledUpAt(g, t, d, w) {
      assert SettledUpAt(g, s, d, w);
      if w == b {
        if r.cc == PETITION_ASSERTION && r.key.subjectNbr == 0 - d {
          Conduits.SentUnderPseudoSubject(g, s, a, r, d);
          Conduits.DeclarationsComeFromUp(g, s, a, b, r, d);
        }
        LeadsUp(g, t, d, b);
        ApplySettles(gw, e, d, Conduits.Up(g, s, d, b));
      }
    }
  }

  lemma {:induction false} NetStaysSettledUp(g: Graph, run: seq<Net>, d: int)
    requires IsTree(g) && Conduits.RunApart(g, run, d) && d > 0
    ensures NetOk(g, run[|run| - 1]) && Guided(g, run[|run| - 1], d)
    decreases |run|
  {
    hide NetOk, NetStep, NetStartup, Guided, IsTree, TakesRetraction, SteadyRun;
    Conduits.ApartIsSteady(g, run, d);
    NetStaysOk(g, run);
    if |run| == 1 {
      StartupGuided(g, run[0], d);
    } else {
      var s, t := run[|run| - 2], run[|run| - 1];
      var front := run[..|run| - 1];
      assert front[|front| - 1] == s;
      NetStaysSettledUp(g, front, d);
      assert Conduits.StepsApart(g, s, t, d);
      var ev :| NetStep(g, s, t, ev) && !TakesRetraction(s, ev) && Conduits.Apart(ev, d);
      match ev
      case LocalEvent(v, e) => LocalKeepsGuided(g, s, t, v, e, d);
      case Arrival(a, b) => ArrivalKeepsGuided(g, s, t, a, b, d);
    }
  }

  // ---------- from the subscriber to the continuum and back ----------

  /** Once no petition RPDU is under way, u, which wants messages under k from continuum d, is listed for it by its
      neighbour towards d, unless that neighbour alone wants them. */
  lemma AskedUp(g: Graph, net: Net, d: int, u: int, j: nat)
    requires IsTree(g) && NetOk(g, net) && Drained(g, net) && Guided(g, net, d) && d in g && u in g && d != u
    requires j < |net.gws[u].petitions| && Representable(net.gws[u].petitions[j].key)
    requires var p, up := net.gws[u].petitions[j], Conduits.Up(g, net, d, u);
      && p.key.continuumNbr == d
      && (p.dms != [] || exists n :: n in p.dgs && n != up)
    ensures var v := Parent(g, d, u);
      v in g && NodeFor(net.gws[v].neighbors, u) in DgsOf(net.gws[v], net.gws[u].petitions[j].key)
  {
    hide IsTree, Inv, LinksOk, Parent, Conduit, Representable, DgsOf, Conduits.AllOneWay, Conduits.OnlyDeclared;
    var gw, up, v := net.gws[u], Conduits.Up(g, net, d, u), Parent(g, d, u);
    assert GatewayOk(g, u, gw);
    Conduits.ConduitIsOnTheWay(g, net, d, u);
    assert SettledUpAt(g, net, d, u);
    assert SettledFor(gw, j, d, up);
    DrainedLink(g, net, u, v);
  }

  lemma {:induction false} InterestOnTheWay(g: Graph, net: Net, a: int, i: nat, at: nat)
    requires IsTree(g) && NetOk(g, net) && Drained(g, net) && a in g
    requires i < |net.gws[a].petitions| && net.gws[a].petitions[i].dms != []
    requires Guided(g, net, net.gws[a].petitions[i].key.continuumNbr)
    requires var k := net.gws[a].petitions[i].key;
      && Representable(k) && k.continuumNbr in g && k.continuumNbr != a
      && 0 < at < |PathTo(g, a, k.continuumNbr)|
    ensures var k := net.gws[a].petitions[i].key;
      var u, v := PathTo(g, a, k.continuumNbr)[at - 1], PathTo(g, a, k.continuumNbr)[at];
      v in g && NodeFor(net.gws[v].neighbors, u) in DgsOf(net.gws[v], k)
  {
    hide IsTree, LinksOk, GatewayOk, Guided, Drained, Representable, Parent, NodeFor;
    var k := net.gws[a].petitions[i].key;
    var d := k.continuumNbr;
    var p := PathTo(g, a, d);
    var u := p[at - 1];
    Delivery.ParentsOnPath(g, a, d, at - 1);
    var j: nat := i;
    if at > 1 {
      InterestOnTheWay(g, net, a, i, at - 1);
      j := FindPetition(net.gws[u].petitions, k);
      assert p[at - 2] != p[at];
      assert NodeFor(net.gws[u].neighbors, p[at - 2]) in net.gws[u].petitions[j].dgs;
    }
    AskedUp(g, net, d, u, j);
  }

  lemma WantedBack(g: Graph, net: Net, a: int, i: nat)
    requires IsTree(g) && NetOk(g, net) && Drained(g, net) && a in g
    requires i < |net.gws[a].petitions| && net.gws[a].petitions[i].dms != []
    requires Guided(g, net, net.gws[a].petitions[i].key.continuumNbr)
    requires var k := net.gws[a].petitions[i].key;
      Representable(k) && k.continuumNbr in g && k.continuumNbr != a
    ensures var k := net.gws[a].petitions[i].key; Delivery.WantedAlong(g, net.gws, k.continuumNbr, a, k)
  {
    hide Trees.Joined, LinksOk, GatewayOk, Guided, Drained, Representable, NodeFor, DgsOf;
    var k := net.gws[a].petitions[i].key;
    var d := k.continuumNbr;
    var back := PathTo(g, d, a);
    var way := Delivery.Reversed(back);
    Delivery.ReversedIsPath(g, back, d, a);
    PathsAgree(g, way, a, d);
    forall at | 0 <= at < |back| - 1
      ensures back[at] in net.gws && NodeFor(net.gws[back[at]].neighbors, back[at + 1]) in DgsOf(net.gws[back[at]], k)
    {
      InterestOnTheWay(g, net, a, i, |back| - 1 - at);
    }
  }

  /** Subscriptions made anywhere on a tree of gateways, their petitions propagated in any order until none is under
      way; then a publication from the continuum that one of them is limited to, relayed in any order until no copy
      is under way. The subscriber has been handed it exactly once, provided the key is representable, the gateways'
      unit hierarchies agree that it matches, and no module has subscribed to that continuum's pseudo-subject. */
  lemma SubscriberOfContinuumIsServed(w: Delivery.Setting, g: Graph, nets: seq<Net>, run: seq<Flood>, a: int, i: nat,
                                      subscriber: ModuleId)
    requires IsTree(g) && nets != [] && Delivery.Sendable(w)
    requires var net := nets[|nets| - 1]; net.gws == w.gws && net.gws.Keys == g.Keys && Drained(g, net)
    requires a in g && i < |w.gws[a].petitions| && subscriber in w.gws[a].petitions[i].dms
    requires var k := w.gws[a].petitions[i].key;
      && Representable(k) && Delivery.Matches(w, g, k) && Conduits.RunApart(g, nets, k.continuumNbr)
      && k.continuumNbr in g && k.continuumNbr != a && Delivery.FixedRun(w, k.continuumNbr, run)
    requires run[|run| - 1].inFlight == multiset{}
    ensures Delivery.Served(w, run, a, subscriber)
  {
    hide IsTree, Drained, Delivery.FixedRun, Delivery.WantedAlong, Delivery.Matches, Representable;
    var net, d := nets[|nets| - 1], w.gws[a].petitions[i].key.continuumNbr;
    assert d > 0 by { RunsAmong(g, nets, d); }
    NetStaysSettledUp(g, nets, d);
    hide NetOk, Guided;
    WantedBack(g, net, a, i);
    Delivery.ServedAlongPath(w, g, net, d, run, a, i, subscriber);
  }

  lemma RunsAmong(g: Graph, nets: seq<Net>, d: int)
    requires Conduits.RunApart(g, nets, d) && d in g
    ensures d > 0
  {
    Conduits.ApartIsSteady(g, nets, d);
    NetStaysOk(g, nets);
    LocalIs(g, nets[|nets| - 1], d);
  }

  /** What a neighbour makes of a subscription to one continuum still matches the publications it is for iff the low
      octet of that continuum's number is below 128. */
  lemma LimitedPetitionMatchesIff(names: UnitNames, msg: Message, k: Key)
    requires Noticed(k) && k.continuumNbr != 0 && Lo(k.unitNbr) < 0x80 && Satisfies(names, msg, k)
    ensures Satisfies(names, msg, ReadBack(k)) <==> Lo(k.continuumNbr) < 0x80
  {
    SignedLowKeeps(k.continuumNbr, 0x8000);
    SignedLowKeeps(k.unitNbr, 0x10000);
    ReadBackNumber(k.continuumNbr, 0x8000);
    ReadBackKeepsApart(k);
  }

  /** A subscription limited to a continuum whose number has a low octet of 128 or more is sent to a gateway that has
      asked for subject 256 - d, d being that number: up to 255 this is an application subject that has nothing to do
      with it, from 384 on it is the pseudo-subject of continuum d - 256. If nobody has, it is sent nowhere. */
  lemma LimitedPetitionGoesAstray(gw: GatewayState, m: ModuleId, k: Key)
    requires Noticed(k) && Lo(k.continuumNbr) >= 0x80
    ensures var s := 0x100 - k.continuumNbr;
      var sentTo := AssertionSet(gw, PetitionState(ReadBack(k), [m], [], [], false));
      && ReadBack(k).continuumNbr == 0 - s && (0 < s <= 0x80 || s < 0 - 0x7f)
      && (sentTo == [] <==> forall i :: 0 <= i < |gw.petitions| && gw.petitions[i].key.subjectNbr == s ==>
                              gw.petitions[i].dgs == [])
      && forall n :: n in sentTo ==>
           exists i :: 0 <= i < |gw.petitions| && gw.petitions[i].key.subjectNbr == s && n in gw.petitions[i].dgs
  {
    var p := PetitionState(ReadBack(k), [m], [], [], false);
    MisreadContinuum(k.continuumNbr);
    hide ReadBack, Noticed;
    assert p.key.continuumNbr != 0;
    KnownIff(gw.petitions, p.key.continuumNbr);
    var sentTo, domain := AssertionSet(gw, p), DomainNodes(gw, p.key);
    assert forall n :: n in sentTo <==> n in domain;
    if domain != [] { assert domain[0] in sentTo; }
    if sentTo != [] { assert sentTo[0] in domain; }
  }

  lemma MisreadContinuum(d: int)
    requires 0 <= d < 0x8000 && Lo(d) >= 0x80
    ensures SignedLow(Residue(d, 0x8000)) == d - 0x100 && 0x80 <= d && (d < 0x100 || d >= 0x180)
  {
    ResidueKeeps(d, 0x8000);
    ResidueKeeps(d, 0x100);
    ResidueKeeps(d - 0x100, 0x100);
    LowOctetOfSum(d - 0x100, 1);
  }
}
