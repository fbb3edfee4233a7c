/** What every run of the petition protocol keeps: no two petitions share a key, the SGS of a
    petition mirrors the RPDUs sent for it, and nothing remains to be asserted. */
module PetitionLaws {
  import opened Lists
  import opened Envelope
  import opened Options
  import opened Petitions

  // ---------- the SGS mirrors the log of sent RPDUs ----------

  /** The control code of the last petition RPDU sent to dest about k; 0 if there was none. */
  function LastCode(sent: seq<Rpdu>, dest: int, k: Key): int {
    if sent == [] then 0
    else
      var r := sent[|sent| - 1];
      if r.PetitionRpdu? && r.dest == dest && r.key == k then r.cc else LastCode(sent[..|sent| - 1], dest, k)
  }

  ghost predicate DistinctNodes(g: GatewayState) {
    && NoDup(g.neighbors)
    && (forall n :: n in g.neighbors ==> n.continuumNbr > 0 && n.continuumNbr != g.local)
    && (forall n, m :: n in g.neighbors && m in g.neighbors && n.continuumNbr == m.continuumNbr ==> n == m)
  }

  /** No two petitions share a representable key. */
  ghost predicate UniqueKeys(g: GatewayState) {
    && (forall i :: 0 <= i < |g.petitions| ==> Read(g.petitions[i].key))
    && (forall i, j :: 0 <= i < j < |g.petitions| && Representable(g.petitions[i].key) ==>
          g.petitions[i].key != g.petitions[j].key)
  }

  ghost predicate SgsMirrorsLog(g: GatewayState) {
    forall i, n :: 0 <= i < |g.petitions| && n in g.neighbors && Representable(g.petitions[i].key) ==>
      (n in g.petitions[i].sgs <==> LastCode(g.sent, n.continuumNbr, g.petitions[i].key) == PETITION_ASSERTION)
  }

  ghost predicate SgsWithoutDuplicates(g: GatewayState) {
    forall i :: 0 <= i < |g.petitions| ==>
      NoDup(g.petitions[i].sgs) && (forall n :: n in g.petitions[i].sgs ==> n in g.neighbors)
  }

  /** RPDUs about a petition go out under its key or under the key that its envelope reads back as. */
  predicate NamesPetition(g: GatewayState, k: Key) {
    exists i :: 0 <= i < |g.petitions| && (k == g.petitions[i].key || k == ReadBack(g.petitions[i].key))
  }

  ghost predicate SentKeysKnown(g: GatewayState) {
    forall r :: r in g.sent && r.PetitionRpdu? ==> NamesPetition(g, r.key)
  }

  /** A representable key names a petition only if it is that petition's own. */
  lemma NamedPetition(g: GatewayState, k: Key) returns (i: nat)
    requires UniqueKeys(g) && NamesPetition(g, k) && Representable(k)
    ensures i < |g.petitions| && g.petitions[i].key == k
  {
    i :| 0 <= i < |g.petitions| && (k == g.petitions[i].key || k == ReadBack(g.petitions[i].key));
    ReadBackKeepsApart(g.petitions[i].key);
  }

  /** More petitions with the same keys in the same places name no fewer. */
  lemma NamesMore(g: GatewayState, h: GatewayState)
    requires SentKeysKnown(g) && |g.petitions| <= |h.petitions|
    requires forall i :: 0 <= i < |g.petitions| ==> h.petitions[i].key == g.petitions[i].key
    ensures forall r :: r in g.sent && r.PetitionRpdu? ==> NamesPetition(h, r.key)
  {
    hide ReadBack;
    forall r | r in g.sent && r.PetitionRpdu? ensures NamesPetition(h, r.key) {
      assert NamesPetition(g, r.key);
      var w :| 0 <= w < |g.petitions| && (r.key == g.petitions[w].key || r.key == ReadBack(g.petitions[w].key));
      assert h.petitions[w].key == g.petitions[w].key;
    }
  }

  /** The RPDU asserts a petition whose key is representable. */
  predicate Asserts(r: Rpdu) {
    r.PetitionRpdu? && r.cc == PETITION_ASSERTION && Representable(r.key)
  }

  /** No such assertion is sent to a neighbour that was last sent an assertion of the same petition. */
  ghost predicate NeverReasserts(sent: seq<Rpdu>) {
    forall p :: 0 <= p < |sent| && Asserts(sent[p]) ==>
      LastCode(sent[..p], sent[p].dest, sent[p].key) != PETITION_ASSERTION
  }

  ghost predicate LogInv(g: GatewayState) {
    && DistinctNodes(g)
    && UniqueKeys(g)
    && SgsWithoutDuplicates(g)
    && SgsMirrorsLog(g)
    && SentKeysKnown(g)
    && NeverReasserts(g.sent)
  }

  lemma LastCodeAppend(sent: seq<Rpdu>, r: Rpdu, dest: int, k: Key)
    ensures LastCode(sent + [r], dest, k)
         == if r.PetitionRpdu? && r.dest == dest && r.key == k then r.cc else LastCode(sent, dest, k)
  {
    assert (sent + [r])[..|sent|] == sent;
  }

  lemma NeverReassertsAppend(sent: seq<Rpdu>, r: Rpdu)
    requires NeverReasserts(sent)
    requires Asserts(r) ==> LastCode(sent, r.dest, r.key) != PETITION_ASSERTION
    ensures NeverReasserts(sent + [r])
  {
    forall p | 0 <= p < |sent + [r]| && Asserts((sent + [r])[p])
      ensures LastCode((sent + [r])[..p], (sent + [r])[p].dest, (sent + [r])[p].key) != PETITION_ASSERTION
    {
      assert (sent + [r])[..p] == sent[..p];
      if p == |sent| { assert sent[..p] == sent; }
    }
  }

  /** One RPDU about petition i, with its SGS brought up to date, keeps the mirror. A cancellation goes out under
      the key that the petition's envelope reads back as. */
  lemma OneRpduKeepsLogInv(g: GatewayState, i: nat, node: RamsNode, cc: int, sgs: seq<RamsNode>)
    requires LogInv(g) && i < |g.petitions| && node in g.neighbors
    requires cc == PETITION_ASSERTION || cc == PETITION_CANCELLATION
    requires cc == PETITION_ASSERTION ==> node !in g.petitions[i].sgs && sgs == g.petitions[i].sgs + [node]
    requires cc == PETITION_CANCELLATION ==> sgs == RemoveFirst(g.petitions[i].sgs, node)
    ensures var key := g.petitions[i].key;
      var r := PetitionRpdu(node.continuumNbr, cc, if cc == PETITION_ASSERTION then key else ReadBack(key));
      LogInv(SetPetition(g.(sent := g.sent + [r]), i, g.petitions[i].(sgs := sgs)))
  {
    hide ReadBack, Representable, Read, LastCode, NeverReasserts, RemoveFirst;
    var p := g.petitions[i];
    ReadBackKeepsApart(p.key);
    var r := PetitionRpdu(node.continuumNbr, cc, if cc == PETITION_ASSERTION then p.key else ReadBack(p.key));
    var h := SetPetition(g.(sent := g.sent + [r]), i, p.(sgs := sgs));
    assert forall j :: 0 <= j < |g.petitions| ==> h.petitions[j].key == g.petitions[j].key;
    NeverReassertsAppend(g.sent, r);
    RemoveFirstNoDup(p.sgs, node);
    forall j, n | 0 <= j < |h.petitions| && n in h.neighbors && Representable(h.petitions[j].key)
      ensures n in h.petitions[j].sgs
         <==> LastCode(h.sent, n.continuumNbr, h.petitions[j].key) == PETITION_ASSERTION
    {
      LastCodeAppend(g.sent, r, n.continuumNbr, g.petitions[j].key);
    }
    NamesMore(g, h);
    assert h.petitions[i].key == p.key;
    assert NamesPetition(h, r.key);
  }

  /** Changes to anything but keys, SGS and the sent log leave the mirror alone. */
  lemma SameLogKeepsLogInv(g: GatewayState, h: GatewayState)
    requires LogInv(g)
    requires h.neighbors == g.neighbors && h.local == g.local && h.sent == g.sent
    requires |h.petitions| == |g.petitions|
    requires forall i :: 0 <= i < |g.petitions| ==>
      h.petitions[i].key == g.petitions[i].key && h.petitions[i].sgs == g.petitions[i].sgs
    ensures LogInv(h)
  {
    NamesMore(g, h);
  }

  lemma {:induction false} UnknownKeyNeverSent(sent: seq<Rpdu>, dest: int, k: Key)
    requires forall r :: r in sent && r.PetitionRpdu? ==> r.key != k
    ensures LastCode(sent, dest, k) == 0
  {
    if sent != [] { UnknownKeyNeverSent(sent[..|sent| - 1], dest, k); }
  }

  lemma NewPetitionKeepsLogInv(g: GatewayState, p: PetitionState)
    requires LogInv(g) && p.sgs == [] && Read(p.key)
    requires Representable(p.key) ==> FindPetition(g.petitions, p.key) == |g.petitions|
    ensures LogInv(g.(petitions := g.petitions + [p]))
  {
    hide ReadBack, Representable, Read, LastCode, NeverReasserts;
    var h := g.(petitions := g.petitions + [p]);
    NamesMore(g, h);
    if Representable(p.key) {
      forall r | r in h.sent && r.PetitionRpdu? ensures r.key != p.key {
        if r.key == p.key { var w := NamedPetition(g, r.key); }
      }
      forall n | n in h.neighbors ensures LastCode(h.sent, n.continuumNbr, p.key) == 0 {
        UnknownKeyNeverSent(h.sent, n.continuumNbr, p.key);
      }
    }
  }

  /** The petition that NoteAssertion or AddPetitioner creates for a key that has none. */
  lemma CreatedPetitionKeepsLogInv(g: GatewayState, k: Key, p: PetitionState)
    requires LogInv(g) && Occurs(k) && p.sgs == [] && p.key == ReadBack(k)
    requires FindPetition(g.petitions, k) == |g.petitions|
    ensures LogInv(g.(petitions := g.petitions + [p]))
  {
    ReadBackKeepsApart(k);
    NewPetitionKeepsLogInv(g, p);
  }

  // ---------- asserting one petition ----------

  function Assertions(nodes: seq<RamsNode>, k: Key): seq<Rpdu> {
    if nodes == [] then []
    else
      var last := PetitionRpdu(nodes[|nodes| - 1].continuumNbr, PETITION_ASSERTION, k);
      Assertions(nodes[..|nodes| - 1], k) + [last]
  }

  lemma {:induction false} AssertionsCons(node: RamsNode, rest: seq<RamsNode>, k: Key)
    ensures Assertions([node] + rest, k)
         == [PetitionRpdu(node.continuumNbr, PETITION_ASSERTION, k)] + Assertions(rest, k)
  {
    if rest == [] {
      assert [node] + rest == [node] && [node][..0] == [];
      assert Assertions([], k) == [];
    } else {
      var front := rest[..|rest| - 1];
      assert ([node] + rest)[..|rest|] == [node] + front;
      AssertionsCons(node, front, k);
    }
  }

  lemma SameDeclared(g: GatewayState, h: GatewayState)
    requires h.declared == g.declared
    ensures forall c :: Declared(h, c) <==> Declared(g, c)
  {
  }

  lemma SendAssertionsStep(g: GatewayState, nodes: seq<RamsNode>, k: Key)
    requires nodes != []
    ensures var r := PetitionRpdu(nodes[0].continuumNbr, PETITION_ASSERTION, k);
      SendAssertions(g, nodes, k)
      == if Declared(g, r.dest) then SendAssertions(g.(sent := g.sent + [r]), nodes[1..], k) else Step(g, false)
  {
    hide Declared;
  }

  /** SendAssertions either sends to every node or stops at one that is not declared. */
  lemma {:induction false} SendAssertionsResult(g: GatewayState, nodes: seq<RamsNode>, k: Key)
    ensures var s := SendAssertions(g, nodes, k);
      && (s.ok ==> s.gw == g.(sent := g.sent + Assertions(nodes, k)))
      && (s.ok <==> forall n :: n in nodes ==> Declared(g, n.continuumNbr))
    decreases |nodes|
  {
    if nodes == [] {
      assert g.sent + Assertions(nodes, k) == g.sent;
    } else {
      var node, rest := nodes[0], nodes[1..];
      assert nodes == [node] + rest;
      assert forall n :: n in nodes <==> n == node || n in rest;
      AssertionsCons(node, rest, k);
      SendAssertionsStep(g, nodes, k);
      hide Declared, Assertions, SendAssertions;
      var r := PetitionRpdu(node.continuumNbr, PETITION_ASSERTION, k);
      var h := g.(sent := g.sent + [r]);
      SameDeclared(g, h);
      if Declared(g, node.continuumNbr) {
        SendAssertionsResult(h, rest, k);
        assert g.sent + [r] + Assertions(rest, k) == g.sent + ([r] + Assertions(rest, k));
      }
    }
  }

  /** The state after petition i has been sent to nodes. */
  function Asked(g: GatewayState, i: nat, nodes: seq<RamsNode>): GatewayState
    requires i < |g.petitions|
  {
    var p := g.petitions[i];
    SetPetition(g.(sent := g.sent + Assertions(nodes, p.key)), i, p.(sgs := p.sgs + nodes))
  }

  lemma AskedOneMore(g: GatewayState, i: nat, nodes: seq<RamsNode>)
    requires i < |g.petitions| && nodes != []
    ensures var h, last := Asked(g, i, nodes[..|nodes| - 1]), nodes[|nodes| - 1];
      Asked(g, i, nodes)
      == SetPetition(h.(sent := h.sent + [PetitionRpdu(last.continuumNbr, PETITION_ASSERTION, h.petitions[i].key)]), i,
                     h.petitions[i].(sgs := h.petitions[i].sgs + [last]))
  {
    var p, front, last := g.petitions[i], nodes[..|nodes| - 1], nodes[|nodes| - 1];
    var r := PetitionRpdu(last.continuumNbr, PETITION_ASSERTION, p.key);
    assert g.sent + Assertions(front, p.key) + [r] == g.sent + Assertions(nodes, p.key);
    assert p.sgs + front + [last] == p.sgs + nodes;
  }

  lemma {:induction false} AssertionsKeepLogInv(g: GatewayState, i: nat, nodes: seq<RamsNode>)
    requires LogInv(g) && i < |g.petitions| && NoDup(nodes)
    requires forall n :: n in nodes ==> n in g.neighbors && n !in g.petitions[i].sgs
    ensures LogInv(Asked(g, i, nodes))
  {
    if nodes == [] {
      assert g.petitions[i].sgs + nodes == g.petitions[i].sgs;
      assert Asked(g, i, nodes) == g;
    } else {
      var front, last := nodes[..|nodes| - 1], nodes[|nodes| - 1];
      assert forall n :: n in front ==> n in nodes;
      AssertionsKeepLogInv(g, i, front);
      var h := Asked(g, i, front);
      assert last !in front;
      assert last in nodes;
      AskedOneMore(g, i, nodes);
      OneRpduKeepsLogInv(h, i, last, PETITION_ASSERTION, h.petitions[i].sgs + [last]);
    }
  }

  lemma {:induction false} UnionOfNew<T(!new)>(a: seq<T>, b: seq<T>)
    requires NoDup(b) && forall x :: x in b ==> x !in a
    ensures Union(a, b) == a + b
  {
    if b != [] {
      UnionOfNew(a, b[..|b| - 1]);
      assert a + b == a + b[..|b| - 1] + [b[|b| - 1]];
    } else {
      assert a + b == a;
    }
  }

  // ---------- nothing remains to be asserted ----------

  ghost predicate NodesKnown(g: GatewayState) {
    && NoDup(g.declared)
    && (forall n :: n in g.declared ==> n in g.neighbors)
    && (forall i, n :: 0 <= i < |g.petitions| && n in g.petitions[i].dgs ==> n in g.neighbors)
  }

  /** Petition p has been sent to d, or d is the only gateway that wants it and no local module does. */
  predicate AskedOf(p: PetitionState, d: RamsNode) {
    d in p.sgs || (p.dms == [] && p.dgs == [d])
  }

  /** A petition on all continua that is on no neighbour's pseudo-subject, or has a representable key. */
  predicate ForAllContinua(g: GatewayState, k: Key) {
    k.continuumNbr == 0 && (Representable(k) || forall n :: n in g.neighbors ==> k.subjectNbr != 0 - n.continuumNbr)
  }

  /** An assertable petition on all continua has been sent wherever it must be, except perhaps to one node. */
  ghost predicate Settled(g: GatewayState, i: nat, except: Option<RamsNode>)
    requires i < |g.petitions|
  {
    var p := g.petitions[i];
    ForAllContinua(g, p.key) && Assertable(g, p) ==>
      forall d :: d in g.declared && Some(d) != except ==> AskedOf(p, d)
  }

  ghost predicate AllSettled(g: GatewayState, except: Option<RamsNode>) {
    forall i :: 0 <= i < |g.petitions| ==> Settled(g, i, except)
  }

  lemma SettledIffNothingToAssert(g: GatewayState, i: nat)
    requires i < |g.petitions|
    ensures Settled(g, i, None) <==>
      (ForAllContinua(g, g.petitions[i].key) && Assertable(g, g.petitions[i]) ==>
        AssertionSet(g, g.petitions[i]) == [])
  {
    var p := g.petitions[i];
    if p.key.continuumNbr == 0 {
      forall d | d in g.declared ensures d in AssertionSet(g, p) <==> !AskedOf(p, d) {
        if p.dms == [] && |p.dgs| == 1 { assert p.dgs == [p.dgs[0]]; }
      }
      assert forall d :: d in AssertionSet(g, p) ==> d in g.declared;
      if AssertionSet(g, p) != [] { assert AssertionSet(g, p)[0] in AssertionSet(g, p); }
    }
  }

  lemma {:induction false} ConduitIsKnown(petitions: seq<PetitionState>, c: int)
    ensures var r := Conduit(petitions, c);
      r.Some? ==> exists i :: 0 <= i < |petitions| && r.value in petitions[i].dgs
  {
    if petitions != [] {
      ConduitIsKnown(petitions[1..], c);
      var r := Conduit(petitions, c);
      if r.Some? {
        if petitions[0].key.subjectNbr == 0 - c && petitions[0].dgs != [] {
          assert r.value in petitions[0].dgs;
        } else {
          var i :| 0 <= i < |petitions[1..]| && r.value in petitions[1..][i].dgs;
          assert r.value in petitions[i + 1].dgs;
        }
      }
    }
  }

  lemma AssertionSetIsNew(g: GatewayState, i: nat)
    requires LogInv(g) && NodesKnown(g) && i < |g.petitions|
    ensures var nodes := AssertionSet(g, g.petitions[i]);
      NoDup(nodes) && forall n :: n in nodes ==> n in g.neighbors && n !in g.petitions[i].sgs
  {
    var p := g.petitions[i];
    ConduitIsKnown(g.petitions, p.key.continuumNbr);
    SubtractNoDup(DomainNodes(g, p.key), p.sgs);
    SubtractNoDup(Subtract(DomainNodes(g, p.key), p.sgs), p.dgs);
  }

  lemma AssertPetitionKeeps(g: GatewayState, i: nat)
    requires LogInv(g) && NodesKnown(g) && i < |g.petitions|
    requires AssertPetition(g, i).ok
    ensures var h := AssertPetition(g, i).gw; LogInv(h) && NodesKnown(h) && Settled(h, i, None)
  {
    var p := g.petitions[i];
    if Assertable(g, p) {
      var nodes := AssertionSet(g, p);
      AssertionSetIsNew(g, i);
      SendAssertionsResult(g, nodes, p.key);
      UnionOfNew(p.sgs, nodes);
      AssertionsKeepLogInv(g, i, nodes);
      assert AssertPetition(g, i).gw == Asked(g, i, nodes);
      if p.dms == [] && |p.dgs| == 1 { assert p.dgs == [p.dgs[0]]; }
    }
  }

  // ---------- cancelling one petition ----------

  lemma CancelToKeeps(g: GatewayState, i: nat, node: RamsNode)
    requires LogInv(g) && i < |g.petitions| && node in g.neighbors
    requires CancelTo(g, i, node).ok
    ensures LogInv(CancelTo(g, i, node).gw)
  {
    OneRpduKeepsLogInv(g, i, node, PETITION_CANCELLATION, RemoveFirst(g.petitions[i].sgs, node));
  }

  lemma {:induction false} CancelToAllKeeps(g: GatewayState, i: nat)
    requires LogInv(g) && i < |g.petitions|
    requires CancelToAll(g, i).ok
    ensures LogInv(CancelToAll(g, i).gw)
    decreases |g.petitions[i].sgs|
  {
    if g.petitions[i].sgs != [] {
      assert g.petitions[i].sgs[0] in g.petitions[i].sgs;
      CancelToKeeps(g, i, g.petitions[i].sgs[0]);
      CancelToAllKeeps(CancelTo(g, i, g.petitions[i].sgs[0]).gw, i);
    }
  }

  lemma CancelPetitionKeeps(g: GatewayState, i: nat)
    requires LogInv(g) && i < |g.petitions|
    requires CancelPetition(g, i).ok
    ensures LogInv(CancelPetition(g, i).gw)
  {
    var p := g.petitions[i];
    if p.dgs == [] {
      CancelToAllKeeps(g, i);
    } else if |p.dgs| == 1 && p.dgs[0] in p.sgs {
      CancelToKeeps(g, i, p.dgs[0]);
    }
  }

  /** An operation on one petition's SGS does not unsettle the others. */
  lemma OnlySgsKeepsOthersSettled(g: GatewayState, h: GatewayState, i: nat, j: nat, except: Option<RamsNode>)
    requires OnlySgs(g, h, i) && j < |g.petitions| && (j != i || !Assertable(g, g.petitions[i]))
    requires Settled(g, j, except)
    ensures Settled(h, j, except)
  {
  }

  // ---------- a node that becomes a conduit ----------

  /** States that differ only in what was sent and in SGSs. */
  ghost predicate OnlySgss(g: GatewayState, h: GatewayState) {
    && |h.petitions| == |g.petitions|
    && h == g.(petitions := h.petitions, sent := h.sent)
    && (forall i :: 0 <= i < |g.petitions| ==> h.petitions[i] == g.petitions[i].(sgs := h.petitions[i].sgs))
  }

  /** Petition m has the key of petition skip: Establish passes it over. */
  predicate IsTwin(g: GatewayState, m: nat, skip: nat)
    requires m < |g.petitions| && skip < |g.petitions|
  {
    g.petitions[m].key == g.petitions[skip].key
  }

  lemma EstablishOneKeeps(g: GatewayState, from: RamsNode, skip: nat, j: nat)
    requires LogInv(g) && NodesKnown(g) && skip < |g.petitions| && j < |g.petitions| && from in g.neighbors
    requires g.petitions[skip].key.subjectNbr < 0
    requires EstablishOne(g, from, skip, j).ok
    ensures var h := EstablishOne(g, from, skip, j).gw;
      && LogInv(h) && NodesKnown(h)
      && (j != skip && Settled(g, j, Some(from)) && (IsTwin(g, j, skip) ==> Settled(g, j, None)) ==>
          Settled(h, j, None))
  {
    hide SgsMirrorsLog, SentKeysKnown, NeverReasserts, SgsWithoutDuplicates, DistinctNodes, ReadBack, Representable;
    var p := g.petitions[j];
    if p.key != g.petitions[skip].key && Assertable(g, p) {
      if from in AssertionSet(g, p) {
        AssertionSetIsNew(g, j);
        OneRpduKeepsLogInv(g, j, from, PETITION_ASSERTION, p.sgs + [from]);
      } else if p.dms == [] && |p.dgs| == 1 {
        assert p.dgs == [p.dgs[0]];
      }
    }
  }

  lemma {:induction false} EstablishChangesSgss(g: GatewayState, from: RamsNode, skip: nat, j: nat)
    requires skip < |g.petitions| && j <= |g.petitions|
    ensures OnlySgss(g, Establish(g, from, skip, j).gw)
    decreases |g.petitions| - j
  {
    if j < |g.petitions| && EstablishOne(g, from, skip, j).ok {
      EstablishChangesSgss(EstablishOne(g, from, skip, j).gw, from, skip, j + 1);
    }
  }

  /** Of the petitions other than skip, the first `done` and those that are passed over are settled, and the rest are
      settled but for from. */
  ghost predicate SettledUpTo(g: GatewayState, skip: nat, done: nat, from: RamsNode)
    requires skip < |g.petitions|
  {
    && (forall m :: 0 <= m < |g.petitions| && m != skip ==> Settled(g, m, Some(from)))
    && (forall m :: 0 <= m < |g.petitions| && m != skip && (m < done || IsTwin(g, m, skip)) ==> Settled(g, m, None))
  }

  lemma EstablishOneSettles(g: GatewayState, from: RamsNode, skip: nat, j: nat, next: nat)
    requires LogInv(g) && NodesKnown(g) && skip < |g.petitions| && j < |g.petitions| && from in g.neighbors
    requires SettledUpTo(g, skip, j, from) && next == j + 1 && g.petitions[skip].key.subjectNbr < 0
    requires EstablishOne(g, from, skip, j).ok
    ensures SettledUpTo(EstablishOne(g, from, skip, j).gw, skip, next, from)
  {
    var h := EstablishOne(g, from, skip, j).gw;
    EstablishOneKeeps(g, from, skip, j);
    forall m | 0 <= m < |h.petitions| && m != skip
      ensures Settled(h, m, Some(from)) && (m < next || IsTwin(h, m, skip) ==> Settled(h, m, None))
    {
      if m != j {
        OnlySgsKeepsOthersSettled(g, h, j, m, Some(from));
        if m < j || IsTwin(g, m, skip) { OnlySgsKeepsOthersSettled(g, h, j, m, None); }
      }
    }
  }

  lemma {:induction false} EstablishKeeps(g: GatewayState, from: RamsNode, skip: nat, j: nat)
    requires LogInv(g) && NodesKnown(g) && skip < |g.petitions| && j <= |g.petitions| && from in g.neighbors
    requires SettledUpTo(g, skip, j, from) && g.petitions[skip].key.subjectNbr < 0
    requires Establish(g, from, skip, j).ok
    ensures var h := Establish(g, from, skip, j).gw;
      LogInv(h) && NodesKnown(h) && OnlySgss(g, h) && SettledUpTo(h, skip, |h.petitions|, from)
    decreases |g.petitions| - j
  {
    hide LogInv, NodesKnown, SettledUpTo, EstablishOne;
    if j < |g.petitions| {
      EstablishOneKeeps(g, from, skip, j);
      EstablishOneSettles(g, from, skip, j, j + 1);
      EstablishKeeps(EstablishOne(g, from, skip, j).gw, from, skip, j + 1);
    }
  }

  // ---------- the invariant of a run ----------

  ghost predicate NothingPlayedBack(g: GatewayState) {
    forall i :: 0 <= i < |g.petitions| ==> !g.petitions[i].fromPlayback
  }

  ghost predicate Inv(g: GatewayState) {
    LogInv(g) && NodesKnown(g) && NothingPlayedBack(g) && AllSettled(g, None)
  }

  /** The petition's own fields other than the SGS may change in any way that unsettles nobody. */
  lemma EditPetitionKeeps(g: GatewayState, i: nat, p: PetitionState)
    requires LogInv(g) && NodesKnown(g) && i < |g.petitions|
    requires p.key == g.petitions[i].key && p.sgs == g.petitions[i].sgs
    requires forall n :: n in p.dgs ==> n in g.neighbors
    ensures var h := SetPetition(g, i, p);
      && LogInv(h) && NodesKnown(h)
      && forall m, x :: 0 <= m < |g.petitions| && m != i && Settled(g, m, x) ==> Settled(h, m, x)
  {
    SameLogKeepsLogInv(g, SetPetition(g, i, p));
  }

  lemma NoteAssertionKeeps(g: GatewayState, from: RamsNode, k: Key)
    requires LogInv(g) && NodesKnown(g) && NothingPlayedBack(g) && Occurs(k) && from in g.neighbors
    ensures var h, i := NoteAssertion(g, from, k, false), FindPetition(g.petitions, k);
      && i < |h.petitions| && h.petitions[i].key.subjectNbr == k.subjectNbr
      && LogInv(h) && NodesKnown(h) && NothingPlayedBack(h)
      && |g.petitions| <= |h.petitions| <= |g.petitions| + 1
      && forall m, x :: 0 <= m < |h.petitions| && m != i ==>
           m < |g.petitions| && (Settled(g, m, x) ==> Settled(h, m, x))
  {
    var i := FindPetition(g.petitions, k);
    if i < |g.petitions| {
      var p := g.petitions[i];
      EditPetitionKeeps(g, i, p.(dgs := p.dgs + [from], fromPlayback := false));
    } else {
      ReadBackKeepsApart(k);
      CreatedPetitionKeepsLogInv(g, k, PetitionState(ReadBack(k), [], [from], [], false));
    }
  }

  lemma OnlySgsKeepsAll(g: GatewayState, h: GatewayState, i: nat)
    requires OnlySgs(g, h, i) && NodesKnown(g) && NothingPlayedBack(g)
    ensures NodesKnown(h) && NothingPlayedBack(h)
    ensures (forall m :: 0 <= m < |g.petitions| && m != i ==> Settled(g, m, None)) && Settled(h, i, None)
            ==> AllSettled(h, None)
    ensures AllSettled(g, None) && !Assertable(g, g.petitions[i]) ==> AllSettled(h, None)
    ensures forall x :: AllSettled(g, x) && !Assertable(g, g.petitions[i]) ==> AllSettled(h, x)
  {
    forall m, x | 0 <= m < |g.petitions| && Settled(g, m, x) && (m != i || !Assertable(g, g.petitions[i]))
      ensures Settled(h, m, x)
    {
      OnlySgsKeepsOthersSettled(g, h, i, m, x);
    }
  }

  lemma NeighborIsOther(g: GatewayState, n: RamsNode)
    requires LogInv(g) && n in g.neighbors
    ensures n.continuumNbr > 0 && n.continuumNbr != g.local
  {
  }

  /** Unless the petitions are on the pseudo-subject of the node that asks for one of them, the other needs nothing. */
  lemma TwinIsSettled(g: GatewayState, from: RamsNode, i: nat, m: nat)
    requires LogInv(g) && i < |g.petitions| && m < |g.petitions| && m != i && IsTwin(g, m, i) && from in g.neighbors
    requires g.petitions[i].key.subjectNbr != 0 - from.continuumNbr ==> Settled(g, m, None)
    ensures Settled(g, m, None)
  {
    hide Representable;
    assert UniqueKeys(g);
  }

  lemma AssertionKeepsInv(g: GatewayState, from: RamsNode, k: Key)
    requires LogInv(g) && NodesKnown(g) && NothingPlayedBack(g) && Occurs(k) && from in g.neighbors
    requires AllSettled(g, Some(from)) && (k.subjectNbr != 0 - from.continuumNbr ==> AllSettled(g, None))
    requires HandlePetitionAssertion(g, from, k, false).ok
    ensures Inv(HandlePetitionAssertion(g, from, k, false).gw)
  {
    hide LogInv, ReadBack, Representable, Establish, AssertPetition;
    var i, noted := FindPetition(g.petitions, k), NoteAssertion(g, from, k, false);
    NoteAssertionKeeps(g, from, k);
    NeighborIsOther(g, from);
    var s := if k.subjectNbr < 0 then Establish(noted, from, i, 0) else Step(noted, true);
    if k.subjectNbr < 0 {
      forall m | 0 <= m < |noted.petitions| && m != i && IsTwin(noted, m, i) ensures Settled(noted, m, None) {
        TwinIsSettled(noted, from, i, m);
      }
      EstablishKeeps(noted, from, i, 0);
      assert NothingPlayedBack(s.gw);
    }
    assert forall m :: 0 <= m < |s.gw.petitions| && m != i ==> Settled(s.gw, m, None);
    AssertPetitionKeeps(s.gw, i);
    OnlySgsKeepsAll(s.gw, AssertPetition(s.gw, i).gw, i);
  }

  lemma RetractOneKeeps(g: GatewayState, from: RamsNode, j: nat)
    requires LogInv(g) && NodesKnown(g) && NothingPlayedBack(g) && j < |g.petitions| && from in g.neighbors
    requires AllSettled(g, Some(from))
    requires RetractOne(g, from, j).ok
    ensures var h := RetractOne(g, from, j).gw;
      LogInv(h) && NodesKnown(h) && NothingPlayedBack(h) && AllSettled(h, Some(from))
      && h.declared == g.declared && h.neighbors == g.neighbors
  {
    hide SgsMirrorsLog, SentKeysKnown, NeverReasserts, SgsWithoutDuplicates, DistinctNodes, ReadBack, Representable;
    hide CancelPetition, RemoveFirst;
    var p := g.petitions[j];
    var q := p.(sgs := RemoveFirst(p.sgs, from), dgs := RemoveFirst(p.dgs, from));
    var r := PetitionRpdu(from.continuumNbr, PETITION_CANCELLATION, ReadBack(p.key));
    var h := SetPetition(g, j, q);
    var mid := SetPetition(g, j, p.(dgs := q.dgs));
    EditPetitionKeeps(g, j, p.(dgs := q.dgs));
    var s := if from in p.sgs || from in p.dgs then Send(h, r) else Step(h, true);
    if from in p.sgs || from in p.dgs {
      OneRpduKeepsLogInv(mid, j, from, PETITION_CANCELLATION, q.sgs);
      assert s.gw == SetPetition(mid.(sent := mid.sent + [r]), j, q);
    } else {
      assert s.gw == g;
    }
    assert NodesKnown(s.gw) && NothingPlayedBack(s.gw);
    assert AllSettled(s.gw, Some(from)) by {
      forall m | 0 <= m < |g.petitions| ensures Settled(s.gw, m, Some(from)) {
        assert Settled(g, m, Some(from));
      }
    }
    if !Assertable(s.gw, q) {
      CancelPetitionKeeps(s.gw, j);
      OnlySgsKeepsAll(s.gw, CancelPetition(s.gw, j).gw, j);
    }
  }

  lemma {:induction false} RetractKeeps(g: GatewayState, from: RamsNode, j: nat)
    requires LogInv(g) && NodesKnown(g) && NothingPlayedBack(g) && j <= |g.petitions| && from in g.neighbors
    requires AllSettled(g, Some(from))
    requires Retract(g, from, j).ok
    ensures Inv(Retract(g, from, j).gw)
    decreases |g.petitions| - j
  {
    hide RetractOne, SgsMirrorsLog, SentKeysKnown, NeverReasserts, ReadBack;
    if j == |g.petitions| {
      RemoveFirstNoDup(g.declared, from);
      var h := g.(declared := RemoveFirst(g.declared, from));
      SameLogKeepsLogInv(g, h);
      assert AllSettled(h, None) by {
        forall m | 0 <= m < |g.petitions| ensures Settled(h, m, None) {
          assert Settled(g, m, Some(from));
        }
      }
    } else {
      RetractOneKeeps(g, from, j);
      RetractKeeps(RetractOne(g, from, j).gw, from, j + 1);
    }
  }

  lemma CancellationKeepsInv(g: GatewayState, from: RamsNode, k: Key)
    requires Inv(g) && from in g.neighbors
    requires HandlePetitionCancellation(g, from, k, false).ok
    ensures Inv(HandlePetitionCancellation(g, from, k, false).gw)
  {
    var i := FindPetition(g.petitions, k);
    if i < |g.petitions| && from in g.petitions[i].dgs {
      var p := g.petitions[i].(dgs := RemoveFirst(g.petitions[i].dgs, from), fromPlayback := false);
      var h := SetPetition(g, i, p);
      EditPetitionKeeps(g, i, p);
      assert Settled(g, i, None);
      assert AllSettled(h, None);
      if k.subjectNbr == 0 - from.continuumNbr {
        assert forall m :: 0 <= m < |h.petitions| && Settled(h, m, None) ==> Settled(h, m, Some(from));
        RetractKeeps(h, from, 0);
      } else if !Assertable(h, p) {
        CancelPetitionKeeps(h, i);
        OnlySgsKeepsAll(h, CancelPetition(h, i).gw, i);
      }
    }
  }

  lemma AddPetitionerKeepsInv(g: GatewayState, m: ModuleId, k: Key)
    requires Inv(g) && Occurs(k)
    requires AddPetitioner(g, m, k).ok
    ensures Inv(AddPetitioner(g, m, k).gw)
  {
    hide LogInv, ReadBack, Representable, AssertPetition;
    var i := FindPetition(g.petitions, k);
    var h;
    if i == |g.petitions| {
      var p := PetitionState(ReadBack(k), [m], [], [], false);
      h := g.(petitions := g.petitions + [p]);
      CreatedPetitionKeepsLogInv(g, k, p);
    } else if m in g.petitions[i].dms {
      return;
    } else {
      var p := g.petitions[i].(dms := g.petitions[i].dms + [m], fromPlayback := false);
      h := SetPetition(g, i, p);
      EditPetitionKeeps(g, i, p);
    }
    assert forall n :: 0 <= n < |g.petitions| && n != i && Settled(g, n, None) ==> Settled(h, n, None);
    AssertPetitionKeeps(h, i);
    OnlySgsKeepsAll(h, AssertPetition(h, i).gw, i);
  }

  lemma RemovePetitionerKeepsInv(g: GatewayState, m: ModuleId, k: Key)
    requires Inv(g)
    requires RemovePetitioner(g, m, k).ok
    ensures Inv(RemovePetitioner(g, m, k).gw)
  {
    var i := FindPetition(g.petitions, k);
    if i < |g.petitions| {
      var p := g.petitions[i].(dms := RemoveFirst(g.petitions[i].dms, m));
      var h := SetPetition(g, i, p);
      EditPetitionKeeps(g, i, p);
      if Assertable(h, p) {
        assert Settled(g, i, None);
      } else {
        CancelPetitionKeeps(h, i);
        OnlySgsKeepsAll(h, CancelPetition(h, i).gw, i);
      }
    }
  }

  lemma DeclarationKeepsAllButSettled(g: GatewayState, from: RamsNode)
    requires Inv(g) && from in g.neighbors
    ensures var h := NoteDeclaration(g, from);
      LogInv(h) && NodesKnown(h) && NothingPlayedBack(h) && AllSettled(h, Some(from))
  {
    var h := NoteDeclaration(g, from);
    SameLogKeepsLogInv(g, h);
    if from in g.declared {
      var i :| 0 <= i < |g.declared| && g.declared[i] == from;
      assert g.declared[i].continuumNbr == from.continuumNbr;
    }
    forall m | 0 <= m < |g.petitions| ensures Settled(h, m, Some(from)) {
      assert Settled(g, m, None);
    }
  }

  /** A key that a subscription can name or an envelope can give (HeaderKeyIsRead), from a gateway in the list of
      expected neighbours. */
  predicate Admissible(g: GatewayState, e: Event) {
    Occurs(e.key) && (e.Receive? ==> e.from in g.neighbors)
  }

  lemma ApplyKeepsInv(g: GatewayState, e: Event)
    requires Inv(g) && Admissible(g, e)
    requires Apply(g, e).ok
    ensures Inv(Apply(g, e).gw)
  {
    match e {
      case Subscribe(m, k) =>
        if k.continuumNbr != g.local && m != g.self { AddPetitionerKeepsInv(g, m, k); }
      case Unsubscribe(m, k) =>
        if k.continuumNbr != g.local && m != g.self { RemovePetitionerKeepsInv(g, m, k); }
      case Receive(from, cc, k) =>
        if cc == PETITION_CANCELLATION {
          CancellationKeepsInv(g, from, k);
          LogLineKeepsInv(HandlePetitionCancellation(g, from, k, false), from, cc, k);
        } else if cc == PETITION_ASSERTION && k.subjectNbr == 0 - from.continuumNbr {
          var h := NoteDeclaration(g, from);
          DeclarationKeepsAllButSettled(g, from);
          AssertionKeepsInv(h, from, k);
          LogLineKeepsInv(HandlePetitionAssertion(h, from, k, false), from, cc, k);
        } else if cc == PETITION_ASSERTION && Declared(g, from.continuumNbr) {
          assert AllSettled(g, Some(from)) by {
            assert forall m :: 0 <= m < |g.petitions| && Settled(g, m, None) ==> Settled(g, m, Some(from));
          }
          AssertionKeepsInv(g, from, k);
          LogLineKeepsInv(HandlePetitionAssertion(g, from, k, false), from, cc, k);
        }
    }
  }

  lemma LogLineKeepsInv(s: Step, from: RamsNode, cc: int, k: Key)
    requires s.ok && Inv(s.gw)
    ensures Inv(Logged(s, from, cc, k).gw)
  {
    var h := Logged(s, from, cc, k).gw;
    SameLogKeepsLogInv(s.gw, h);
    assert forall m :: 0 <= m < |h.petitions| && Settled(s.gw, m, None) ==> Settled(h, m, None);
  }

  /** The neighbours of a gateway about to start: one per continuum, none of them its own. */
  ghost predicate GoodNeighbors(local: int, neighbors: seq<RamsNode>) {
    && NoDup(neighbors)
    && 0 < local < 0x8000
    && (forall n :: n in neighbors ==> n.continuumNbr > 0 && n.continuumNbr != local)
    && (forall n, m :: n in neighbors && m in neighbors && n.continuumNbr == m.continuumNbr ==> n == m)
  }

  lemma {:induction false} DeclarationsLastCode(nodes: seq<RamsNode>, local: int, dest: int)
    ensures LastCode(Declarations(nodes, local), dest, DeclarationKey(local))
         == if exists n :: n in nodes && n.continuumNbr == dest then PETITION_ASSERTION else 0
  {
    if nodes != [] {
      var front, last := nodes[..|nodes| - 1], nodes[|nodes| - 1];
      DeclarationsLastCode(front, local, dest);
      assert forall n :: n in nodes <==> n in front || n == last;
      assert Declarations(nodes, local)[..|front|] == Declarations(front, local);
    }
  }

  lemma {:induction false} DeclarationsNeverReassert(nodes: seq<RamsNode>, local: int)
    requires NoDup(nodes)
    requires forall n, m :: n in nodes && m in nodes && n.continuumNbr == m.continuumNbr ==> n == m
    ensures NeverReasserts(Declarations(nodes, local))
  {
    if nodes != [] {
      var front, last := nodes[..|nodes| - 1], nodes[|nodes| - 1];
      assert forall n :: n in front ==> n in nodes;
      DeclarationsNeverReassert(front, local);
      assert last in nodes && last !in front;
      DeclarationsLastCode(front, local, last.continuumNbr);
      NeverReassertsAppend(Declarations(front, local),
                           PetitionRpdu(last.continuumNbr, PETITION_ASSERTION, DeclarationKey(local)));
    }
  }

  lemma StartupInv(local: int, self: ModuleId, isTree: bool, neighbors: seq<RamsNode>)
    requires GoodNeighbors(local, neighbors)
    ensures Inv(Startup(local, self, isTree, neighbors))
  {
    hide ReadBack, LastCode, NeverReasserts;
    var g := Startup(local, self, isTree, neighbors);
    ReadBackKeepsApart(DeclarationKey(local));
    ReadBackIff(DeclarationKey(local));
    DeclarationsNeverReassert(neighbors, local);
    forall n | n in neighbors
      ensures LastCode(g.sent, n.continuumNbr, g.petitions[0].key) == PETITION_ASSERTION
    {
      DeclarationsLastCode(neighbors, local, n.continuumNbr);
    }
    forall r | r in g.sent && r.PetitionRpdu? ensures NamesPetition(g, r.key) {
      assert g.petitions[0].key == r.key;
    }
  }

  /** States of one gateway with the same petitions by key. */
  ghost predicate SameKeys(g: GatewayState, h: GatewayState) {
    && h.neighbors == g.neighbors && h.local == g.local && h.self == g.self && h.isTree == g.isTree
    && |h.petitions| == |g.petitions|
    && (forall i :: 0 <= i < |g.petitions| ==> h.petitions[i].key == g.petitions[i].key)
  }

  lemma {:induction false} EstablishKeepsKeys(g: GatewayState, from: RamsNode, skip: nat, j: nat)
    requires skip < |g.petitions| && j <= |g.petitions|
    ensures SameKeys(g, Establish(g, from, skip, j).gw)
    decreases |g.petitions| - j
  {
    if j < |g.petitions| && EstablishOne(g, from, skip, j).ok {
      EstablishKeepsKeys(EstablishOne(g, from, skip, j).gw, from, skip, j + 1);
    }
  }

  lemma RetractOneKeepsKeys(g: GatewayState, from: RamsNode, j: nat)
    requires j < |g.petitions|
    ensures SameKeys(g, RetractOne(g, from, j).gw)
  {
    hide CancelPetition, RemoveFirst;
  }

  lemma {:induction false} RetractKeepsKeys(g: GatewayState, from: RamsNode, j: nat)
    requires j <= |g.petitions|
    ensures SameKeys(g, Retract(g, from, j).gw)
    decreases |g.petitions| - j
  {
    if j < |g.petitions| && RetractOne(g, from, j).ok {
      RetractOneKeepsKeys(g, from, j);
      hide RetractOne;
      RetractKeepsKeys(RetractOne(g, from, j).gw, from, j + 1);
    }
  }

  /** The same petitions by key, and at most one more, for a key that had none. */
  ghost predicate KeysGrow(g: GatewayState, h: GatewayState, k: Key) {
    || SameKeys(g, h)
    || (&& h.neighbors == g.neighbors && h.local == g.local && h.self == g.self && h.isTree == g.isTree
        && FindPetition(g.petitions, k) == |g.petitions|
        && |h.petitions| == |g.petitions| + 1
        && h.petitions[|g.petitions|].key == ReadBack(k)
        && (forall i :: 0 <= i < |g.petitions| ==> h.petitions[i].key == g.petitions[i].key))
  }

  lemma AssertionKeepsKeys(g: GatewayState, from: RamsNode, k: Key, playback: bool)
    ensures KeysGrow(g, HandlePetitionAssertion(g, from, k, playback).gw, k)
  {
    hide ReadBack, Establish, AssertPetition;
    var noted, i := NoteAssertion(g, from, k, playback), FindPetition(g.petitions, k);
    assert KeysGrow(g, noted, k);
    EstablishKeepsKeys(noted, from, i, 0);
  }

  lemma CancellationKeepsKeys(g: GatewayState, from: RamsNode, k: Key, playback: bool)
    ensures SameKeys(g, HandlePetitionCancellation(g, from, k, playback).gw)
  {
    var i := FindPetition(g.petitions, k);
    if i < |g.petitions| {
      var p := g.petitions[i].(dgs := RemoveFirst(g.petitions[i].dgs, from), fromPlayback := playback);
      RetractKeepsKeys(SetPetition(g, i, p), from, 0);
    }
  }

  lemma AddPetitionerKeepsKeys(g: GatewayState, m: ModuleId, k: Key)
    ensures KeysGrow(g, AddPetitioner(g, m, k).gw, k)
  {
  }

  lemma RemovePetitionerKeepsKeys(g: GatewayState, m: ModuleId, k: Key)
    ensures SameKeys(g, RemovePetitioner(g, m, k).gw)
  {
  }

  lemma RpduKeepsKeys(g: GatewayState, from: RamsNode, cc: int, k: Key)
    ensures KeysGrow(g, HandlePetitionRpdu(g, from, cc, k).gw, k)
  {
    if cc == PETITION_CANCELLATION {
      CancellationKeepsKeys(g, from, k, false);
    } else if cc == PETITION_ASSERTION {
      var d := if k.subjectNbr == 0 - from.continuumNbr then NoteDeclaration(g, from) else g;
      AssertionKeepsKeys(d, from, k, false);
      var s := HandlePetitionAssertion(d, from, k, false);
      assert KeysGrow(g, s.gw, k);
    }
  }

  lemma ApplyKeepsKeys(g: GatewayState, e: Event)
    ensures KeysGrow(g, Apply(g, e).gw, e.key)
  {
    match e
    case Subscribe(m, k) => AddPetitionerKeepsKeys(g, m, k);
    case Unsubscribe(m, k) => RemovePetitionerKeepsKeys(g, m, k);
    case Receive(from, cc, k) => RpduKeepsKeys(g, from, cc, k);
  }

  ghost predicate AllAdmissible(g: GatewayState, events: seq<Event>) {
    forall e :: e in events ==> Admissible(g, e)
  }

  lemma {:induction false} RunKeepsInv(g: GatewayState, events: seq<Event>)
    requires Inv(g) && AllAdmissible(g, events)
    ensures var s := Run(g, events); s.gw.neighbors == g.neighbors && (s.ok ==> Inv(s.gw))
  {
    if events != [] {
      var front, e := events[..|events| - 1], events[|events| - 1];
      RunKeepsInv(g, front);
      var s := Run(g, front);
      ApplyKeepsKeys(s.gw, e);
      assert Admissible(g, e);
      if s.ok && Apply(s.gw, e).ok { ApplyKeepsInv(s.gw, e); }
    }
  }

  lemma {:induction false} RunKeepsNetwork(g: GatewayState, events: seq<Event>)
    ensures Run(g, events).gw.isTree == g.isTree
  {
    if events != [] {
      hide Apply;
      RunKeepsNetwork(g, events[..|events| - 1]);
      ApplyKeepsKeys(Run(g, events[..|events| - 1]).gw, events[|events| - 1]);
    }
  }

  // ---------- the laws ----------

  /** On every run from startup whose sends succeed, each declared neighbour has been sent every all-continua petition
      that is on no neighbour's pseudo-subject, or has a representable key, and that a local module wants or, on a
      tree, another gateway; but for the sole member of its DGS when no local module wants it. */
  lemma NothingLeftToAssert(local: int, self: ModuleId, isTree: bool, neighbors: seq<RamsNode>, events: seq<Event>,
                            i: nat)
    requires GoodNeighbors(local, neighbors)
    requires AllAdmissible(Startup(local, self, isTree, neighbors), events)
    requires var s := Run(Startup(local, self, isTree, neighbors), events); s.ok && i < |s.gw.petitions|
    ensures var g := Run(Startup(local, self, isTree, neighbors), events).gw;
      var p := g.petitions[i];
      ForAllContinua(g, p.key) && (p.dms != [] || (isTree && p.dgs != [])) ==>
        && AssertionSet(g, p) == []
        && forall d :: d in g.declared ==> d in p.sgs || (p.dms == [] && p.dgs == [d])
  {
    var g := Startup(local, self, isTree, neighbors);
    StartupInv(local, self, isTree, neighbors);
    RunKeepsInv(g, events);
    RunKeepsNetwork(g, events);
    assert Settled(Run(g, events).gw, i, None);
    SettledIffNothingToAssert(Run(g, events).gw, i);
  }

  /** On every such run the SGS of a petition lists no node twice; and if its key is representable, a neighbour is
      listed iff the last RPDU sent to it about that key was an assertion, and a neighbour that holds the petition
      is never sent it again. */
  lemma SgsIsLastRpdu(local: int, self: ModuleId, isTree: bool, neighbors: seq<RamsNode>, events: seq<Event>,
                      i: nat, n: RamsNode)
    requires GoodNeighbors(local, neighbors)
    requires AllAdmissible(Startup(local, self, isTree, neighbors), events)
    requires var s := Run(Startup(local, self, isTree, neighbors), events); s.ok && i < |s.gw.petitions|
    requires n in neighbors
    ensures var g := Run(Startup(local, self, isTree, neighbors), events).gw;
      var p := g.petitions[i];
      && (Representable(p.key) ==> (n in p.sgs <==> LastCode(g.sent, n.continuumNbr, p.key) == PETITION_ASSERTION))
      && NoDup(p.sgs)
      && NeverReasserts(g.sent)
  {
    var g := Startup(local, self, isTree, neighbors);
    StartupInv(local, self, isTree, neighbors);
    RunKeepsInv(g, events);
  }

  lemma {:induction false} CancelToAllEmptiesSgs(g: GatewayState, i: nat)
    requires i < |g.petitions| && CancelToAll(g, i).ok
    ensures CancelToAll(g, i).gw.petitions[i].sgs == []
    decreases |g.petitions[i].sgs|
  {
    if g.petitions[i].sgs != [] { CancelToAllEmptiesSgs(CancelTo(g, i, g.petitions[i].sgs[0]).gw, i); }
  }

  /** On a tree, when the last local module that wants a petition unsubscribes, every neighbour that has been
      asked is told so iff no other gateway wants it. In particular a neighbour that alone still wants it is not
      told: two neighbours that have asked each other stay listed with each other for good. */
  lemma LastUnsubscriptionOnTree(g: GatewayState, m: ModuleId, k: Key)
    requires Inv(g) && g.isTree
    requires var i := FindPetition(g.petitions, k); i < |g.petitions| && g.petitions[i].dms == [m]
    requires RemovePetitioner(g, m, k).ok
    ensures var i, h := FindPetition(g.petitions, k), RemovePetitioner(g, m, k).gw;
      && h.petitions[i].dms == []
      && if g.petitions[i].dgs == [] then
           && h.petitions[i].sgs == []
           && (Representable(k) ==>
                 forall n :: n in g.neighbors ==> LastCode(h.sent, n.continuumNbr, k) != PETITION_ASSERTION)
         else h.sent == g.sent && h.petitions[i].sgs == g.petitions[i].sgs
  {
    var i := FindPetition(g.petitions, k);
    var h := SetPetition(g, i, g.petitions[i].(dms := RemoveFirst([m], m)));
    if g.petitions[i].dgs == [] {
      CancelToAllEmptiesSgs(h, i);
      RemovePetitionerKeepsInv(g, m, k);
    }
  }

  // ---------- keys, whether or not sends succeed ----------

  lemma ApplyKeepsUniqueKeys(g: GatewayState, e: Event)
    requires UniqueKeys(g) && Occurs(e.key)
    ensures UniqueKeys(Apply(g, e).gw)
  {
    hide Apply, ReadBack, Read, Representable;
    ReadBackKeepsApart(e.key);
    ApplyKeepsKeys(g, e);
  }

  /** The state after all of events, failed sends or not: a failed AddPetitioner does not stop the gateway. */
  function Survive(g: GatewayState, events: seq<Event>): GatewayState {
    if events == [] then g else Apply(Survive(g, events[..|events| - 1]), events[|events| - 1]).gw
  }

  /** However subscriptions and RPDUs follow each other, no two petitions ever share a representable key. */
  lemma {:induction false} KeysStayUnique(local: int, self: ModuleId, isTree: bool, neighbors: seq<RamsNode>,
                                          events: seq<Event>)
    requires GoodNeighbors(local, neighbors)
    requires forall e :: e in events ==> Occurs(e.key)
    ensures UniqueKeys(Survive(Startup(local, self, isTree, neighbors), events))
  {
    if events == [] {
      StartupInv(local, self, isTree, neighbors);
    } else {
      KeysStayUnique(local, self, isTree, neighbors, events[..|events| - 1]);
      ApplyKeepsUniqueKeys(Survive(Startup(local, self, isTree, neighbors), events[..|events| - 1]),
                           events[|events| - 1]);
    }
  }

  /** A module's subscription to something that nobody asks for yet: one more petition, with the key that its
      envelope reads back as. */
  lemma NewSubscription(g: GatewayState, m: ModuleId, k: Key)
    requires FindPetition(g.petitions, k) == |g.petitions|
    ensures var h := AddPetitioner(g, m, k).gw;
      && |h.petitions| == |g.petitions| + 1
      && h.petitions[..|g.petitions|] == g.petitions
      && h.petitions[|g.petitions|].key == ReadBack(k)
      && h.petitions[|g.petitions|].dms == [m] && h.petitions[|g.petitions|].dgs == []
  {
    hide AssertPetition, ReadBack;
  }

  /** The restriction to representable keys is exact: a second module that subscribes to the same
      thing joins the first one's petition iff the key is representable; otherwise the gateway ends
      up with two petitions that share a key. */
  lemma SecondSubscriberJoinsIff(local: int, self: ModuleId, isTree: bool, neighbors: seq<RamsNode>,
                                 k: Key, m: ModuleId, n: ModuleId)
    requires GoodNeighbors(local, neighbors)
    requires k.continuumNbr != local && k != DeclarationKey(local) && self != m && self != n && m != n
    ensures var g := Survive(Startup(local, self, isTree, neighbors), [Subscribe(m, k), Subscribe(n, k)]);
      && (|g.petitions| == 2 <==> Representable(k))
      && (!Representable(k) ==> |g.petitions| == 3 && g.petitions[1].key == g.petitions[2].key)
  {
    hide AssertPetition, ReadBack, Representable;
    var g0 := Startup(local, self, isTree, neighbors);
    var first := [Subscribe(m, k)];
    ReadBackIff(k);
    ReadBackIff(DeclarationKey(local));
    StartupKey(local, self, isTree, neighbors);
    assert FindPetition(g0.petitions, k) == 1;
    NewSubscription(g0, m, k);
    var g1 := AddPetitioner(g0, m, k).gw;
    SubscribersSurvive(g0, m, n, k);
    assert g1.petitions[0] == g0.petitions[0];
    var i := FindPetition(g1.petitions, k);
    if Representable(k) {
      assert i == 1;
    } else {
      assert i == 2;
      NewSubscription(g1, n, k);
      assert AddPetitioner(g1, n, k).gw.petitions[1] == g1.petitions[1];
    }
  }

  lemma StartupKey(local: int, self: ModuleId, isTree: bool, neighbors: seq<RamsNode>)
    requires GoodNeighbors(local, neighbors)
    ensures Startup(local, self, isTree, neighbors).petitions[0].key == DeclarationKey(local)
  {
    ReadBackIff(DeclarationKey(local));
  }

  lemma SubscribersSurvive(g: GatewayState, m: ModuleId, n: ModuleId, k: Key)
    requires k.continuumNbr != g.local && m != g.self && n != g.self
    ensures Survive(g, [Subscribe(m, k), Subscribe(n, k)]) == AddPetitioner(AddPetitioner(g, m, k).gw, n, k).gw
  {
    hide AddPetitioner;
    var first, both := [Subscribe(m, k)], [Subscribe(m, k), Subscribe(n, k)];
    ApplyKeepsKeys(g, first[0]);
    assert both[..1] == first && first[..0] == [];
    assert Survive(g, first) == Apply(Survive(g, []), first[0]).gw;
    assert Survive(g, both) == Apply(Survive(g, first), both[1]).gw;
  }

  // ---------- why pseudo-subjects need representable keys ----------

  /** A petition that only local modules want, wherever it has been sent. */
  function Wanted(k: Key, m: ModuleId, sgs: seq<RamsNode>): PetitionState { PetitionState(k, [m], [], sgs, false) }

  lemma SubscribeWhileAlone(g: GatewayState, m: ModuleId, k: Key)
    requires g.declared == [] && k.continuumNbr == 0 && FindPetition(g.petitions, k) == |g.petitions|
    ensures AddPetitioner(g, m, k) == Step(g.(petitions := g.petitions + [Wanted(ReadBack(k), m, [])]), true)
  {
    var p := Wanted(ReadBack(k), m, []);
    ReadBackKeepsApart(k);
    hide ReadBack;
    var h := g.(petitions := g.petitions + [p]);
    assert AssertionSet(h, p) == [] && Union(p.sgs, []) == [];
    assert SetPetition(h, |g.petitions|, p).petitions == h.petitions;
  }

  lemma RunOfThree(g: GatewayState, a: Event, b: Event, c: Event)
    ensures Run(g, [a, b, c])
         == if !Apply(g, a).ok then Apply(g, a)
            else if !Apply(Apply(g, a).gw, b).ok then Apply(Apply(g, a).gw, b)
            else Apply(Apply(Apply(g, a).gw, b).gw, c)
  {
    hide Apply;
    assert [a, b, c][..2] == [a, b] && [a, b][..1] == [a] && [a][..0] == [];
    assert Run(g, []) == Step(g, true);
    assert Run(g, [a]) == Apply(g, a);
    assert Run(g, [a, b]) == if !Apply(g, a).ok then Apply(g, a) else Apply(Apply(g, a).gw, b);
  }

  /** The neighbour asks for what two petitions with its pseudo-subject ask for: only the first one is asserted. */
  lemma NeighborAsksForTwins(g: GatewayState, x: RamsNode, decl: PetitionState, k: Key, m: ModuleId, n: ModuleId)
    requires g.declared == [] && g.petitions == [decl, Wanted(k, m, []), Wanted(k, n, [])]
    requires k.continuumNbr == 0 && k.subjectNbr == 0 - x.continuumNbr < 0
    requires decl.key.continuumNbr == 0 && decl.key != k && x in decl.sgs && decl.dms != []
    ensures var s := HandlePetitionRpdu(g, x, PETITION_ASSERTION, k);
      && s.ok && |s.gw.petitions| == 3 && s.gw.petitions[2] == g.petitions[2]
      && AssertionSet(s.gw, g.petitions[2]) == [x]
  {
    hide AssertPetition;
    var h := g.(declared := [x]);
    assert NoteDeclaration(g, x) == h;
    assert FindPetition(h.petitions, k) == 1 by { assert h.petitions[0].key != k && h.petitions[1].key == k; }
    assert !ConfirmsPlayback(h, x, k);
    var noted := NoteAssertion(h, x, k, false);
    EstablishPassesOver(noted, x, k);
    AssertsToOne(noted, 1, x);
    assert Subtract([x], []) == [x] by { assert Subtract([x][..0], []) == []; }
  }

  lemma EstablishPassesOver(g: GatewayState, x: RamsNode, k: Key)
    requires |g.petitions| == 3 && g.petitions[1].key == k && g.petitions[2].key == k
    requires g.petitions[0].key.continuumNbr == 0 && g.declared == [x] && x in g.petitions[0].sgs
    ensures Establish(g, x, 1, 0) == Step(g, true)
  {
    assert x !in AssertionSet(g, g.petitions[0]);
    assert Establish(g, x, 1, 3) == Step(g, true);
    assert Establish(g, x, 1, 2) == Step(g, true);
    assert Establish(g, x, 1, 1) == Step(g, true);
  }

  lemma AssertsToOne(g: GatewayState, i: nat, x: RamsNode)
    requires i < |g.petitions| && g.petitions[i].key.continuumNbr == 0 && g.declared == [x]
    ensures AssertPetition(g, i).ok
  {
    var nodes, k := AssertionSet(g, g.petitions[i]), g.petitions[i].key;
    forall d | d in nodes ensures Declared(g, d.continuumNbr) { assert d == g.declared[0]; }
    SendAssertionsResult(g, nodes, k);
  }

  /** Two modules subscribe to the pseudo-subject of a neighbour for all continua, limited to a unit whose number
      cannot be represented; then the neighbour asks for the same. The second module's petition remains to be
      asserted to the neighbour: it is passed over as if it were the neighbour's own. */
  lemma TwinPetitionIsPassedOver(local: int, self: ModuleId, isTree: bool, neighbors: seq<RamsNode>, x: RamsNode,
                                 k: Key, m: ModuleId, n: ModuleId)
    requires GoodNeighbors(local, neighbors) && x in neighbors && self != m && self != n
    requires Noticed(k) && !Representable(k) && k.continuumNbr == 0 && k.subjectNbr == 0 - x.continuumNbr
    ensures var s := Run(Startup(local, self, isTree, neighbors),
                         [Subscribe(m, k), Subscribe(n, k), Receive(x, PETITION_ASSERTION, ReadBack(k))]);
      && s.ok && |s.gw.petitions| == 3
      && s.gw.petitions[2] == Wanted(ReadBack(k), n, [])
      && AssertionSet(s.gw, s.gw.petitions[2]) == [x]
  {
    hide AddPetitioner, HandlePetitionRpdu, FindPetition;
    var g := Startup(local, self, isTree, neighbors);
    var key := ReadBack(k);
    StartupKey(local, self, isTree, neighbors);
    ReadBackKeepsApart(k);
    ReadBackIff(k);
    ReadBackIff(DeclarationKey(local));
    hide ReadBack, Representable;
    NobodyHasKey(g.petitions, k);
    SubscribeWhileAlone(g, m, k);
    var g1 := g.(petitions := g.petitions + [Wanted(key, m, [])]);
    NobodyHasKey(g1.petitions, k);
    SubscribeWhileAlone(g1, n, k);
    var g2 := g.(petitions := g.petitions + [Wanted(key, m, []), Wanted(key, n, [])]);
    assert g1.petitions + [Wanted(key, n, [])] == g2.petitions;
    NeighborAsksForTwins(g2, x, g.petitions[0], key, m, n);
    RunOfThree(g, Subscribe(m, k), Subscribe(n, k), Receive(x, PETITION_ASSERTION, key));
  }

  lemma NobodyHasKey(petitions: seq<PetitionState>, k: Key)
    requires forall p :: p in petitions ==> p.key != k
    ensures FindPetition(petitions, k) == |petitions|
  {
  }
}
