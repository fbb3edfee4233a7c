/** How a gateway relays AAMS messages: whom it forwards a publication to, and how announced and
    private messages travel. Functions on values, like those of module Petitions. */
module Relaying {
  import opened Bytes
  import opened Enclosures
  import opened Envelope
  import opened Lists
  import opened Options
  import opened Petitions
  import opened Units

  /** EnclosureSatisfiesPetition and, for a message of the local continuum, MessageSatisfiesPetition. */
  predicate Satisfies(names: UnitNames, msg: Message, k: Key) {
    && msg.subjectNbr == k.subjectNbr
    && (k.continuumNbr != 0 ==> k.continuumNbr == msg.continuumNbr)
    && (k.unitNbr != 0 ==> SubunitOf(names, msg.unitNbr, k.unitNbr))
    && (k.roleNbr != 0 ==> k.roleNbr == msg.roleNbr)
  }

  /** The nodes of other continua than the sender's. */
  function Others(nodes: seq<RamsNode>, continuumNbr: int): (r: seq<RamsNode>)
    ensures forall n :: n in r <==> n in nodes && n.continuumNbr != continuumNbr
  {
    if nodes == [] then []
    else if nodes[|nodes| - 1].continuumNbr == continuumNbr then Others(nodes[..|nodes| - 1], continuumNbr)
    else Others(nodes[..|nodes| - 1], continuumNbr) + [nodes[|nodes| - 1]]
  }

  /** The gateways that want a publication: the union of the DGSs of the petitions it satisfies. */
  function WantedBy(names: UnitNames, petitions: seq<PetitionState>, msg: Message): seq<RamsNode> {
    if petitions == [] then []
    else
      var nodes, p := WantedBy(names, petitions[..|petitions| - 1], msg), petitions[|petitions| - 1];
      if Satisfies(names, msg, p.key) then Union(nodes, p.dgs) else nodes
  }

  /** The same without the gateway the publication came from. */
  function WantedByOthers(names: UnitNames, petitions: seq<PetitionState>, msg: Message, from: int): seq<RamsNode> {
    if petitions == [] then []
    else
      var nodes, p := WantedByOthers(names, petitions[..|petitions| - 1], msg, from), petitions[|petitions| - 1];
      if Satisfies(names, msg, p.key) then Union(nodes, Others(p.dgs, from)) else nodes
  }

  /** The local modules that want a publication. */
  function WantedByModules(names: UnitNames, petitions: seq<PetitionState>, msg: Message): seq<ModuleId> {
    if petitions == [] then []
    else
      var modules, p := WantedByModules(names, petitions[..|petitions| - 1], msg), petitions[|petitions| - 1];
      if Satisfies(names, msg, p.key) then Union(modules, p.dms) else modules
  }

  /** The gateways that want a publication received from another. */
  function RelayNodes(names: UnitNames, petitions: seq<PetitionState>, pdu: Pdu, from: int): seq<RamsNode> {
    match ParseMessage(pdu)
    case Some(msg) => WantedByOthers(names, petitions, msg, from)
    case None => []
  }

  /** One copy to each node in turn, up to the first that has not declared itself. */
  function SendMessage(g: GatewayState, nodes: seq<RamsNode>, octets: seq<byte>): (s: Step)
    ensures s.gw == g.(sent := s.gw.sent) && g.sent <= s.gw.sent
    decreases |nodes|
  {
    if nodes == [] then Step(g, true)
    else
      var s := Send(g, MessageRpdu(nodes[0].continuumNbr, octets));
      if !s.ok then s else SendMessage(s.gw, nodes[1..], octets)
  }

  function Dests(rpdus: seq<Rpdu>): seq<int> {
    if rpdus == [] then [] else [rpdus[0].dest] + Dests(rpdus[1..])
  }

  /** Where SendMessage sends copies. */
  function CopiesTo(g: GatewayState, nodes: seq<RamsNode>, octets: seq<byte>): seq<int> {
    Dests(SendMessage(g, nodes, octets).gw.sent[|g.sent|..])
  }

  /** The conduit to a continuum, as a list of at most one node. */
  function ConduitNodes(g: GatewayState, continuumNbr: int): seq<RamsNode> {
    match Conduit(g.petitions, continuumNbr)
    case Some(node) => [node]
    case None => []
  }

  /** HandleAnnouncedMessage: to all continua, on to every declared neighbour but the sender (on a
      tree); to another continuum, on to the conduit; to the local one, nowhere. */
  function AnnounceNodes(g: GatewayState, destContinuum: int, from: int): seq<RamsNode> {
    if destContinuum == 0 then
      if g.isTree then Others(g.declared, from) else []
    else if destContinuum != g.local then ConduitNodes(g, destContinuum)
    else []
  }

  /** HandlePrivateMessage's relaying. */
  function PrivateNodes(g: GatewayState, destContinuum: int): seq<RamsNode> {
    if destContinuum != g.local then ConduitNodes(g, destContinuum) else []
  }

  /** ForwardTargetedMessage: only an announcement may go to all continua. */
  function TargetedNodes(g: GatewayState, destContinuum: int, controlCode: int): seq<RamsNode> {
    if destContinuum < 0 then []
    else if destContinuum == 0 then
      if controlCode == ANNOUNCE_ON_RECEPTION then g.declared else []
    else if controlCode == SEND_ON_RECEPTION || controlCode == ANNOUNCE_ON_RECEPTION
    then ConduitNodes(g, destContinuum)
    else []
  }

  // ---------- facts about these lists ----------

  /** Some petition that lists n in its DGS has the message's subject and is limited to no continuum but the message's,
      to no role but the sender's, and to no unit whose name is not a prefix of the name of the sender's unit. */
  ghost predicate Wants(names: UnitNames, petitions: seq<PetitionState>, msg: Message, n: RamsNode) {
    exists i :: 0 <= i < |petitions| && n in petitions[i].dgs
      && petitions[i].key.subjectNbr == msg.subjectNbr
      && (petitions[i].key.continuumNbr == 0 || petitions[i].key.continuumNbr == msg.continuumNbr)
      && (petitions[i].key.roleNbr == 0 || petitions[i].key.roleNbr == msg.roleNbr)
      && (petitions[i].key.unitNbr == 0
          || (petitions[i].key.unitNbr in names && msg.unitNbr in names
              && names[petitions[i].key.unitNbr] <= names[msg.unitNbr]))
  }

  lemma WantsIff(names: UnitNames, petitions: seq<PetitionState>, msg: Message, n: RamsNode)
    ensures Wants(names, petitions, msg, n) <==>
      exists i :: 0 <= i < |petitions| && Satisfies(names, msg, petitions[i].key) && n in petitions[i].dgs
  {
  }

  lemma WantsByLast(names: UnitNames, petitions: seq<PetitionState>, msg: Message, n: RamsNode)
    requires petitions != []
    ensures var front, p := petitions[..|petitions| - 1], petitions[|petitions| - 1];
      Wants(names, petitions, msg, n) <==>
      Wants(names, front, msg, n) || (Satisfies(names, msg, p.key) && n in p.dgs)
  {
    var front := petitions[..|petitions| - 1];
    WantsIff(names, petitions, msg, n);
    WantsIff(names, front, msg, n);
    if i :| 0 <= i < |petitions| && Satisfies(names, msg, petitions[i].key) && n in petitions[i].dgs {
      if i < |front| { assert front[i] == petitions[i]; }
    }
    if i :| 0 <= i < |front| && Satisfies(names, msg, front[i].key) && n in front[i].dgs {
      assert petitions[i] == front[i];
    }
  }

  lemma {:induction false} WantedByOthersNodes(names: UnitNames, petitions: seq<PetitionState>, msg: Message, from: int)
    ensures var r := WantedByOthers(names, petitions, msg, from);
      NoDup(r) && forall n :: n in r <==> n.continuumNbr != from && Wants(names, petitions, msg, n)
  {
    if petitions != [] {
      var front, p := petitions[..|petitions| - 1], petitions[|petitions| - 1];
      WantedByOthersNodes(names, front, msg, from);
      UnionNoDup(WantedByOthers(names, front, msg, from), Others(p.dgs, from));
      forall n { WantsByLast(names, petitions, msg, n); }
    }
  }

  lemma {:induction false} WantedByNodes(names: UnitNames, petitions: seq<PetitionState>, msg: Message)
    ensures var r := WantedBy(names, petitions, msg);
      NoDup(r) && forall n :: n in r <==> Wants(names, petitions, msg, n)
  {
    if petitions != [] {
      var front, p := petitions[..|petitions| - 1], petitions[|petitions| - 1];
      WantedByNodes(names, front, msg);
      UnionNoDup(WantedBy(names, front, msg), p.dgs);
      forall n { WantsByLast(names, petitions, msg, n); }
    }
  }

  /** Each local module gets the message once if one of its petitions has the message's subject and is limited to no
      continuum but the message's, to no role but the sender's, and to no unit that the sender's unit does not lie
      within; no other module gets it. */
  lemma {:induction false} WantedByModulesExactly(names: UnitNames, petitions: seq<PetitionState>, msg: Message,
                                                  m: ModuleId)
    ensures NoDup(WantedByModules(names, petitions, msg))
    ensures m in WantedByModules(names, petitions, msg) <==>
      exists i :: 0 <= i < |petitions| && m in petitions[i].dms
        && petitions[i].key.subjectNbr == msg.subjectNbr
        && (petitions[i].key.continuumNbr == 0 || petitions[i].key.continuumNbr == msg.continuumNbr)
        && (petitions[i].key.roleNbr == 0 || petitions[i].key.roleNbr == msg.roleNbr)
        && (petitions[i].key.unitNbr == 0
            || (petitions[i].key.unitNbr in names && msg.unitNbr in names
                && names[petitions[i].key.unitNbr] <= names[msg.unitNbr]))
  {
    if petitions != [] {
      var front, p := petitions[..|petitions| - 1], petitions[|petitions| - 1];
      WantedByModulesExactly(names, front, msg, m);
      UnionNoDup(WantedByModules(names, front, msg), p.dms);
      assert forall i :: 0 <= i < |front| ==> front[i] == petitions[i];
      if i :| 0 <= i < |petitions| && Satisfies(names, msg, petitions[i].key) && m in petitions[i].dms {
        if i < |front| { assert front[i] == petitions[i]; }
      }
    }
  }

  /** Whom an announcement is relayed to: if it is for all continua, to nobody on a mesh and on a tree to every declared
      neighbour but the one it came from; if it is for another continuum, to the conduit there, if there is one; and
      if it is for the local one, to nobody. */
  lemma AnnouncedTo(g: GatewayState, destContinuum: int, from: int, n: RamsNode)
    ensures destContinuum == 0 ==>
      (n in AnnounceNodes(g, destContinuum, from) <==> g.isTree && n in g.declared && n.continuumNbr != from)
    ensures destContinuum != 0 ==>
      (n in AnnounceNodes(g, destContinuum, from) <==>
         destContinuum != g.local && Conduit(g.petitions, destContinuum) == Some(n))
    ensures NoDup(g.declared) ==> NoDup(AnnounceNodes(g, destContinuum, from))
  {
    if NoDup(g.declared) { OthersNoDup(g.declared, from); }
  }

  /** Whom a private message is relayed to: nobody, if it is for the local continuum, and else the conduit. A message
      of a local module goes to the conduit too, unless it is an announcement to all continua, which goes to every
      declared neighbour. */
  lemma TargetedTo(g: GatewayState, destContinuum: int, controlCode: int, n: RamsNode)
    ensures n in PrivateNodes(g, destContinuum) <==>
      destContinuum != g.local && Conduit(g.petitions, destContinuum) == Some(n)
    ensures n in TargetedNodes(g, destContinuum, controlCode) <==>
      || (destContinuum == 0 && controlCode == ANNOUNCE_ON_RECEPTION && n in g.declared)
      || (destContinuum > 0 && (controlCode == ANNOUNCE_ON_RECEPTION || controlCode == SEND_ON_RECEPTION)
          && Conduit(g.petitions, destContinuum) == Some(n))
  {
  }

  lemma {:induction false} OthersNoDup(nodes: seq<RamsNode>, continuumNbr: int)
    requires NoDup(nodes)
    ensures NoDup(Others(nodes, continuumNbr))
  {
    if nodes != [] {
      OthersNoDup(nodes[..|nodes| - 1], continuumNbr);
      assert nodes[|nodes| - 1] !in nodes[..|nodes| - 1];
    }
  }

  /** The continua of the nodes up to the first that has not declared itself. */
  function Reached(g: GatewayState, nodes: seq<RamsNode>): seq<int>
    decreases |nodes|
  {
    if nodes == [] || !Declared(g, nodes[0].continuumNbr) then []
    else [nodes[0].continuumNbr] + Reached(g, nodes[1..])
  }

  function Copies(dests: seq<int>, octets: seq<byte>): seq<Rpdu> {
    if dests == [] then [] else [MessageRpdu(dests[0], octets)] + Copies(dests[1..], octets)
  }

  lemma {:induction false} DestsOfCopies(dests: seq<int>, octets: seq<byte>)
    ensures Dests(Copies(dests, octets)) == dests
  {
    if dests != [] { DestsOfCopies(dests[1..], octets); }
  }

  /** Sending comes to one identical copy to each of the nodes that Reached names, and it succeeds iff these are
      all of them. */
  lemma {:induction false} SendMessageReaches(g: GatewayState, nodes: seq<RamsNode>, octets: seq<byte>)
    ensures SendMessage(g, nodes, octets)
         == Step(g.(sent := g.sent + Copies(Reached(g, nodes), octets)), |Reached(g, nodes)| == |nodes|)
    decreases |nodes|
  {
    if nodes == [] || !Declared(g, nodes[0].continuumNbr) {
      assert g.sent + [] == g.sent;
    } else {
      var r := MessageRpdu(nodes[0].continuumNbr, octets);
      var h := g.(sent := g.sent + [r]);
      SendMessageReaches(h, nodes[1..], octets);
      SameReached(g, h, nodes[1..]);
      assert g.sent + [r] + Copies(Reached(g, nodes[1..]), octets) == g.sent + Copies(Reached(g, nodes), octets);
    }
  }

  lemma {:induction false} SameReached(g: GatewayState, h: GatewayState, nodes: seq<RamsNode>)
    requires h.declared == g.declared
    ensures Reached(h, nodes) == Reached(g, nodes)
    decreases |nodes|
  {
    if nodes != [] {
      assert Declared(h, nodes[0].continuumNbr) <==> Declared(g, nodes[0].continuumNbr);
      SameReached(g, h, nodes[1..]);
    }
  }

  lemma CopiesAreReached(g: GatewayState, nodes: seq<RamsNode>, octets: seq<byte>)
    ensures CopiesTo(g, nodes, octets) == Reached(g, nodes)
  {
    SendMessageReaches(g, nodes, octets);
    DestsOfCopies(Reached(g, nodes), octets);
    hide SendMessage;
    assert (g.sent + Copies(Reached(g, nodes), octets))[|g.sent|..] == Copies(Reached(g, nodes), octets);
  }

  /** Nodes of distinct continua, each listed once, are sent at most one copy each, and only if declared; all of
      them are if all are declared. */
  lemma CopiesToNodes(g: GatewayState, nodes: seq<RamsNode>, octets: seq<byte>)
    requires NoDup(nodes)
    requires forall n, m :: n in nodes && m in nodes && n.continuumNbr == m.continuumNbr ==> n == m
    ensures var r := CopiesTo(g, nodes, octets);
      && NoDup(r)
      && (forall c :: c in r ==> Declared(g, c) && exists n :: n in nodes && n.continuumNbr == c)
      && ((forall n :: n in nodes ==> Declared(g, n.continuumNbr)) ==> forall n :: n in nodes ==> n.continuumNbr in r)
  {
    CopiesAreReached(g, nodes, octets);
    ReachedNodes(g, nodes);
  }

  lemma {:induction false} ReachedNodes(g: GatewayState, nodes: seq<RamsNode>)
    requires NoDup(nodes)
    requires forall n, m :: n in nodes && m in nodes && n.continuumNbr == m.continuumNbr ==> n == m
    ensures var r := Reached(g, nodes);
      && NoDup(r)
      && (forall c :: c in r ==> Declared(g, c) && exists n :: n in nodes && n.continuumNbr == c)
      && ((forall n :: n in nodes ==> Declared(g, n.continuumNbr)) ==> forall n :: n in nodes ==> n.continuumNbr in r)
    decreases |nodes|
  {
    if nodes != [] && Declared(g, nodes[0].continuumNbr) {
      var rest := nodes[1..];
      assert forall n :: n in nodes <==> n == nodes[0] || n in rest;
      assert nodes[0] !in rest;
      ReachedNodes(g, rest);
      assert nodes[0].continuumNbr !in Reached(g, rest);
    }
  }
}
