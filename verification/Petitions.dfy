/** What each RAMS gateway operation does to the gateway's petition state, as functions on values.
    The methods of class Gateway are proved to compute these functions; the laws of the petition
    protocol are proved about them.

    A send to a neighbour that has not declared itself fails, and a failed send ends the operation
    where it stands: a Step carries the state reached and whether every send succeeded. */
module Petitions {
  import opened Bytes
  import opened Lists
  import opened Envelope
  import opened Options

  /** A neighbouring gateway, one per continuum. */
  datatype RamsNode = RamsNode(continuumNbr: int, protocol: nat, gwEid: string)

  datatype ModuleId = ModuleId(unitNbr: int, nbr: int)

  /** A petition: its key, the local modules that want its messages (dms), the gateways that asked
      this one for them (dgs) and the gateways this one has asked for them (sgs). */
  datatype PetitionState = PetitionState(key: Key, dms: seq<ModuleId>, dgs: seq<RamsNode>,
                                         sgs: seq<RamsNode>, fromPlayback: bool)

  /** An RPDU handed to the transport for the gateway of continuum dest. */
  datatype Rpdu = PetitionRpdu(dest: int, cc: int, key: Key) | MessageRpdu(dest: int, octets: seq<byte>)

  datatype LogLine = LogLine(protocol: nat, gwEid: string, cc: int, key: Key)

  datatype GatewayState = GatewayState(local: int, self: ModuleId, isTree: bool, neighbors: seq<RamsNode>,
                                       declared: seq<RamsNode>, petitions: seq<PetitionState>,
                                       sent: seq<Rpdu>, log: seq<LogLine>)

  datatype Step = Step(gw: GatewayState, ok: bool)

  predicate Declared(g: GatewayState, continuumNbr: int) {
    exists i :: 0 <= i < |g.declared| && g.declared[i].continuumNbr == continuumNbr
  }

  /** The position of the first petition with key k; the number of petitions if there is none. */
  function FindPetition(petitions: seq<PetitionState>, k: Key): (i: nat)
    ensures i <= |petitions|
    ensures i < |petitions| ==> petitions[i].key == k
    ensures forall j :: 0 <= j < i ==> petitions[j].key != k
  {
    if petitions == [] || petitions[0].key == k then 0 else 1 + FindPetition(petitions[1..], k)
  }

  function SetPetition(g: GatewayState, i: nat, p: PetitionState): (r: GatewayState)
    requires i < |g.petitions|
  {
    g.(petitions := g.petitions[i := p])
  }

  /** Who has asked for messages under key k. */
  function DgsOf(g: GatewayState, k: Key): seq<RamsNode> { DgsIn(g.petitions, k) }

  function DgsIn(petitions: seq<PetitionState>, k: Key): seq<RamsNode> {
    var i := FindPetition(petitions, k);
    if i < |petitions| then petitions[i].dgs else []
  }

  // ---------- sending ----------

  function Send(g: GatewayState, r: Rpdu): Step {
    if Declared(g, r.dest) then Step(g.(sent := g.sent + [r]), true) else Step(g, false)
  }

  function SendAssertions(g: GatewayState, nodes: seq<RamsNode>, k: Key): (s: Step)
    ensures s.gw == g.(sent := s.gw.sent)
    decreases |nodes|
  {
    if nodes == [] then Step(g, true)
    else
      var s := Send(g, PetitionRpdu(nodes[0].continuumNbr, PETITION_ASSERTION, k));
      if !s.ok then s else SendAssertions(s.gw, nodes[1..], k)
  }

  // ---------- which neighbours a petition still has to be sent to ----------

  /** The first gateway known to lead to a continuum: the head of the first non-empty DGS of a
      petition on that continuum's pseudo-subject. */
  function Conduit(petitions: seq<PetitionState>, continuumNbr: int): Option<RamsNode> {
    if petitions == [] then None
    else if petitions[0].key.subjectNbr == 0 - continuumNbr && petitions[0].dgs != []
    then Some(petitions[0].dgs[0])
    else Conduit(petitions[1..], continuumNbr)
  }

  /** The gateways in the domain of a petition. */
  function DomainNodes(g: GatewayState, k: Key): seq<RamsNode> {
    if k.continuumNbr == 0 then g.declared
    else match Conduit(g.petitions, k.continuumNbr)
         case Some(node) => [node]
         case None => []
  }

  function AssertionSet(g: GatewayState, p: PetitionState): seq<RamsNode> {
    var unasked := Subtract(DomainNodes(g, p.key), p.sgs);
    if |p.dms| == 0 && |p.dgs| == 1 then Subtract(unasked, p.dgs) else unasked
  }

  predicate Assertable(g: GatewayState, p: PetitionState) {
    |p.dms| > 0 || (g.isTree && |p.dgs| > 0)
  }

  // ---------- asserting and cancelling one petition ----------

  /** Two states that differ only in what was sent and in the SGS of petition i. */
  ghost predicate OnlySgs(g: GatewayState, h: GatewayState, i: nat) {
    && |h.petitions| == |g.petitions|
    && i < |g.petitions|
    && h == g.(petitions := h.petitions, sent := h.sent)
    && (forall j :: 0 <= j < |g.petitions| && j != i ==> h.petitions[j] == g.petitions[j])
    && h.petitions[i] == g.petitions[i].(sgs := h.petitions[i].sgs)
  }

  function AssertPetition(g: GatewayState, i: nat): (s: Step)
    requires i < |g.petitions|
    ensures OnlySgs(g, s.gw, i)
  {
    var p := g.petitions[i];
    if !Assertable(g, p) then Step(g, true)
    else
      var nodes := AssertionSet(g, p);
      var s := SendAssertions(g, nodes, p.key);
      if !s.ok then s
      else Step(SetPetition(s.gw, i, p.(sgs := Union(p.sgs, nodes))), true)
  }

  /** Sends one cancellation of petition i and, once sent, takes the node off its SGS. */
  function CancelTo(g: GatewayState, i: nat, node: RamsNode): (s: Step)
    requires i < |g.petitions|
    ensures OnlySgs(g, s.gw, i)
  {
    var p := g.petitions[i];
    var s := Send(g, PetitionRpdu(node.continuumNbr, PETITION_CANCELLATION, ReadBack(p.key)));
    if !s.ok then s else Step(SetPetition(s.gw, i, p.(sgs := RemoveFirst(p.sgs, node))), true)
  }

  function CancelToAll(g: GatewayState, i: nat): (s: Step)
    requires i < |g.petitions|
    ensures OnlySgs(g, s.gw, i)
    decreases |g.petitions[i].sgs|
  {
    var p := g.petitions[i];
    if p.sgs == [] then Step(g, true)
    else
      var s := CancelTo(g, i, p.sgs[0]);
      if !s.ok then s else CancelToAll(s.gw, i)
  }

  function CancelPetition(g: GatewayState, i: nat): (s: Step)
    requires i < |g.petitions|
    ensures OnlySgs(g, s.gw, i)
  {
    var p := g.petitions[i];
    if p.dgs == [] then CancelToAll(g, i)
    else if |p.dgs| == 1 && p.dgs[0] in p.sgs then CancelTo(g, i, p.dgs[0])
    else Step(g, true)
  }

  // ---------- RPDUs from neighbours ----------

  function NoteDeclaration(g: GatewayState, from: RamsNode): GatewayState {
    if Declared(g, from.continuumNbr) then g else g.(declared := g.declared + [from])
  }

  /** Petition j is sent to a node that has become the conduit to some continuum, if it is
      assertable and the node still has to be asked; petitions with skip's key are passed over. */
  function EstablishOne(g: GatewayState, from: RamsNode, skip: nat, j: nat): (s: Step)
    requires skip < |g.petitions| && j < |g.petitions|
    ensures OnlySgs(g, s.gw, j)
  {
    var p := g.petitions[j];
    if p.key == g.petitions[skip].key || !Assertable(g, p) || from !in AssertionSet(g, p) then Step(g, true)
    else
      var s := Send(g, PetitionRpdu(from.continuumNbr, PETITION_ASSERTION, p.key));
      if !s.ok then s else Step(SetPetition(s.gw, j, p.(sgs := p.sgs + [from])), true)
  }

  function Establish(g: GatewayState, from: RamsNode, skip: nat, j: nat): (s: Step)
    requires skip < |g.petitions| && j <= |g.petitions|
    ensures |s.gw.petitions| == |g.petitions|
    decreases |g.petitions| - j
  {
    if j == |g.petitions| then Step(g, true)
    else
      var s := EstablishOne(g, from, skip, j);
      if !s.ok then s else Establish(s.gw, from, skip, j + 1)
  }

  /** The petition with key k after `from` has been listed in its DGS. A reassertion is listed again;
      only one that confirms played-back state is ignored. */
  function NoteAssertion(g: GatewayState, from: RamsNode, k: Key, playback: bool): (r: GatewayState)
    ensures FindPetition(g.petitions, k) < |r.petitions|
    ensures |r.petitions| >= |g.petitions|
  {
    var i := FindPetition(g.petitions, k);
    if i < |g.petitions| then
      var p := g.petitions[i];
      SetPetition(g, i, p.(dgs := p.dgs + [from], fromPlayback := playback))
    else
      g.(petitions := g.petitions + [PetitionState(ReadBack(k), [], [from], [], playback)])
  }

  predicate ConfirmsPlayback(g: GatewayState, from: RamsNode, k: Key) {
    var i := FindPetition(g.petitions, k);
    i < |g.petitions| && from in g.petitions[i].dgs && g.petitions[i].fromPlayback
  }

  function HandlePetitionAssertion(g: GatewayState, from: RamsNode, k: Key, playback: bool): (s: Step)
    ensures |s.gw.petitions| >= |g.petitions|
  {
    var i := FindPetition(g.petitions, k);
    if ConfirmsPlayback(g, from, k) then
      Step(SetPetition(g, i, g.petitions[i].(fromPlayback := playback)), true)
    else
      var noted := NoteAssertion(g, from, k, playback);
      if playback then Step(noted, true)
      else
        var s := if k.subjectNbr < 0 then Establish(noted, from, i, 0) else Step(noted, true);
        if !s.ok then s else AssertPetition(s.gw, i)
  }

  /** Petition j on the retraction of a neighbour: the neighbour leaves SGS and DGS, is sent our own
      cancellation if it was in either, and the petition is cancelled if nobody wants it any more. */
  function RetractOne(g: GatewayState, from: RamsNode, j: nat): (s: Step)
    requires j < |g.petitions|
    ensures |s.gw.petitions| == |g.petitions|
  {
    var p := g.petitions[j];
    var q := p.(sgs := RemoveFirst(p.sgs, from), dgs := RemoveFirst(p.dgs, from));
    var h := SetPetition(g, j, q);
    var s := if from in p.sgs || from in p.dgs
             then Send(h, PetitionRpdu(from.continuumNbr, PETITION_CANCELLATION, ReadBack(p.key)))
             else Step(h, true);
    if !s.ok || Assertable(s.gw, q) then s else CancelPetition(s.gw, j)
  }

  function Retract(g: GatewayState, from: RamsNode, j: nat): (s: Step)
    requires j <= |g.petitions|
    ensures |s.gw.petitions| == |g.petitions|
    decreases |g.petitions| - j
  {
    if j == |g.petitions| then Step(g.(declared := RemoveFirst(g.declared, from)), true)
    else
      var s := RetractOne(g, from, j);
      if !s.ok then s else Retract(s.gw, from, j + 1)
  }

  function HandlePetitionCancellation(g: GatewayState, from: RamsNode, k: Key, playback: bool): (s: Step)
    ensures |s.gw.petitions| == |g.petitions|
  {
    var i := FindPetition(g.petitions, k);
    if i == |g.petitions| || from !in g.petitions[i].dgs then Step(g, true)
    else
      var p := g.petitions[i].(dgs := RemoveFirst(g.petitions[i].dgs, from), fromPlayback := playback);
      var h := SetPetition(g, i, p);
      if playback then Step(h, true)
      else if k.subjectNbr == 0 - from.continuumNbr then Retract(h, from, 0)
      else if Assertable(h, p) then Step(h, true)
      else CancelPetition(h, i)
  }

  function Logged(s: Step, from: RamsNode, cc: int, k: Key): Step {
    if s.ok then Step(s.gw.(log := s.gw.log + [LogLine(from.protocol, from.gwEid, cc, k)]), true) else s
  }

  /** A petition assertion or cancellation RPDU from a neighbour. An assertion from a gateway that has
      not declared itself is dropped, unless it is that gateway's declaration. */
  function HandlePetitionRpdu(g: GatewayState, from: RamsNode, cc: int, k: Key): Step {
    if cc == PETITION_ASSERTION then
      if k.subjectNbr == 0 - from.continuumNbr then
        Logged(HandlePetitionAssertion(NoteDeclaration(g, from), from, k, false), from, cc, k)
      else if Declared(g, from.continuumNbr) then
        Logged(HandlePetitionAssertion(g, from, k, false), from, cc, k)
      else Step(g, true)
    else if cc == PETITION_CANCELLATION then
      Logged(HandlePetitionCancellation(g, from, k, false), from, cc, k)
    else Step(g, true)
  }

  // ---------- subscriptions of local modules ----------

  function AddPetitioner(g: GatewayState, m: ModuleId, k: Key): (s: Step)
    ensures |s.gw.petitions| >= |g.petitions|
  {
    var i := FindPetition(g.petitions, k);
    if i == |g.petitions| then
      AssertPetition(g.(petitions := g.petitions + [PetitionState(ReadBack(k), [m], [], [], false)]), i)
    else
      var p := g.petitions[i];
      if m in p.dms then Step(g, true)
      else AssertPetition(SetPetition(g, i, p.(dms := p.dms + [m], fromPlayback := false)), i)
  }

  function RemovePetitioner(g: GatewayState, m: ModuleId, k: Key): (s: Step)
    ensures |s.gw.petitions| == |g.petitions|
  {
    var i := FindPetition(g.petitions, k);
    if i == |g.petitions| then Step(g, true)
    else
      var p := g.petitions[i].(dms := RemoveFirst(g.petitions[i].dms, m));
      var h := SetPetition(g, i, p);
      if Assertable(h, p) then Step(h, true) else CancelPetition(h, i)
  }

  // ---------- runs ----------

  datatype Event =
    | Subscribe(m: ModuleId, key: Key)
    | Unsubscribe(m: ModuleId, key: Key)
    | Receive(from: RamsNode, cc: int, key: Key)

  /** The event does not make the gateway handle a neighbour's retraction: it is no cancellation on the pseudo-subject
      of the neighbour it comes from, or the neighbour is not listed under its key. */
  predicate NoRetraction(g: GatewayState, e: Event) {
    e.Receive? && e.cc == PETITION_CANCELLATION && e.key.subjectNbr == 0 - e.from.continuumNbr ==>
      e.from !in DgsOf(g, e.key)
  }

  /** Subscriptions confined to the local continuum, and the gateway's own, are none of RAMS's business. */
  function Apply(g: GatewayState, e: Event): Step {
    match e
    case Subscribe(m, k) =>
      if k.continuumNbr != g.local && m != g.self then AddPetitioner(g, m, k) else Step(g, true)
    case Unsubscribe(m, k) =>
      if k.continuumNbr != g.local && m != g.self then RemovePetitioner(g, m, k) else Step(g, true)
    case Receive(from, cc, k) => HandlePetitionRpdu(g, from, cc, k)
  }

  /** The petition by which a gateway declares itself: its own pseudo-subject, from all continua. */
  function DeclarationKey(continuumNbr: int): Key { Key(0, 0, 0, 0 - continuumNbr) }

  function Declarations(nodes: seq<RamsNode>, local: int): (r: seq<Rpdu>)
    ensures |r| == |nodes|
    ensures forall i :: 0 <= i < |nodes| ==>
      r[i] == PetitionRpdu(nodes[i].continuumNbr, PETITION_ASSERTION, DeclarationKey(local))
  {
    if nodes == [] then []
    else
      var last := PetitionRpdu(nodes[|nodes| - 1].continuumNbr, PETITION_ASSERTION, DeclarationKey(local));
      Declarations(nodes[..|nodes| - 1], local) + [last]
  }

  /** A gateway that has just sent its declaration to every expected neighbour. */
  function Startup(local: int, self: ModuleId, isTree: bool, neighbors: seq<RamsNode>): GatewayState {
    GatewayState(local, self, isTree, neighbors, [],
                 [PetitionState(ReadBack(DeclarationKey(local)), [self], [], neighbors, false)],
                 Declarations(neighbors, local), [])
  }

  /** A run; it stops at the first operation whose sends do not all succeed. */
  function Run(g: GatewayState, events: seq<Event>): Step {
    if events == [] then Step(g, true)
    else
      var s := Run(g, events[..|events| - 1]);
      if !s.ok then s else Apply(s.gw, events[|events| - 1])
  }

  // ---------- recovering the petition state from the log ----------

  function LookUpNeighbor(nodes: seq<RamsNode>, gwEid: string): Option<RamsNode> {
    if nodes == [] then None
    else if nodes[0].gwEid == gwEid then Some(nodes[0])
    else LookUpNeighbor(nodes[1..], gwEid)
  }

  /** One line of the petition log, handled again without telling anyone. */
  function RehandlePetition(g: GatewayState, line: LogLine): Step {
    match LookUpNeighbor(g.neighbors, line.gwEid)
    case None => Step(g, false)
    case Some(from) =>
      if line.cc == PETITION_ASSERTION then
        if line.key.subjectNbr == 0 - from.continuumNbr then
          HandlePetitionAssertion(NoteDeclaration(g, from), from, line.key, true)
        else if Declared(g, from.continuumNbr) then
          HandlePetitionAssertion(g, from, line.key, true)
        else Step(g, false)
      else if line.cc == PETITION_CANCELLATION then
        HandlePetitionCancellation(g, from, line.key, true)
      else Step(g, false)
  }

  function PlaybackPetitionLog(g: GatewayState, lines: seq<LogLine>): Step
    decreases |lines|
  {
    if lines == [] then Step(g, true)
    else
      var s := RehandlePetition(g, lines[0]);
      if !s.ok then s else PlaybackPetitionLog(s.gw, lines[1..])
  }
}
