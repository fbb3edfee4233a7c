/** One message relayed through a tree of gateways, as a network of steps: any in-flight copy may
    arrive next, and its receiver sends further copies. */
module RelayLaws {
  import opened Enclosures
  import opened Envelope
  import opened Lists
  import opened Trees
  import opened Petitions
  import opened Relaying
  import opened Units

  datatype Packet = Packet(from: int, to: int)

  /** The copies under way, how often each gateway has received the message, and whom each gateway
      that has handled it (or originated it) sent it on to. */
  datatype Flood = Flood(inFlight: multiset<Packet>, received: multiset<int>, sentBy: map<int, seq<int>>)

  function Packets(from: int, targets: seq<int>): (m: multiset<Packet>)
    ensures forall a, b :: m[Packet(a, b)] == if a == from then multiset(targets)[b] else 0
  {
    if targets == [] then multiset{}
    else
      var front, last := targets[..|targets| - 1], targets[|targets| - 1];
      assert targets == front + [last];
      Packets(from, front) + multiset{Packet(from, last)}
  }

  function Started(origin: int, targets: seq<int>): Flood {
    Flood(Packets(origin, targets), multiset{}, map[origin := targets])
  }

  function Delivered(s: Flood, p: Packet, targets: seq<int>): Flood {
    Flood(s.inFlight - multiset{p} + Packets(p.to, targets), s.received + multiset{p.to}, s.sentBy[p.to := targets])
  }

  /** Copies go to tree neighbours, one each. */
  ghost predicate Allowed(g: Graph, v: int, targets: seq<int>) {
    v in g && NoDup(targets) && forall c :: c in targets ==> c in g[v]
  }

  ghost predicate Step(g: Graph, s: Flood, t: Flood, p: Packet, targets: seq<int>) {
    && p in s.inFlight
    && Allowed(g, p.to, targets) && p.from !in targets
    && t == Delivered(s, p, targets)
  }

  /** How often v is due to have the message: once if its parent has sent it on to v, else never. */
  ghost function Due(g: Graph, origin: int, s: Flood, v: int): nat
    requires IsTree(g) && origin in g && v in g && v != origin
  {
    var p := Parent(g, origin, v);
    if p in s.sentBy && v in s.sentBy[p] then 1 else 0
  }

  /** Whoever has received the message has handled it, sending it to tree neighbours but not back. */
  ghost predicate SentInv(g: Graph, origin: int, s: Flood)
    requires IsTree(g) && origin in g
  {
    && s.received[origin] == 0
    && (forall v :: v in s.sentBy <==> v == origin || v in s.received)
    && (forall v :: v in s.sentBy ==> v in g && Allowed(g, v, s.sentBy[v]))
    && (forall v :: v in s.sentBy && v != origin ==> Parent(g, origin, v) !in s.sentBy[v])
  }

  ghost predicate FloodInv(g: Graph, origin: int, s: Flood)
    requires IsTree(g) && origin in g
  {
    && SentInv(g, origin, s)
    && (forall p :: p in s.inFlight ==> p.to in g && p.to != origin && p.from == Parent(g, origin, p.to))
    && (forall v {:trigger Due(g, origin, s, v)} :: v in g && v != origin ==>
          s.inFlight[Packet(Parent(g, origin, v), v)] + s.received[v] == Due(g, origin, s, v))
  }

  lemma NoDupCount<T>(s: seq<T>, x: T)
    requires NoDup(s)
    ensures multiset(s)[x] == if x in s then 1 else 0
  {
    if s != [] {
      var front, last := s[..|s| - 1], s[|s| - 1];
      assert s == front + [last] && last !in front;
      NoDupCount(front, x);
    }
  }

  /** A target other than the parent is a child. */
  lemma TargetIsChild(g: Graph, origin: int, v: int, w: int)
    requires IsTree(g) && origin in g && v in g && w in g[v]
    requires v == origin || w != Parent(g, origin, v)
    ensures w in g && w != origin && Parent(g, origin, w) == v
  {
    ParentOrChild(g, origin, v, w);
  }

  lemma StartedInv(g: Graph, origin: int, targets: seq<int>)
    requires IsTree(g) && Allowed(g, origin, targets)
    ensures FloodInv(g, origin, Started(origin, targets))
  {
    var s := Started(origin, targets);
    forall p | p in s.inFlight ensures p.to in g && p.to != origin && p.from == Parent(g, origin, p.to) {
      assert p == Packet(p.from, p.to);
      NoDupCount(targets, p.to);
      TargetIsChild(g, origin, origin, p.to);
    }
    forall v | v in g && v != origin
      ensures s.inFlight[Packet(Parent(g, origin, v), v)] + s.received[v] == Due(g, origin, s, v)
    {
      NoDupCount(targets, v);
    }
  }

  /** A copy arrives only where the message has not been before. */
  lemma ArrivesOnce(g: Graph, origin: int, s: Flood, p: Packet)
    requires IsTree(g) && origin in g && FloodInv(g, origin, s) && p in s.inFlight
    ensures p.to in g && p.to != origin && p.from == Parent(g, origin, p.to)
    ensures s.received[p.to] == 0 && p.to !in s.sentBy
    ensures s.inFlight[p] == 1 && Due(g, origin, s, p.to) == 1
  {
    assert p == Packet(Parent(g, origin, p.to), p.to);
    assert Due(g, origin, s, p.to) <= 1;
  }

  lemma StepKeepsDirection(g: Graph, origin: int, s: Flood, t: Flood, p: Packet, targets: seq<int>, q: Packet)
    requires IsTree(g) && origin in g && FloodInv(g, origin, s)
    requires Step(g, s, t, p, targets) && q in t.inFlight
    ensures q.to in g && q.to != origin && q.from == Parent(g, origin, q.to)
  {
    hide IsTree;
    ArrivesOnce(g, origin, s, p);
    assert q == Packet(q.from, q.to);
    if q !in s.inFlight {
      assert q.from == p.to;
      NoDupCount(targets, q.to);
      TargetIsChild(g, origin, p.to, q.to);
    }
  }

  lemma StepKeepsCounts(g: Graph, origin: int, s: Flood, t: Flood, p: Packet, targets: seq<int>, w: int)
    requires IsTree(g) && origin in g && FloodInv(g, origin, s)
    requires Step(g, s, t, p, targets) && w in g && w != origin
    ensures t.inFlight[Packet(Parent(g, origin, w), w)] + t.received[w] == Due(g, origin, t, w)
  {
    hide IsTree;
    ArrivesOnce(g, origin, s, p);
    NoDupCount(targets, w);
    var u := Parent(g, origin, w);
    assert s.inFlight[Packet(u, w)] + s.received[w] == Due(g, origin, s, w);
    ParentIsCloser(g, origin, w);
    assert u != w;
  }

  lemma StepKeepsSent(g: Graph, origin: int, s: Flood, t: Flood, p: Packet, targets: seq<int>)
    requires IsTree(g) && origin in g && SentInv(g, origin, s)
    requires Step(g, s, t, p, targets)
    requires p.to != origin && p.from == Parent(g, origin, p.to)
    ensures SentInv(g, origin, t)
  {
    hide IsTree, Packets;
    forall v ensures v in t.sentBy <==> v == origin || v in t.received {
      assert t.received[v] == s.received[v] + if v == p.to then 1 else 0;
    }
  }

  lemma StepKeepsInv(g: Graph, origin: int, s: Flood, t: Flood, p: Packet, targets: seq<int>)
    requires IsTree(g) && origin in g && FloodInv(g, origin, s)
    requires Step(g, s, t, p, targets)
    ensures FloodInv(g, origin, t)
    ensures t.sentBy.Keys == s.sentBy.Keys + {p.to} && p.to !in s.sentBy
  {
    hide IsTree, Packets, SentInv, Due, Parent, Allowed;
    ArrivesOnce(g, origin, s, p);
    StepKeepsSent(g, origin, s, t, p, targets);
    forall q | q in t.inFlight ensures q.to in g && q.to != origin && q.from == Parent(g, origin, q.to) {
      StepKeepsDirection(g, origin, s, t, p, targets, q);
    }
    forall w | w in g && w != origin
      ensures t.inFlight[Packet(Parent(g, origin, w), w)] + t.received[w] == Due(g, origin, t, w)
    {
      StepKeepsCounts(g, origin, s, t, p, targets, w);
    }
  }

  // ---------- runs ----------

  /** States of the network, each one arrival after the one before. */
  ghost predicate IsRun(g: Graph, origin: int, run: seq<Flood>) {
    && run != []
    && (exists targets :: Allowed(g, origin, targets) && run[0] == Started(origin, targets))
    && (forall i :: 0 < i < |run| ==> Steps(g, run[i - 1], run[i]))
  }

  ghost predicate Steps(g: Graph, s: Flood, t: Flood) {
    exists p, targets :: Step(g, s, t, p, targets)
  }

  lemma {:induction false} RunKeepsInv(g: Graph, origin: int, run: seq<Flood>)
    requires IsTree(g) && origin in g && IsRun(g, origin, run)
    ensures var last := run[|run| - 1];
      FloodInv(g, origin, last) && |last.sentBy.Keys| == |run|
    decreases |run|
  {
    hide IsTree;
    if |run| == 1 {
      var targets :| Allowed(g, origin, targets) && run[0] == Started(origin, targets);
      StartedInv(g, origin, targets);
    } else {
      var front := run[..|run| - 1];
      RunKeepsInv(g, origin, front);
      var s, t := run[|run| - 2], run[|run| - 1];
      assert Steps(g, s, t);
      var p, targets :| Step(g, s, t, p, targets);
      StepKeepsInv(g, origin, s, t, p, targets);
    }
  }

  lemma SubsetSize<T>(a: set<T>, b: set<T>)
    requires a <= b
    ensures |a| <= |b|
  {
    assert b == a + (b - a);
  }

  /** However copies are interleaved and whatever gateways decide to send on, the message reaches no
      gateway twice, never returns to its origin, and the relaying ends within as many arrivals as
      there are other gateways. */
  lemma AtMostOnceAndTerminates(g: Graph, origin: int, run: seq<Flood>, v: int)
    requires IsTree(g) && origin in g && IsRun(g, origin, run)
    ensures run[|run| - 1].received[v] <= 1
    ensures run[|run| - 1].received[origin] == 0
    ensures |run| - 1 <= |g.Keys| - 1
  {
    var s := run[|run| - 1];
    RunKeepsInv(g, origin, run);
    if v in g && v != origin { assert s.received[v] <= Due(g, origin, s, v); }
    assert s.sentBy.Keys <= g.Keys by { assert forall w :: w in s.sentBy.Keys ==> w in g; }
    SubsetSize(s.sentBy.Keys, g.Keys);
  }

  /** Once no copy is under way, a gateway has the message iff its parent sent it on to it, and then
      exactly once. */
  lemma ExactlyWhereSent(g: Graph, origin: int, run: seq<Flood>, v: int)
    requires IsTree(g) && origin in g && IsRun(g, origin, run) && v in g && v != origin
    requires run[|run| - 1].inFlight == multiset{}
    ensures var s, u := run[|run| - 1], Parent(g, origin, v);
      s.received[v] == if u in s.sentBy && v in s.sentBy[u] then 1 else 0
  {
    RunKeepsInv(g, origin, run);
    assert Due(g, origin, run[|run| - 1], v) <= 1;
  }

  // ---------- gateways of a tree ----------

  /** A gateway at node v: its declared neighbours are its tree neighbours, and all nodes it knows come
      from its list of expected neighbours, which has one node per continuum. */
  ghost predicate AtNode(g: Graph, v: int, gw: GatewayState) {
    && v in g && gw.local == v && gw.isTree
    && (forall n, m :: n in gw.neighbors && m in gw.neighbors && n.continuumNbr == m.continuumNbr ==> n == m)
    && NoDup(gw.declared) && (forall n :: n in gw.declared ==> n in gw.neighbors)
    && (forall i, n :: 0 <= i < |gw.petitions| && n in gw.petitions[i].dgs ==> n in gw.neighbors)
    && (forall c :: Declared(gw, c) <==> c in g[v])
  }

  /** An announcement to all continua. */
  predicate ForEveryone(pdu: Pdu) {
    EnvelopeHeader(pdu, ContinuumNbr) == 0 && EnvelopeHeader(pdu, ControlCode) == ANNOUNCE_ON_RECEPTION
  }

  /** Whom an announcement is sent on to by a gateway that has received it. */
  function AnnounceTargets(gw: GatewayState, pdu: Pdu, from: int): seq<int> {
    CopiesTo(gw, AnnounceNodes(gw, EnvelopeHeader(pdu, ContinuumNbr), from), Trimmed(pdu))
  }

  /** Whom a gateway sends an announcement or private message of a local module to. */
  function TargetedStart(gw: GatewayState, pdu: Pdu): seq<int> {
    CopiesTo(gw, TargetedNodes(gw, EnvelopeHeader(pdu, ContinuumNbr), EnvelopeHeader(pdu, ControlCode)), pdu)
  }

  lemma AnnounceTargetsExactly(g: Graph, v: int, gw: GatewayState, pdu: Pdu, from: int)
    requires AtNode(g, v, gw) && ForEveryone(pdu)
    ensures Allowed(g, v, AnnounceTargets(gw, pdu, from)) && Allowed(g, v, TargetedStart(gw, pdu))
    ensures forall c :: c in AnnounceTargets(gw, pdu, from) <==> c in g[v] && c != from
    ensures forall c :: c in TargetedStart(gw, pdu) <==> c in g[v]
  {
    OthersNoDup(gw.declared, from);
    CopiesToNodes(gw, Others(gw.declared, from), Trimmed(pdu));
    CopiesToNodes(gw, gw.declared, pdu);
    forall n | n in gw.declared ensures Declared(gw, n.continuumNbr) {
      var i :| 0 <= i < |gw.declared| && gw.declared[i] == n;
    }
    forall c | c in g[v] ensures exists n :: n in gw.declared && n.continuumNbr == c {
      assert Declared(gw, c);
      var i :| 0 <= i < |gw.declared| && gw.declared[i].continuumNbr == c;
      assert gw.declared[i] in gw.declared;
    }
  }

  ghost predicate Network(g: Graph, gws: map<int, GatewayState>) {
    gws.Keys == g.Keys && forall v {:trigger AtNode(g, v, gws[v])} :: v in g ==> AtNode(g, v, gws[v])
  }

  ghost predicate AnnounceStep(g: Graph, gws: map<int, GatewayState>, pdu: Pdu, s: Flood, t: Flood) {
    exists p :: p in s.inFlight && p.to in gws && t == Delivered(s, p, AnnounceTargets(gws[p.to], pdu, p.from))
  }

  ghost predicate AnnounceRun(g: Graph, gws: map<int, GatewayState>, pdu: Pdu, origin: int, run: seq<Flood>) {
    && run != [] && origin in gws
    && run[0] == Started(origin, TargetedStart(gws[origin], pdu))
    && (forall i :: 0 < i < |run| ==> AnnounceStep(g, gws, pdu, run[i - 1], run[i]))
  }

  /** Everyone who has handled the announcement has sent it to all neighbours but its parent. */
  ghost predicate SentToAll(g: Graph, origin: int, s: Flood)
    requires IsTree(g) && origin in g
  {
    forall v, c :: v in s.sentBy && v in g && c in g[v] && (v == origin || c != Parent(g, origin, v)) ==>
      c in s.sentBy[v]
  }

  lemma AnnounceStepKeeps(g: Graph, gws: map<int, GatewayState>, pdu: Pdu, origin: int, s: Flood, t: Flood)
    requires IsTree(g) && origin in g && Network(g, gws) && ForEveryone(pdu) && FloodInv(g, origin, s)
        && SentToAll(g, origin, s)
    requires AnnounceStep(g, gws, pdu, s, t)
    ensures Steps(g, s, t) && FloodInv(g, origin, t) && SentToAll(g, origin, t)
  {
    hide IsTree, AtNode, AnnounceTargets, Packets, Parent, Due;
    var p :| p in s.inFlight && p.to in gws && t == Delivered(s, p, AnnounceTargets(gws[p.to], pdu, p.from));
    var targets := AnnounceTargets(gws[p.to], pdu, p.from);
    ArrivesOnce(g, origin, s, p);
    AnnounceTargetsExactly(g, p.to, gws[p.to], pdu, p.from);
    assert Step(g, s, t, p, targets);
    StepKeepsInv(g, origin, s, t, p, targets);
  }

  lemma AnnouncementStarts(g: Graph, gws: map<int, GatewayState>, pdu: Pdu, origin: int)
    requires IsTree(g) && Network(g, gws) && ForEveryone(pdu) && origin in gws
    ensures var s := Started(origin, TargetedStart(gws[origin], pdu));
      Allowed(g, origin, TargetedStart(gws[origin], pdu)) && FloodInv(g, origin, s) && SentToAll(g, origin, s)
  {
    hide IsTree, AtNode, FloodInv, TargetedStart, ForEveryone;
    AnnounceTargetsExactly(g, origin, gws[origin], pdu, 0);
    StartedInv(g, origin, TargetedStart(gws[origin], pdu));
  }

  lemma {:induction false} AnnounceRunIsRun(g: Graph, gws: map<int, GatewayState>, pdu: Pdu, origin: int,
      run: seq<Flood>)
    requires IsTree(g) && Network(g, gws) && ForEveryone(pdu) && AnnounceRun(g, gws, pdu, origin, run)
    ensures IsRun(g, origin, run)
    ensures FloodInv(g, origin, run[|run| - 1]) && SentToAll(g, origin, run[|run| - 1])
    decreases |run|
  {
    hide IsTree, FloodInv, AnnounceStep, Steps;
    if |run| == 1 {
      AnnouncementStarts(g, gws, pdu, origin);
    } else {
      hide SentToAll, AtNode;
      var front := run[..|run| - 1];
      AnnounceRunIsRun(g, gws, pdu, origin, front);
      assert AnnounceStep(g, gws, pdu, run[|run| - 2], run[|run| - 1]);
      AnnounceStepKeeps(g, gws, pdu, origin, run[|run| - 2], run[|run| - 1]);
      forall i | 0 < i < |run| ensures Steps(g, run[i - 1], run[i]) {
        if i < |run| - 1 { assert Steps(g, front[i - 1], front[i]); }
      }
    }
  }

  lemma {:induction false} QuietMeansEverywhere(g: Graph, origin: int, s: Flood, v: int)
    requires IsTree(g) && origin in g && v in g && v != origin
    requires FloodInv(g, origin, s) && SentToAll(g, origin, s) && s.inFlight == multiset{}
    ensures s.received[v] == 1
    decreases Depth(g, origin, v)
  {
    var u := Parent(g, origin, v);
    ParentIsCloser(g, origin, v);
    assert s.received[v] == Due(g, origin, s, v);
    if u != origin {
      QuietMeansEverywhere(g, origin, s, u);
      ParentOrChild(g, origin, u, v);
      ParentIsCloser(g, origin, u);
    }
  }

  /** An announcement to all continua, relayed through a tree of gateways in any order of arrival: no
      gateway gets it twice, it never returns to its origin, the relaying ends within one arrival per
      other gateway, and when it ends every other gateway has had the announcement exactly once. */
  lemma AnnouncementReachesEveryoneOnce(g: Graph, gws: map<int, GatewayState>, pdu: Pdu, origin: int,
      run: seq<Flood>, v: int)
    requires IsTree(g) && Network(g, gws) && ForEveryone(pdu) && AnnounceRun(g, gws, pdu, origin, run)
    ensures var s := run[|run| - 1];
      && s.received[v] <= 1
      && s.received[origin] == 0
      && |run| <= |g.Keys|
      && (s.inFlight == multiset{} && v in g && v != origin ==> s.received[v] == 1)
  {
    hide IsTree;
    AnnounceRunIsRun(g, gws, pdu, origin, run);
    AtMostOnceAndTerminates(g, origin, run, v);
    var s := run[|run| - 1];
    if s.inFlight == multiset{} && v in g && v != origin { QuietMeansEverywhere(g, origin, s, v); }
  }

  /** Relaying does not stall: as long as a copy is under way, another arrival extends the run. */
  lemma AnnouncementGoesOn(g: Graph, gws: map<int, GatewayState>, pdu: Pdu, origin: int, run: seq<Flood>)
    requires IsTree(g) && Network(g, gws) && ForEveryone(pdu) && AnnounceRun(g, gws, pdu, origin, run)
    requires run[|run| - 1].inFlight != multiset{}
    ensures exists t :: AnnounceRun(g, gws, pdu, origin, run + [t])
  {
    hide IsTree, AtNode, FloodInv, AnnounceTargets;
    var s := run[|run| - 1];
    AnnounceRunIsRun(g, gws, pdu, origin, run);
    var p :| p in s.inFlight;
    ArrivesOnce(g, origin, s, p);
    var t := Delivered(s, p, AnnounceTargets(gws[p.to], pdu, p.from));
    assert AnnounceStep(g, gws, pdu, s, t);
    RunExtends(g, gws, pdu, origin, run, t);
  }

  lemma RunExtends(g: Graph, gws: map<int, GatewayState>, pdu: Pdu, origin: int, run: seq<Flood>, t: Flood)
    requires AnnounceRun(g, gws, pdu, origin, run) && AnnounceStep(g, gws, pdu, run[|run| - 1], t)
    ensures AnnounceRun(g, gws, pdu, origin, run + [t])
  {
    hide AnnounceStep;
    var longer := run + [t];
    forall i | 0 < i < |longer| ensures AnnounceStep(g, gws, pdu, longer[i - 1], longer[i]) {
      if i < |run| { assert AnnounceStep(g, gws, pdu, run[i - 1], run[i]); }
    }
  }

  // ---------- publications ----------

  /** Whom a publication is sent on to by a gateway that has received it. */
  function PublishTargets(names: UnitNames, gw: GatewayState, pdu: Pdu, from: int): seq<int> {
    CopiesTo(gw, RelayNodes(names, gw.petitions, pdu, from), Trimmed(pdu))
  }

  /** Whom a gateway sends the publication of a local module to. */
  function PublishStart(names: UnitNames, gw: GatewayState, m: AamsMessage, role: int): seq<int>
    requires |m.content| <= MAX_AMS_CONTENT
  {
    CopiesTo(gw, WantedBy(names, gw.petitions, MessageOf(m, role)), PublicationPdu(m, role))
  }

  lemma PublishTargetsAllowed(names: UnitNames, g: Graph, v: int, gw: GatewayState, pdu: Pdu, from: int)
    requires AtNode(g, v, gw)
    ensures Allowed(g, v, PublishTargets(names, gw, pdu, from)) && from !in PublishTargets(names, gw, pdu, from)
  {
    hide ParseMessage, Trimmed, CopiesTo;
    var msg := ParseMessage(pdu);
    if msg.Some? {
      WantedByOthersNodes(names, gw.petitions, msg.value, from);
      assert forall n :: Wants(names, gw.petitions, msg.value, n) ==> n in gw.neighbors;
    }
    CopiesToNodes(gw, RelayNodes(names, gw.petitions, pdu, from), Trimmed(pdu));
  }

  lemma PublishStartAllowed(names: UnitNames, g: Graph, v: int, gw: GatewayState, m: AamsMessage, role: int)
    requires AtNode(g, v, gw) && |m.content| <= MAX_AMS_CONTENT
    ensures v in g && Allowed(g, v, PublishStart(names, gw, m, role))
  {
    hide CopiesTo, PublicationPdu;
    var msg := MessageOf(m, role);
    WantedByNodes(names, gw.petitions, msg);
    assert forall n :: Wants(names, gw.petitions, msg, n) ==> n in gw.neighbors;
    CopiesToNodes(gw, WantedBy(names, gw.petitions, msg), PublicationPdu(m, role));
  }

  /** One arrival at a gateway in whatever state it then is, with whatever unit hierarchy it knows, as long as it
      is the gateway at its node. */
  ghost predicate PublishStep(g: Graph, pdu: Pdu, s: Flood, t: Flood) {
    exists p, gw, names ::
      p in s.inFlight && AtNode(g, p.to, gw) && t == Delivered(s, p, PublishTargets(names, gw, pdu, p.from))
  }

  ghost predicate PublishRun(g: Graph, m: AamsMessage, role: int, origin: int, run: seq<Flood>) {
    && run != [] && |m.content| <= MAX_AMS_CONTENT
    && (exists gw, names :: AtNode(g, origin, gw) && run[0] == Started(origin, PublishStart(names, gw, m, role)))
    && (forall i :: 0 < i < |run| ==> PublishStep(g, PublicationPdu(m, role), run[i - 1], run[i]))
  }

  lemma IsAStep(g: Graph, s: Flood, t: Flood, p: Packet, targets: seq<int>)
    requires p in s.inFlight && Allowed(g, p.to, targets) && p.from !in targets && t == Delivered(s, p, targets)
    ensures Steps(g, s, t)
  {
    assert Step(g, s, t, p, targets);
  }

  /** A publication relayed through a tree, whatever the petition sets of the gateways hold and however
      they change while it is under way: no gateway gets it twice, it never returns to its origin, and
      relaying ends. When it has ended, a gateway has it iff its parent sent it there. */
  lemma PublicationArrivesAtMostOnce(g: Graph, m: AamsMessage, role: int, origin: int, run: seq<Flood>, v: int)
    requires IsTree(g) && PublishRun(g, m, role, origin, run)
    ensures origin in g
    ensures var s := run[|run| - 1];
      && s.received[v] <= 1
      && s.received[origin] == 0
      && |run| <= |g.Keys|
      && (s.inFlight == multiset{} && v in g && v != origin ==>
            var u := Parent(g, origin, v);
            s.received[v] == if u in s.sentBy && v in s.sentBy[u] then 1 else 0)
  {
    hide IsTree, AtNode, PublishStart, PublishTargets, Steps, Delivered, Allowed, PublicationPdu;
    var gw, names :| AtNode(g, origin, gw) && run[0] == Started(origin, PublishStart(names, gw, m, role));
    PublishStartAllowed(names, g, origin, gw, m, role);
    forall i | 0 < i < |run| ensures Steps(g, run[i - 1], run[i]) {
      assert PublishStep(g, PublicationPdu(m, role), run[i - 1], run[i]);
      var p, at, known :| p in run[i - 1].inFlight && AtNode(g, p.to, at)
        && run[i] == Delivered(run[i - 1], p, PublishTargets(known, at, PublicationPdu(m, role), p.from));
      PublishTargetsAllowed(known, g, p.to, at, PublicationPdu(m, role), p.from);
      IsAStep(g, run[i - 1], run[i], p, PublishTargets(known, at, PublicationPdu(m, role), p.from));
    }
    AtMostOnceAndTerminates(g, origin, run, v);
    if run[|run| - 1].inFlight == multiset{} && v in g && v != origin { ExactlyWhereSent(g, origin, run, v); }
  }
}
