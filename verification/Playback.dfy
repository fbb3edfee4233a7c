/** Replaying the petition log after a restart rebuilds what the neighbours have asked for. */
module Playback {
  import opened Envelope
  import opened Lists
  import opened Options
  import opened Petitions
  import opened PetitionLaws

  /** States that agree on who has declared itself and on every DGS. */
  ghost predicate SameDgss(g: GatewayState, h: GatewayState) {
    g.neighbors == h.neighbors && g.declared == h.declared && forall k :: DgsOf(g, k) == DgsOf(h, k)
  }

  /** States that agree on who has declared itself and on the DGS of every representable key. */
  ghost predicate SameInterest(g: GatewayState, h: GatewayState) {
    && g.neighbors == h.neighbors && g.declared == h.declared
    && forall k :: Representable(k) ==> DgsOf(g, k) == DgsOf(h, k)
  }

  /** The DGS of key k becomes dgs and nothing else that SameDgss looks at changes. */
  ghost predicate DgsBecomes(g: GatewayState, h: GatewayState, k: Key, dgs: seq<RamsNode>) {
    && g.neighbors == h.neighbors && g.declared == h.declared
    && DgsOf(h, k) == dgs
    && (forall other :: other != k ==> DgsOf(h, other) == DgsOf(g, other))
  }

  lemma {:induction false} SameKeysSamePlaces(a: seq<PetitionState>, b: seq<PetitionState>, k: Key)
    requires |a| == |b| && forall i :: 0 <= i < |a| ==> a[i].key == b[i].key
    ensures FindPetition(a, k) == FindPetition(b, k)
  {
    var i, j := FindPetition(a, k), FindPetition(b, k);
  }

  lemma SetDgs(g: GatewayState, i: nat, p: PetitionState)
    requires i < |g.petitions| && p.key == g.petitions[i].key && i == FindPetition(g.petitions, p.key)
    ensures DgsBecomes(g, SetPetition(g, i, p), p.key, p.dgs)
  {
    var h := SetPetition(g, i, p);
    forall k ensures FindPetition(h.petitions, k) == FindPetition(g.petitions, k) {
      SameKeysSamePlaces(h.petitions, g.petitions, k);
    }
  }

  lemma NewPetitionElsewhere(g: GatewayState, p: PetitionState)
    ensures var h := g.(petitions := g.petitions + [p]);
      forall k :: k != p.key ==> DgsOf(h, k) == DgsOf(g, k)
  {
    var h := g.(petitions := g.petitions + [p]);
    forall k | k != p.key ensures DgsOf(h, k) == DgsOf(g, k) {
      var i, j := FindPetition(g.petitions, k), FindPetition(h.petitions, k);
      if i < |g.petitions| { assert h.petitions[i].key == k; }
      if j < |g.petitions| { assert g.petitions[j].key == k; }
    }
  }

  lemma NewDgs(g: GatewayState, p: PetitionState)
    requires FindPetition(g.petitions, p.key) == |g.petitions|
    ensures DgsBecomes(g, g.(petitions := g.petitions + [p]), p.key, p.dgs)
  {
    var h := g.(petitions := g.petitions + [p]);
    NewPetitionElsewhere(g, p);
    assert h.petitions[|g.petitions|].key == p.key;
  }

  /** SGS updates and sends do not touch interest. */
  lemma OnlySgssSameDgss(g: GatewayState, h: GatewayState)
    requires OnlySgss(g, h)
    ensures SameDgss(g, h)
  {
    forall k { SameKeysSamePlaces(g.petitions, h.petitions, k); }
  }

  /** The node joins the DGS of a key that is representable or has a petition already; a petition created for
      another key touches no representable one. */
  lemma NotedInterest(g: GatewayState, from: RamsNode, k: Key, playback: bool)
    requires Occurs(k)
    ensures Representable(k) || FindPetition(g.petitions, k) < |g.petitions| ==>
      DgsBecomes(g, NoteAssertion(g, from, k, playback), k, DgsOf(g, k) + [from])
    ensures !Representable(k) ==> SameInterest(g, NoteAssertion(g, from, k, playback))
  {
    hide ReadBack, Representable, Occurs;
    var i, noted := FindPetition(g.petitions, k), NoteAssertion(g, from, k, playback);
    ReadBackKeepsApart(k);
    if i < |g.petitions| {
      SetDgs(g, i, noted.petitions[i]);
    } else {
      if Representable(k) { NewDgs(g, noted.petitions[i]); } else { NewPetitionElsewhere(g, noted.petitions[i]); }
    }
  }

  lemma UnconfirmedAssertionInterest(g: GatewayState, from: RamsNode, k: Key, playback: bool)
    requires Occurs(k) && !ConfirmsPlayback(g, from, k)
    ensures Representable(k) ==>
      DgsBecomes(g, HandlePetitionAssertion(g, from, k, playback).gw, k, DgsOf(g, k) + [from])
    ensures !Representable(k) ==> SameInterest(g, HandlePetitionAssertion(g, from, k, playback).gw)
  {
    hide ReadBack, Representable, Occurs, Establish, AssertPetition, NoteAssertion, FindPetition, ConfirmsPlayback;
    var i, noted := FindPetition(g.petitions, k), NoteAssertion(g, from, k, playback);
    NotedInterest(g, from, k, playback);
    EstablishChangesSgss(noted, from, i, 0);
    var s := if k.subjectNbr < 0 then Establish(noted, from, i, 0) else Step(noted, true);
    var h := AssertPetition(s.gw, i).gw;
    OnlySgssSameDgss(noted, s.gw);
    OnlySgssSameDgss(s.gw, h);
    hide DgsOf;
    assert SameDgss(noted, h);
  }

  lemma AssertionInterest(g: GatewayState, from: RamsNode, k: Key, playback: bool)
    requires Occurs(k) && (Representable(k) ==> from !in DgsOf(g, k))
    ensures Representable(k) ==>
      DgsBecomes(g, HandlePetitionAssertion(g, from, k, playback).gw, k, DgsOf(g, k) + [from])
    ensures !Representable(k) ==> SameInterest(g, HandlePetitionAssertion(g, from, k, playback).gw)
    ensures playback ==> HandlePetitionAssertion(g, from, k, playback).ok
  {
    hide ReadBack, Representable, Occurs, Establish, AssertPetition, NoteAssertion;
    if ConfirmsPlayback(g, from, k) {
      var i := FindPetition(g.petitions, k);
      SetDgs(g, i, g.petitions[i].(fromPlayback := playback));
    } else {
      UnconfirmedAssertionInterest(g, from, k, playback);
    }
  }

  lemma CancellationInterest(g: GatewayState, from: RamsNode, k: Key, playback: bool)
    requires k.subjectNbr == 0 - from.continuumNbr ==> playback || from !in DgsOf(g, k)
    ensures DgsBecomes(g, HandlePetitionCancellation(g, from, k, playback).gw, k, RemoveFirst(DgsOf(g, k), from))
    ensures playback ==> HandlePetitionCancellation(g, from, k, playback).ok
  {
    var i := FindPetition(g.petitions, k);
    if i < |g.petitions| && from in g.petitions[i].dgs {
      var p := g.petitions[i].(dgs := RemoveFirst(g.petitions[i].dgs, from), fromPlayback := playback);
      var h := SetPetition(g, i, p);
      SetDgs(g, i, p);
      OnlySgssSameDgss(h, CancelPetition(h, i).gw);
    }
  }

  lemma AddPetitionerInterest(g: GatewayState, m: ModuleId, k: Key)
    requires Occurs(k)
    ensures SameInterest(g, AddPetitioner(g, m, k).gw) && AddPetitioner(g, m, k).gw.log == g.log
  {
    hide ReadBack, Representable, Occurs, AssertPetition;
    var i := FindPetition(g.petitions, k);
    ReadBackKeepsApart(k);
    if i == |g.petitions| {
      var p := PetitionState(ReadBack(k), [m], [], [], false);
      if Representable(k) { NewDgs(g, p); } else { NewPetitionElsewhere(g, p); }
      OnlySgssSameDgss(g.(petitions := g.petitions + [p]), AddPetitioner(g, m, k).gw);
    } else if m !in g.petitions[i].dms {
      var p := g.petitions[i].(dms := g.petitions[i].dms + [m], fromPlayback := false);
      SetDgs(g, i, p);
      OnlySgssSameDgss(SetPetition(g, i, p), AddPetitioner(g, m, k).gw);
    }
  }

  lemma RemovePetitionerInterest(g: GatewayState, m: ModuleId, k: Key)
    ensures SameInterest(g, RemovePetitioner(g, m, k).gw) && RemovePetitioner(g, m, k).gw.log == g.log
  {
    hide CancelPetition, RemoveFirst;
    var i := FindPetition(g.petitions, k);
    if i < |g.petitions| {
      var p := g.petitions[i].(dms := RemoveFirst(g.petitions[i].dms, m));
      SetDgs(g, i, p);
      OnlySgssSameDgss(SetPetition(g, i, p), RemovePetitioner(g, m, k).gw);
    }
  }

  lemma SubscriptionInterest(g: GatewayState, e: Event)
    requires !e.Receive? && Occurs(e.key)
    ensures SameInterest(g, Apply(g, e).gw) && Apply(g, e).gw.log == g.log
  {
    hide AddPetitioner, RemovePetitioner, FindPetition;
    if e.Subscribe? { AddPetitionerInterest(g, e.m, e.key); } else { RemovePetitionerInterest(g, e.m, e.key); }
  }

  // ---------- the law ----------

  /** The live gateway acts on this RPDU: it is logged. */
  predicate Accepted(g: GatewayState, from: RamsNode, cc: int, k: Key) {
    || cc == PETITION_CANCELLATION
    || (cc == PETITION_ASSERTION && (k.subjectNbr == 0 - from.continuumNbr || Declared(g, from.continuumNbr)))
  }

  /** The event is neither a neighbour's reassertion of a petition that it still holds, under a representable key,
      nor its retraction. */
  predicate Tame(g: GatewayState, e: Event) {
    && (e.Receive? && e.cc == PETITION_ASSERTION && Accepted(g, e.from, e.cc, e.key) && Representable(e.key) ==>
          e.from !in DgsOf(g, e.key))
    && NoRetraction(g, e)
  }

  /** A key that occurs, and RPDUs come from the neighbour that their sender's endpoint ID identifies. */
  predicate Identified(g: GatewayState, e: Event) {
    Occurs(e.key) && (e.Receive? ==> LookUpNeighbor(g.neighbors, e.from.gwEid) == Some(e.from))
  }

  ghost predicate TameRun(g: GatewayState, events: seq<Event>)
    decreases |events|
  {
    events == [] ||
    var front, e := events[..|events| - 1], events[|events| - 1];
    TameRun(g, front) && Identified(g, e) && Tame(Run(g, front).gw, e)
  }

  /** One petition RPDU as both sides handle it, up to who has declared itself. */
  lemma HandledAlike(live: GatewayState, replay: GatewayState, from: RamsNode, cc: int, k: Key)
    requires SameInterest(live, replay) && Occurs(k)
    requires cc == PETITION_ASSERTION && Representable(k) ==> from !in DgsOf(live, k)
    requires cc == PETITION_CANCELLATION && k.subjectNbr == 0 - from.continuumNbr ==> from !in DgsOf(live, k)
    ensures cc == PETITION_ASSERTION ==>
      && HandlePetitionAssertion(replay, from, k, true).ok
      && SameInterest(HandlePetitionAssertion(live, from, k, false).gw,
          HandlePetitionAssertion(replay, from, k, true).gw)
    ensures cc == PETITION_CANCELLATION ==>
      && HandlePetitionCancellation(replay, from, k, true).ok
      && SameInterest(HandlePetitionCancellation(live, from, k, false).gw,
                      HandlePetitionCancellation(replay, from, k, true).gw)
  {
    hide HandlePetitionAssertion, HandlePetitionCancellation, Representable, Occurs, DgsOf;
    if cc == PETITION_ASSERTION {
      AssertionInterest(live, from, k, false);
      AssertionInterest(replay, from, k, true);
    } else if cc == PETITION_CANCELLATION {
      CancellationInterest(live, from, k, false);
      CancellationInterest(replay, from, k, true);
    }
  }

  /** One RPDU, live and replayed. */
  lemma RehandledAlike(live: GatewayState, replay: GatewayState, from: RamsNode, cc: int, k: Key)
    requires SameInterest(live, replay) && Occurs(k)
    requires LookUpNeighbor(live.neighbors, from.gwEid) == Some(from)
    requires Tame(live, Receive(from, cc, k)) && Accepted(live, from, cc, k)
    requires HandlePetitionRpdu(live, from, cc, k).ok
    ensures var h := HandlePetitionRpdu(live, from, cc, k).gw;
      var line := LogLine(from.protocol, from.gwEid, cc, k);
      RehandlePetition(replay, line).ok && SameInterest(h, RehandlePetition(replay, line).gw)
  {
    hide HandlePetitionAssertion, HandlePetitionCancellation, FindPetition, Representable, Occurs;
    if cc == PETITION_CANCELLATION {
      LogUntouched(live, from, cc, k);
      HandledAlike(live, replay, from, cc, k);
    } else {
      var declares := k.subjectNbr == 0 - from.continuumNbr;
      var g := if declares then NoteDeclaration(live, from) else live;
      var r := if declares then NoteDeclaration(replay, from) else replay;
      SameDeclared(live, replay);
      assert SameInterest(g, r) by {
        forall other | Representable(other) ensures DgsOf(g, other) == DgsOf(r, other) {
          assert DgsOf(live, other) == DgsOf(replay, other);
        }
      }
      LogUntouched(g, from, cc, k);
      HandledAlike(g, r, from, cc, k);
    }
  }

  lemma LogUntouched(g: GatewayState, from: RamsNode, cc: int, k: Key)
    ensures HandlePetitionAssertion(g, from, k, false).gw.log == g.log
    ensures HandlePetitionCancellation(g, from, k, false).gw.log == g.log
  {
    var i := FindPetition(g.petitions, k);
    EstablishChangesSgss(NoteAssertion(g, from, k, false), from, i, 0);
    if i < |g.petitions| {
      RetractKeepsLog(SetPetition(g, i, g.petitions[i].(dgs := RemoveFirst(g.petitions[i].dgs, from),
                                                        fromPlayback := false)), from, 0);
    }
  }

  lemma {:induction false} RetractKeepsLog(g: GatewayState, from: RamsNode, j: nat)
    requires j <= |g.petitions|
    ensures Retract(g, from, j).gw.log == g.log
    decreases |g.petitions| - j
  {
    if j < |g.petitions| && RetractOne(g, from, j).ok {
      RetractKeepsLog(RetractOne(g, from, j).gw, from, j + 1);
    }
  }

  /** What is accepted and succeeds is logged, and nothing else. */
  lemma LoggedIffAccepted(g: GatewayState, from: RamsNode, cc: int, k: Key)
    requires HandlePetitionRpdu(g, from, cc, k).ok
    ensures HandlePetitionRpdu(g, from, cc, k).gw.log
         == g.log + if Accepted(g, from, cc, k) then [LogLine(from.protocol, from.gwEid, cc, k)] else []
    ensures !Accepted(g, from, cc, k) ==> HandlePetitionRpdu(g, from, cc, k).gw == g
  {
    hide HandlePetitionAssertion, HandlePetitionCancellation;
    LogUntouched(g, from, cc, k);
    LogUntouched(NoteDeclaration(g, from), from, cc, k);
  }

  lemma {:induction false} PlaybackAppend(g: GatewayState, lines: seq<LogLine>, line: LogLine)
    requires PlaybackPetitionLog(g, lines).ok
    ensures PlaybackPetitionLog(g, lines + [line]) == RehandlePetition(PlaybackPetitionLog(g, lines).gw, line)
    decreases |lines|
  {
    if lines == [] {
      assert [line][1..] == [];
    } else {
      assert (lines + [line])[1..] == lines[1..] + [line];
      PlaybackAppend(RehandlePetition(g, lines[0]).gw, lines[1..], line);
    }
  }

  lemma {:induction false} PlaybackFollowsRun(g: GatewayState, events: seq<Event>)
    requires g.log == [] && TameRun(g, events) && Run(g, events).ok
    ensures var live := Run(g, events).gw;
      && live.neighbors == g.neighbors
      && PlaybackPetitionLog(g, live.log).ok
      && SameInterest(live, PlaybackPetitionLog(g, live.log).gw)
  {
    if events != [] {
      var front, e := events[..|events| - 1], events[|events| - 1];
      PlaybackFollowsRun(g, front);
      PlaybackFollowsEvent(g, Run(g, front).gw, e);
    }
  }

  lemma PlaybackFollowsEvent(g: GatewayState, before: GatewayState, e: Event)
    requires before.neighbors == g.neighbors
    requires PlaybackPetitionLog(g, before.log).ok && SameInterest(before, PlaybackPetitionLog(g, before.log).gw)
    requires Identified(g, e) && Tame(before, e) && Apply(before, e).ok
    ensures var live := Apply(before, e).gw;
      && live.neighbors == g.neighbors
      && PlaybackPetitionLog(g, live.log).ok
      && SameInterest(live, PlaybackPetitionLog(g, live.log).gw)
  {
    hide PlaybackPetitionLog, RehandlePetition, AddPetitioner, RemovePetitioner, HandlePetitionRpdu, Representable;
    hide Occurs, DgsOf, Accepted;
    var replay := PlaybackPetitionLog(g, before.log).gw;
    ApplyKeepsKeys(before, e);
    if !e.Receive? {
      SubscriptionInterest(before, e);
    } else {
      LoggedIffAccepted(before, e.from, e.cc, e.key);
      assert before.log + [] == before.log;
      if Accepted(before, e.from, e.cc, e.key) {
        RehandledAlike(before, replay, e.from, e.cc, e.key);
        PlaybackAppend(g, before.log, LogLine(e.from.protocol, e.from.gwEid, e.cc, e.key));
      }
    }
  }

  /** For a run in which no neighbour retracts itself or reasserts a petition it still holds, playing the log
      back into a restarted gateway succeeds and rebuilds the declared neighbours and, for every representable
      key, the DGS of the live gateway. The run may contain any other keys. */
  lemma PlaybackRebuilds(local: int, self: ModuleId, isTree: bool, neighbors: seq<RamsNode>, events: seq<Event>)
    requires var g := Startup(local, self, isTree, neighbors); TameRun(g, events) && Run(g, events).ok
    ensures var g := Startup(local, self, isTree, neighbors);
      var live, replay := Run(g, events).gw, PlaybackPetitionLog(g, Run(g, events).gw.log);
      && replay.ok
      && replay.gw.declared == live.declared
      && forall k :: Representable(k) ==> DgsOf(replay.gw, k) == DgsOf(live, k)
  {
    PlaybackFollowsRun(Startup(local, self, isTree, neighbors), events);
  }

  // ---------- the restriction to tame runs is exact ----------

  /** Replayed state: every petition somebody has asked for is marked as played back. */
  ghost predicate PlayedBack(g: GatewayState) {
    forall i :: 0 <= i < |g.petitions| && g.petitions[i].dgs != [] ==> g.petitions[i].fromPlayback
  }

  lemma HandlingKeepsPlayedBack(g: GatewayState, from: RamsNode, k: Key)
    requires PlayedBack(g)
    ensures PlayedBack(HandlePetitionAssertion(g, from, k, true).gw)
    ensures PlayedBack(HandlePetitionCancellation(g, from, k, true).gw)
  {
    hide Retract, CancelPetition, Establish, AssertPetition, ReadBack, RemoveFirst;
  }

  lemma RehandlingKeepsPlayedBack(g: GatewayState, line: LogLine)
    requires PlayedBack(g)
    ensures PlayedBack(RehandlePetition(g, line).gw)
  {
    hide HandlePetitionAssertion, HandlePetitionCancellation;
    var found := LookUpNeighbor(g.neighbors, line.gwEid);
    if found.Some? {
      HandlingKeepsPlayedBack(g, found.value, line.key);
      HandlingKeepsPlayedBack(NoteDeclaration(g, found.value), found.value, line.key);
    }
  }

  lemma {:induction false} ReplayIsPlayedBack(g: GatewayState, lines: seq<LogLine>)
    requires PlayedBack(g)
    ensures PlayedBack(PlaybackPetitionLog(g, lines).gw)
    decreases |lines|
  {
    if lines != [] {
      RehandlingKeepsPlayedBack(g, lines[0]);
      if RehandlePetition(g, lines[0]).ok { ReplayIsPlayedBack(RehandlePetition(g, lines[0]).gw, lines[1..]); }
    }
  }

  lemma {:induction false} LookedUpIsNeighbor(nodes: seq<RamsNode>, gwEid: string)
    ensures LookUpNeighbor(nodes, gwEid).Some? ==> LookUpNeighbor(nodes, gwEid).value in nodes
  {
    if nodes != [] { LookedUpIsNeighbor(nodes[1..], gwEid); }
  }

  lemma {:induction false} FirstOfThatName(nodes: seq<RamsNode>, i: nat)
    requires i < |nodes| && forall j :: 0 <= j < i ==> nodes[j].gwEid != nodes[i].gwEid
    ensures LookUpNeighbor(nodes, nodes[i].gwEid) == Some(nodes[i])
  {
    if i > 0 { FirstOfThatName(nodes[1..], i - 1); }
  }

  /** A logged line can be replayed iff it names an expected neighbour and is a cancellation, an assertion of a
      neighbour declared by then, or a neighbour's declaration. Nothing is sent or logged. */
  lemma LineIsReplayedIff(g: GatewayState, line: LogLine, i: nat)
    requires i < |g.neighbors| && g.neighbors[i].gwEid == line.gwEid
    requires forall j :: 0 <= j < i ==> g.neighbors[j].gwEid != line.gwEid
    ensures var s, c := RehandlePetition(g, line), g.neighbors[i].continuumNbr;
      && (s.ok <==>
            || line.cc == PETITION_CANCELLATION
            || (line.cc == PETITION_ASSERTION
                && (line.key.subjectNbr == 0 - c || exists n :: n in g.declared && n.continuumNbr == c)))
      && (!s.ok ==> s.gw == g)
      && s.gw.sent == g.sent && s.gw.log == g.log
      && s.gw.declared == if line.cc == PETITION_ASSERTION && line.key.subjectNbr == 0 - c
                             && (forall n :: n in g.declared ==> n.continuumNbr != c)
                          then g.declared + [g.neighbors[i]] else g.declared
  {
    FirstOfThatName(g.neighbors, i);
    hide LookUpNeighbor;
  }

  lemma {:induction false} NobodyOfThatName(nodes: seq<RamsNode>, gwEid: string)
    requires forall n :: n in nodes ==> n.gwEid != gwEid
    ensures LookUpNeighbor(nodes, gwEid) == None
  {
    if nodes != [] { NobodyOfThatName(nodes[1..], gwEid); }
  }

  /** A line from anybody else stops the replay. */
  lemma LineOfStranger(g: GatewayState, line: LogLine)
    requires forall n :: n in g.neighbors ==> n.gwEid != line.gwEid
    ensures RehandlePetition(g, line) == Step(g, false)
  {
    NobodyOfThatName(g.neighbors, line.gwEid);
  }

  /** The replay stops at the first line that cannot be replayed, in the state reached. */
  lemma {:induction false} ReplayStopsAtFailure(g: GatewayState, lines: seq<LogLine>, line: LogLine, rest: seq<LogLine>)
    requires PlaybackPetitionLog(g, lines).ok && !RehandlePetition(PlaybackPetitionLog(g, lines).gw, line).ok
    ensures PlaybackPetitionLog(g, lines + [line] + rest)
         == RehandlePetition(PlaybackPetitionLog(g, lines).gw, line)
    decreases |lines|
  {
    hide RehandlePetition;
    var all := lines + [line] + rest;
    if lines == [] {
      assert all[0] == line;
    } else {
      assert all[0] == lines[0] && all[1..] == lines[1..] + [line] + rest;
      ReplayStopsAtFailure(RehandlePetition(g, lines[0]).gw, lines[1..], line, rest);
    }
  }

  lemma {:induction false} TameIsAdmissible(g: GatewayState, events: seq<Event>)
    requires TameRun(g, events)
    ensures AllAdmissible(g, events)
  {
    if events != [] {
      var front, e := events[..|events| - 1], events[|events| - 1];
      TameIsAdmissible(g, front);
      if e.Receive? { LookedUpIsNeighbor(g.neighbors, e.from.gwEid); }
      forall other | other in events ensures Admissible(g, other) {
        assert other in front || other == e;
      }
    }
  }

  /** Only declared neighbours are listed. */
  ghost predicate ListedAreDeclared(g: GatewayState) {
    forall i, n :: 0 <= i < |g.petitions| && n in g.petitions[i].dgs ==> n in g.declared
  }

  lemma AssertionKeepsListed(g: GatewayState, from: RamsNode, k: Key)
    requires ListedAreDeclared(g) && from in g.declared
    ensures ListedAreDeclared(HandlePetitionAssertion(g, from, k, false).gw)
  {
    hide Establish, AssertPetition, ReadBack;
    var i, noted := FindPetition(g.petitions, k), NoteAssertion(g, from, k, false);
    EstablishChangesSgss(noted, from, i, 0);
    assert ListedAreDeclared(noted);
  }

  lemma TameKeepsListed(g: GatewayState, e: Event)
    requires Inv(g) && ListedAreDeclared(g) && Tame(g, e) && Admissible(g, e)
    ensures ListedAreDeclared(Apply(g, e).gw)
  {
    hide Establish, AssertPetition, CancelPetition, HandlePetitionAssertion, ReadBack, Representable, LogInv,
        AllSettled;
    if e.Receive? && e.cc == PETITION_ASSERTION && Accepted(g, e.from, e.cc, e.key) {
      var d := if e.key.subjectNbr == 0 - e.from.continuumNbr then NoteDeclaration(g, e.from) else g;
      DeclaredNode(g, d, e.from);
      AssertionKeepsListed(d, e.from, e.key);
    } else if e.Receive? && e.cc == PETITION_CANCELLATION {
      var i := FindPetition(g.petitions, e.key);
      assert i < |g.petitions| && e.from in g.petitions[i].dgs ==> e.key.subjectNbr != 0 - e.from.continuumNbr;
    }
  }

  lemma DeclaredNode(g: GatewayState, h: GatewayState, from: RamsNode)
    requires Inv(g) && from in g.neighbors
    requires h == NoteDeclaration(g, from) || (h == g && Declared(g, from.continuumNbr))
    ensures from in h.declared
  {
    if Declared(g, from.continuumNbr) {
      var i :| 0 <= i < |g.declared| && g.declared[i].continuumNbr == from.continuumNbr;
      assert g.declared[i] in g.declared;
    }
  }

  lemma {:induction false} TameRunInv(g: GatewayState, events: seq<Event>)
    requires Inv(g) && ListedAreDeclared(g) && TameRun(g, events) && Run(g, events).ok
    ensures var live := Run(g, events).gw; Inv(live) && ListedAreDeclared(live) && live.neighbors == g.neighbors
  {
    hide Inv, Apply, Tame;
    TameIsAdmissible(g, events);
    RunKeepsInv(g, events);
    if events != [] {
      var front, e := events[..|events| - 1], events[|events| - 1];
      TameRunInv(g, front);
      assert e in events;
      TameKeepsListed(Run(g, front).gw, e);
    }
  }

  lemma {:induction false} RetractUndeclares(g: GatewayState, from: RamsNode, j: nat)
    requires j <= |g.petitions| && Retract(g, from, j).ok
    ensures Retract(g, from, j).gw.declared == RemoveFirst(g.declared, from)
    decreases |g.petitions| - j
  {
    if j < |g.petitions| {
      RetractUndeclares(RetractOne(g, from, j).gw, from, j + 1);
    }
  }

  /** The live gateway, in which nothing is played back, lists whoever asserts a petition that is there. */
  lemma LiveInterest(live: GatewayState, from: RamsNode, k: Key)
    requires NothingPlayedBack(live) && FindPetition(live.petitions, k) < |live.petitions|
    ensures DgsOf(HandlePetitionAssertion(live, from, k, false).gw, k) == DgsOf(live, k) + [from]
  {
    var i, noted := FindPetition(live.petitions, k), NoteAssertion(live, from, k, false);
    SetDgs(live, i, noted.petitions[i]);
    EstablishChangesSgss(noted, from, i, 0);
    var s := if k.subjectNbr < 0 then Establish(noted, from, i, 0) else Step(noted, true);
    OnlySgssSameDgss(noted, s.gw);
    OnlySgssSameDgss(s.gw, AssertPetition(s.gw, i).gw);
  }

  /** Played back, a reassertion of a held petition is ignored, though the live gateway lists the node again. */
  lemma ReassertionDiverges(live: GatewayState, replay: GatewayState, from: RamsNode, k: Key)
    requires SameInterest(live, replay) && NothingPlayedBack(live) && PlayedBack(replay)
    requires Representable(k) && from in DgsOf(live, k) && Accepted(live, from, PETITION_ASSERTION, k)
    requires HandlePetitionRpdu(live, from, PETITION_ASSERTION, k).ok
    requires LookUpNeighbor(live.neighbors, from.gwEid) == Some(from)
    ensures !SameInterest(HandlePetitionRpdu(live, from, PETITION_ASSERTION, k).gw,
                          RehandlePetition(replay, LogLine(from.protocol, from.gwEid, PETITION_ASSERTION, k)).gw)
  {
    hide Establish, AssertPetition, Representable;
    var i := FindPetition(replay.petitions, k);
    assert from in DgsOf(replay, k);
    var d := if k.subjectNbr == 0 - from.continuumNbr then NoteDeclaration(live, from) else live;
    LiveInterest(d, from, k);
    assert ConfirmsPlayback(replay, from, k);
    var r := if k.subjectNbr == 0 - from.continuumNbr then NoteDeclaration(replay, from) else replay;
    SetDgs(r, i, r.petitions[i].(fromPlayback := true));
    SameDeclared(live, replay);
    assert DgsOf(HandlePetitionRpdu(live, from, PETITION_ASSERTION, k).gw, k) == DgsOf(live, k) + [from];
  }

  /** Played back, a retraction undeclares nobody. */
  lemma RetractionDiverges(live: GatewayState, replay: GatewayState, from: RamsNode, k: Key)
    requires SameInterest(live, replay) && from in DgsOf(live, k) && from in live.declared
    requires k.subjectNbr == 0 - from.continuumNbr
    requires HandlePetitionRpdu(live, from, PETITION_CANCELLATION, k).ok
    requires LookUpNeighbor(live.neighbors, from.gwEid) == Some(from)
    ensures !SameInterest(HandlePetitionRpdu(live, from, PETITION_CANCELLATION, k).gw,
                          RehandlePetition(replay, LogLine(from.protocol, from.gwEid, PETITION_CANCELLATION, k)).gw)
  {
    var l := FindPetition(live.petitions, k);
    var p := live.petitions[l].(dgs := RemoveFirst(live.petitions[l].dgs, from), fromPlayback := false);
    RetractUndeclares(SetPetition(live, l, p), from, 0);
    assert |HandlePetitionRpdu(live, from, PETITION_CANCELLATION, k).gw.declared| == |live.declared| - 1;
  }

  /** After a tame run, one more event leaves the log such that replaying it agrees with the live gateway iff
      that event is tame too. */
  lemma ReplayAgreesIff(local: int, self: ModuleId, isTree: bool, neighbors: seq<RamsNode>, events: seq<Event>,
                        e: Event)
    requires GoodNeighbors(local, neighbors)
    requires var g := Startup(local, self, isTree, neighbors);
      TameRun(g, events) && Identified(g, e) && Run(g, events).ok && Apply(Run(g, events).gw, e).ok
    ensures var g := Startup(local, self, isTree, neighbors);
      var before := Run(g, events).gw;
      var live := Apply(before, e).gw;
      var replay := PlaybackPetitionLog(g, live.log);
      Tame(before, e) <==> replay.ok && SameInterest(live, replay.gw)
  {
    hide PlaybackPetitionLog, RehandlePetition, HandlePetitionRpdu, Inv, Representable, DgsOf;
    var g := Startup(local, self, isTree, neighbors);
    var before := Run(g, events).gw;
    PlaybackFollowsRun(g, events);
    if Tame(before, e) {
      PlaybackFollowsEvent(g, before, e);
    } else {
      StartupInv(local, self, isTree, neighbors);
      TameRunInv(g, events);
      InvNothingPlayedBack(before);
      ReplayIsPlayedBack(g, before.log);
      var replay, k := PlaybackPetitionLog(g, before.log).gw, e.key;
      LoggedIffAccepted(before, e.from, e.cc, k);
      PlaybackAppend(g, before.log, LogLine(e.from.protocol, e.from.gwEid, e.cc, k));
      if e.cc == PETITION_ASSERTION {
        ReassertionDiverges(before, replay, e.from, k);
      } else {
        ListedNode(before, e.from, k);
        RetractionDiverges(before, replay, e.from, k);
      }
    }
  }

  lemma InvNothingPlayedBack(g: GatewayState)
    requires Inv(g)
    ensures NothingPlayedBack(g)
  {
  }

  lemma ListedNode(g: GatewayState, n: RamsNode, k: Key)
    requires ListedAreDeclared(g) && n in DgsOf(g, k)
    ensures n in g.declared
  {
  }

  // ---------- why the law is about representable keys ----------

  /** Only pseudo-subjects are petitioned for. */
  ghost predicate OnlyPseudo(g: GatewayState) {
    forall i :: 0 <= i < |g.petitions| ==> g.petitions[i].key.subjectNbr < 0
  }

  /** Declarations name pseudo-subjects. */
  lemma DeclarationStaysPseudo(g: GatewayState, x: RamsNode, playback: bool)
    requires OnlyPseudo(g) && 0 < x.continuumNbr < 0x8000
    ensures OnlyPseudo(HandlePetitionAssertion(NoteDeclaration(g, x), x, DeclarationKey(x.continuumNbr), playback).gw)
  {
    hide ReadBack, HandlePetitionAssertion;
    ReadBackKeepsApart(DeclarationKey(x.continuumNbr));
    AssertionKeepsKeys(NoteDeclaration(g, x), x, DeclarationKey(x.continuumNbr), playback);
  }

  /** A neighbour that asks for something else than the pseudo-subjects seen so far is listed under its key, on replay,
      iff a petition created for that key has it. */
  lemma ReplayedNewKey(r: GatewayState, x: RamsNode, k: Key)
    requires OnlyPseudo(r) && k.subjectNbr > 0
    ensures x in DgsOf(HandlePetitionAssertion(r, x, k, true).gw, k) <==> ReadBack(k) == k
  {
    hide ReadBack;
    NobodyHasKey(r.petitions, k);
    var p := PetitionState(ReadBack(k), [], [x], [], true);
    assert HandlePetitionAssertion(r, x, k, true).gw == r.(petitions := r.petitions + [p]);
    if ReadBack(k) == k { NewDgs(r, p); } else { NewPetitionElsewhere(r, p); }
  }

  lemma PseudoStart(local: int, self: ModuleId, isTree: bool, neighbors: seq<RamsNode>)
    requires GoodNeighbors(local, neighbors)
    ensures OnlyPseudo(Startup(local, self, isTree, neighbors))
  {
    StartupKey(local, self, isTree, neighbors);
  }

  /** A local module subscribes under k, a declared neighbour asks for the same: it is listed. */
  lemma LiveLists(g: GatewayState, x: RamsNode, k: Key, m: ModuleId)
    requires Inv(g) && OnlyPseudo(g) && Noticed(k) && k.subjectNbr > 0
    requires k.continuumNbr != g.local && m != g.self && Apply(g, Subscribe(m, k)).ok
    requires x in g.neighbors && Declared(g, x.continuumNbr)
    ensures var h := Apply(g, Subscribe(m, k)).gw;
      && h.declared == g.declared && h.log == g.log
      && x in DgsOf(HandlePetitionRpdu(h, x, PETITION_ASSERTION, ReadBack(k)).gw, ReadBack(k))
  {
    hide HandlePetitionAssertion, AddPetitioner, Inv, ReadBack, DgsIn;
    var h, key := Apply(g, Subscribe(m, k)).gw, ReadBack(k);
    ReadBackKeepsApart(k);
    ApplyKeepsInv(g, Subscribe(m, k));
    InvNothingPlayedBack(h);
    NeighborsPositive(g, x);
    NobodyHasKey(g.petitions, k);
    NewSubscription(g, m, k);
    SubscriptionInterest(g, Subscribe(m, k));
    assert h.petitions[|g.petitions|].key == key;
    SameDeclared(g, h);
    LiveInterest(h, x, key);
  }

  lemma NeighborsPositive(g: GatewayState, x: RamsNode)
    requires Inv(g) && x in g.neighbors
    ensures x.continuumNbr > 0
  {
  }

  lemma ReplayTwoLines(g: GatewayState, a: LogLine, b: LogLine)
    requires RehandlePetition(g, a).ok
    ensures PlaybackPetitionLog(g, [a, b]) == RehandlePetition(RehandlePetition(g, a).gw, b)
  {
    hide RehandlePetition;
    assert [a, b][1..] == [b] && [b][1..] == [];
    var s := RehandlePetition(g, a);
    assert PlaybackPetitionLog(RehandlePetition(s.gw, b).gw, []) == Step(RehandlePetition(s.gw, b).gw, true);
  }

  lemma ReplayedDeclaration(g: GatewayState, x: RamsNode)
    requires OnlyPseudo(g) && 0 < x.continuumNbr < 0x8000 && LookUpNeighbor(g.neighbors, x.gwEid) == Some(x)
    ensures var s := RehandlePetition(g, LogLine(x.protocol, x.gwEid, PETITION_ASSERTION,
        DeclarationKey(x.continuumNbr)));
      s.ok && OnlyPseudo(s.gw) && s.gw.neighbors == g.neighbors && Declared(s.gw, x.continuumNbr)
  {
    hide ReadBack;
    DeclarationStaysPseudo(g, x, true);
    AssertionKeepsKeys(NoteDeclaration(g, x), x, DeclarationKey(x.continuumNbr), true);
    var h := NoteDeclaration(g, x);
    assert !Declared(g, x.continuumNbr) ==> h.declared[|g.declared|] == x;
  }

  /** A local module subscribes under key k, and a neighbour then asks for the same, under the key that k's envelope
      reads back as. The live gateway, which has a petition for that key, lists the neighbour under it; the replayed
      one does iff k is representable. */
  lemma ReplayListsUnderKeyIff(local: int, self: ModuleId, isTree: bool, neighbors: seq<RamsNode>, x: RamsNode,
                               k: Key, m: ModuleId)
    requires GoodNeighbors(local, neighbors) && LookUpNeighbor(neighbors, x.gwEid) == Some(x)
    requires x.continuumNbr < 0x8000
    requires Noticed(k) && k.subjectNbr > 0 && k.continuumNbr != local && m != self
    requires var g := Startup(local, self, isTree, neighbors);
      Run(g, [Receive(x, PETITION_ASSERTION, DeclarationKey(x.continuumNbr)), Subscribe(m, k),
              Receive(x, PETITION_ASSERTION, ReadBack(k))]).ok
    ensures var g := Startup(local, self, isTree, neighbors);
      var live := Run(g, [Receive(x, PETITION_ASSERTION, DeclarationKey(x.continuumNbr)), Subscribe(m, k),
                          Receive(x, PETITION_ASSERTION, ReadBack(k))]).gw;
      var replay := PlaybackPetitionLog(g, live.log);
      && replay.ok
      && x in DgsOf(live, ReadBack(k))
      && (x in DgsOf(replay.gw, ReadBack(k)) <==> Representable(k))
  {
    hide HandlePetitionAssertion, AddPetitioner, Inv, ReadBack, Representable, DgsOf, Startup, RehandlePetition;
    hide HandlePetitionRpdu, PlaybackPetitionLog, OnlyPseudo;
    var g, d, key := Startup(local, self, isTree, neighbors), DeclarationKey(x.continuumNbr), ReadBack(k);
    var e1, e2, e3 := Receive(x, PETITION_ASSERTION, d), Subscribe(m, k), Receive(x, PETITION_ASSERTION, key);
    LookedUpIsNeighbor(neighbors, x.gwEid);
    ReadBackKeepsApart(k);
    StartupInv(local, self, isTree, neighbors);
    PseudoStart(local, self, isTree, neighbors);
    StartupFields(local, self, isTree, neighbors);
    NeighborsPositive(g, x);
    RunOfThree(g, e1, e2, e3);
    var g1 := Apply(g, e1).gw;
    ApplyKeepsInv(g, e1);
    LiveDeclaration(g, x);
    LiveLists(g1, x, k, m);
    var g2 := Apply(g1, e2).gw;
    SameDeclared(g1, g2);
    LoggedIffAccepted(g, x, PETITION_ASSERTION, d);
    LoggedIffAccepted(g2, x, PETITION_ASSERTION, key);
    var a, b := LogLine(x.protocol, x.gwEid, PETITION_ASSERTION, d),
        LogLine(x.protocol, x.gwEid, PETITION_ASSERTION, key);
    assert [] + [a] + [b] == [a, b];
    ReplayedDeclaration(g, x);
    ReplayTwoLines(g, a, b);
    ReplayedKey(RehandlePetition(g, a).gw, x, key);
    ReadBackIff(key);
    ReadBackIff(k);
  }

  lemma StartupFields(local: int, self: ModuleId, isTree: bool, neighbors: seq<RamsNode>)
    ensures var g := Startup(local, self, isTree, neighbors);
      g.local == local && g.self == self && g.neighbors == neighbors && g.log == []
  {
  }

  lemma LiveDeclaration(g: GatewayState, x: RamsNode)
    requires OnlyPseudo(g) && 0 < x.continuumNbr < 0x8000
    ensures var h := HandlePetitionRpdu(g, x, PETITION_ASSERTION, DeclarationKey(x.continuumNbr)).gw;
      && OnlyPseudo(h) && Declared(h, x.continuumNbr)
      && h.local == g.local && h.self == g.self && h.neighbors == g.neighbors
  {
    hide HandlePetitionAssertion;
    DeclarationStaysPseudo(g, x, false);
    AssertionKeepsDeclared(NoteDeclaration(g, x), x, DeclarationKey(x.continuumNbr));
    AssertionKeepsKeys(NoteDeclaration(g, x), x, DeclarationKey(x.continuumNbr), false);
    var h := NoteDeclaration(g, x);
    assert !Declared(g, x.continuumNbr) ==> h.declared[|g.declared|] == x;
    SameDeclared(h, HandlePetitionAssertion(h, x, DeclarationKey(x.continuumNbr), false).gw);
  }

  lemma AssertionKeepsDeclared(g: GatewayState, from: RamsNode, k: Key)
    ensures HandlePetitionAssertion(g, from, k, false).gw.declared == g.declared
  {
    hide AssertPetition, ReadBack;
    EstablishChangesSgss(NoteAssertion(g, from, k, false), from, FindPetition(g.petitions, k), 0);
  }

  lemma ReplayedKey(r: GatewayState, x: RamsNode, k: Key)
    requires OnlyPseudo(r) && k.subjectNbr > 0 && 0 < x.continuumNbr && Declared(r, x.continuumNbr)
    requires LookUpNeighbor(r.neighbors, x.gwEid) == Some(x)
    ensures var s := RehandlePetition(r, LogLine(x.protocol, x.gwEid, PETITION_ASSERTION, k));
      s.ok && (x in DgsOf(s.gw, k) <==> ReadBack(k) == k)
  {
    ReplayedNewKey(r, x, k);
  }
}
