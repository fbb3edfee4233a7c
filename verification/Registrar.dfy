/** A cell's registrar: which module numbers it gives to whom. After a restart it first lets the modules of the
    cell reconnect under their old numbers and only then, its census complete, registers new ones. */
module Registrar {
  import opened Bytes
  import opened Options
  import opened ContactSummary
  import opened MamsMessage

  const N6_COUNT := 3
  const MODULE_REGISTRATION := 19
  const SLOTS := MAX_MODULE_NBR + 1

  /** One module number. The number is free as long as the role is unset; an endpoint may be left over. */
  datatype Slot = Slot(role: Option<nat>, ept: Option<seq<byte>>, heartbeatsMissed: nat)

  const FREE := Slot(None, None, 0)

  /** The registrar's state: the cell's venture and unit, the roles of the venture, whether the configuration server
      has answered, the age of the registrar in heartbeats, the modules it expects to reconnect, and who has which
      number (number 0 is never used). */
  datatype Rs = Rs(ventureNbr: nat, unitNbr: nat, roles: set<nat>, csKnown: bool, cellHeartbeats: nat,
                   undeclaredCount: int, undeclared: seq<bool>, slots: seq<Slot>)

  datatype Reply = Nothing | NoCensus | CellFull | YouAreIn(nbr: nat) | YouAreDead | Reconnected | NullPointer

  datatype Outcome = Outcome(rs: Rs, reply: Reply)

  predicate Sized(rs: Rs) { |rs.slots| == SLOTS && |rs.undeclared| == SLOTS }

  function RoleOf(rs: Rs, roleNbr: nat): Option<nat> {
    if roleNbr in rs.roles then Some(roleNbr) else None
  }

  function Remember(rs: Rs, nbr: nat, roleNbr: nat, ept: seq<byte>): Rs
    requires nbr < |rs.slots|
  {
    rs.(slots := rs.slots[nbr := rs.slots[nbr].(role := RoleOf(rs, roleNbr), ept := Some(ept))])
  }

  function Forget(rs: Rs, nbr: nat): Rs
    requires nbr < |rs.slots|
  {
    rs.(slots := rs.slots[nbr := rs.slots[nbr].(role := None, ept := None)])
  }

  // ---------- registration ----------

  /** The lowest free number from i on; 0 if there is none. */
  function FirstFree(slots: seq<Slot>, i: nat): (n: nat)
    requires 0 < i
    ensures n == 0 <==> forall j :: i <= j < |slots| ==> slots[j].role.Some?
    ensures n > 0 ==> i <= n < |slots| && slots[n].role.None? && forall j :: i <= j < n ==> slots[j].role.Some?
    decreases |slots| - i
  {
    if i >= |slots| then 0 else if slots[i].role.None? then i else FirstFree(slots, i + 1)
  }

  /** A module asks to be registered under its endpoint name, None if the message is malformed. reachable: the name
      can be parsed; delivered: the message that tells the module its number can be sent. */
  function Register(rs: Rs, roleNbr: nat, ept: Option<seq<byte>>, reachable: bool, delivered: bool): Outcome
    requires Sized(rs)
  {
    if ept.None? || !reachable then Outcome(rs, Nothing)
    else if rs.cellHeartbeats <= N6_COUNT then Outcome(rs, NoCensus)
    else
      var nbr := FirstFree(rs.slots, 1);
      if nbr == 0 then Outcome(rs, CellFull)
      else
        var known := Remember(rs, nbr, roleNbr, ept.value);
        if delivered then Outcome(known, YouAreIn(nbr)) else Outcome(Forget(known, nbr), Nothing)
  }

  // ---------- reconnection ----------

  /** What a module that reconnects says: its old number, its endpoint name and, if the rest of the message is well
      formed, the modules it knows of. */
  datatype Request = Request(nbr: nat, ept: seq<byte>, census: Option<seq<byte>>)

  /** Modules of a census are marked as expected; numbers are read as signed octets, so those from 128 up are
      passed over. */
  function Marked(undeclared: seq<bool>, census: seq<byte>): (r: seq<bool>)
    requires |undeclared| == SLOTS
    ensures |r| == SLOTS
    decreases |census|
  {
    if census == [] then undeclared
    else Marked(if SignedByte(census[0]) > 0 then undeclared[census[0] := true] else undeclared, census[1..])
  }

  function Scratched(rs: Rs, nbr: nat): Rs
    requires nbr < |rs.undeclared|
  {
    if rs.undeclared[nbr] then rs.(undeclared := rs.undeclared[nbr := false], undeclaredCount := rs.undeclaredCount - 1)
    else rs
  }

  function Expecting(rs: Rs, census: seq<byte>): Rs
    requires Sized(rs)
  {
    if rs.undeclaredCount == 0
    then rs.(undeclaredCount := |census|, undeclared := Marked(rs.undeclared, census)) else rs
  }

  /** A module asks to keep the number it had before the registrar restarted; None if not even its endpoint name can
      be read. There is no slot 0: the pointer that the code follows for it is null. */
  function Reconnect(rs: Rs, roleNbr: nat, r: Option<Request>, reachable: bool): Outcome
    requires Sized(rs) && (r.Some? ==> r.value.nbr <= MAX_MODULE_NBR)
  {
    if r.None? || !reachable then Outcome(rs, Nothing)
    else if rs.cellHeartbeats > N6_COUNT then Outcome(rs, YouAreDead)
    else if r.value.census.None? then Outcome(rs, Nothing)
    else
      var nbr := r.value.nbr;
      if rs.undeclaredCount > 0 && !rs.undeclared[nbr] then Outcome(rs, YouAreDead)
      else if nbr == 0 then Outcome(rs, NullPointer)
      else if rs.slots[nbr].role.Some? then Outcome(rs, YouAreDead)
      else
        var known := Remember(rs, nbr, roleNbr, r.value.ept);
        Outcome(Scratched(Expecting(known, r.value.census.value), nbr), Reconnected)
  }

  // ---------- the other events ----------

  /** A module with N6_COUNT heartbeats missed is presumed dead. */
  function Beat(slot: Slot): Slot {
    if slot.role.None? then slot
    else if slot.heartbeatsMissed == N6_COUNT then Slot(None, None, slot.heartbeatsMissed + 1)
    else slot.(heartbeatsMissed := slot.heartbeatsMissed + 1)
  }

  function Beats(slots: seq<Slot>): (r: seq<Slot>)
    ensures |r| == |slots|
    ensures forall i :: 0 <= i < |slots| ==> r[i] == if i == 0 then slots[i] else Beat(slots[i])
  {
    seq(|slots|, i requires 0 <= i < |slots| => if i == 0 then slots[i] else Beat(slots[i]))
  }

  function Cycle(rs: Rs): Rs {
    rs.(cellHeartbeats := if rs.csKnown || rs.cellHeartbeats > 0 then rs.cellHeartbeats + 1 else 0,
        slots := Beats(rs.slots))
  }

  datatype Event =
    | CsContact(known: bool)
    | HeartbeatCycle
    | Heartbeat(ventureNbr: nat, unitNbr: nat, memo: int)
    | Registration(roleNbr: nat, ept: Option<seq<byte>>, reachable: bool, delivered: bool)
    | Stopping(who: Option<ModuleName>)
    | Reconnection(roleNbr: nat, request: Option<Request>, reachable: bool)

  /** A module number is an octet, and a stopping module is named by a valid identifier. */
  predicate Sane(e: Event) {
    && (e.Reconnection? && e.request.Some? ==> e.request.value.nbr <= MAX_MODULE_NBR)
    && (e.Stopping? && e.who.Some? ==> ValidModule(e.who.value))
  }

  function Next(rs: Rs, e: Event): (o: Outcome)
    requires Sized(rs) && Sane(e)
    ensures Sized(o.rs) && o.rs.roles == rs.roles && o.rs.unitNbr == rs.unitNbr && o.rs.ventureNbr == rs.ventureNbr
  {
    match e
    case CsContact(known) => Outcome(rs.(csKnown := known), Nothing)
    case HeartbeatCycle => Outcome(Cycle(rs), Nothing)
    case Heartbeat(ventureNbr, unitNbr, memo) =>
      if ventureNbr == rs.ventureNbr && unitNbr == rs.unitNbr && 1 <= memo <= MAX_MODULE_NBR
         && rs.slots[memo].role.Some?
      then Outcome(rs.(slots := rs.slots[memo := rs.slots[memo].(heartbeatsMissed := 0)]), Nothing)
      else Outcome(rs, Nothing)
    case Registration(roleNbr, ept, reachable, delivered) => Register(rs, roleNbr, ept, reachable, delivered)
    case Stopping(who) =>
      if who.Some? && who.value.unitNbr == rs.unitNbr then Outcome(Forget(rs, who.value.moduleNbr), Nothing)
      else Outcome(rs, Nothing)
    case Reconnection(roleNbr, request, reachable) => Reconnect(rs, roleNbr, request, reachable)
  }

  function Fresh(ventureNbr: nat, unitNbr: nat, roles: set<nat>): (rs: Rs)
    ensures Sized(rs)
  {
    Rs(ventureNbr, unitNbr, roles, false, 0, 0, seq(SLOTS, _ => false), seq(SLOTS, _ => FREE))
  }

  // ---------- runs ----------

  /** The states of a run: rss[i] is the state before events[i]. */
  ghost predicate IsRun(rss: seq<Rs>, events: seq<Event>) {
    && |rss| == |events| + 1
    && (exists ventureNbr, unitNbr, roles :: rss[0] == Fresh(ventureNbr, unitNbr, roles))
    && (forall i :: 0 <= i < |rss| ==> Sized(rss[i]))
    && (forall i :: 0 <= i < |events| ==> Sane(events[i]) && rss[i + 1] == Next(rss[i], events[i]).rs)
  }

  function ReplyAt(rss: seq<Rs>, events: seq<Event>, i: nat): Reply
    requires i < |events| && i < |rss| && Sized(rss[i]) && Sane(events[i])
  {
    Next(rss[i], events[i]).reply
  }

  lemma {:induction false} CensusClockRuns(rss: seq<Rs>, events: seq<Event>, i: nat, j: nat)
    requires IsRun(rss, events) && i <= j < |rss|
    ensures rss[i].cellHeartbeats <= rss[j].cellHeartbeats
    decreases j - i
  {
    if i < j { CensusClockRuns(rss, events, i, j - 1); }
  }

  /** In every run all accepted reconnections come before all accepted registrations. */
  lemma ReconnectionsPrecedeRegistrations(rss: seq<Rs>, events: seq<Event>, i: nat, j: nat)
    requires IsRun(rss, events) && i < |events| && j < |events|
    requires ReplyAt(rss, events, i) == Reconnected && ReplyAt(rss, events, j).YouAreIn?
    ensures i < j
  {
    if j <= i { CensusClockRuns(rss, events, j, i); }
  }

  /** The number that an event accepted somebody under. */
  function AcceptedAs(rs: Rs, e: Event): Option<nat>
    requires Sized(rs) && Sane(e)
  {
    match Next(rs, e).reply
    case YouAreIn(nbr) => Some(nbr)
    case Reconnected => Some(e.request.value.nbr)
    case _ => None
  }

  /** Whoever is accepted gets a number that was free, and no other number changes hands. The number is
      taken from then on iff the venture knows the role. The count of heartbeats missed under it is not reset. */
  lemma AcceptanceFillsFreeSlot(rs: Rs, e: Event)
    requires Sized(rs) && Sane(e) && AcceptedAs(rs, e).Some?
    ensures var nbr, after := AcceptedAs(rs, e).value, Next(rs, e).rs;
      && 1 <= nbr <= MAX_MODULE_NBR
      && rs.slots[nbr].role.None?
      && (after.slots[nbr].role.Some? <==> e.roleNbr in rs.roles)
      && (e.roleNbr in rs.roles ==> after.slots[nbr].role == Some(e.roleNbr))
      && after.slots[nbr].heartbeatsMissed == rs.slots[nbr].heartbeatsMissed
      && after.slots[nbr].ept == (if e.Registration? then e.ept else Some(e.request.value.ept))
      && forall n :: 0 <= n < SLOTS && n != nbr ==> after.slots[n] == rs.slots[n]
  {
  }

  /** The event is no message by which the module of this cell with number nbr says that it stops. */
  predicate NotStopping(rs: Rs, e: Event, nbr: nat) {
    e.Stopping? && e.who.Some? ==> e.who.value.unitNbr != rs.unitNbr || e.who.value.moduleNbr != nbr
  }

  /** The event does not end somebody's having number nbr. */
  predicate Stays(rs: Rs, e: Event, nbr: nat)
    requires Sized(rs) && nbr < SLOTS
  {
    NotStopping(rs, e, nbr) && (e.HeartbeatCycle? ==> rs.slots[nbr].heartbeatsMissed != 3)
  }

  /** The owner of number nbr is quiet from one point of the run to another: it neither sends a heartbeat nor stops. */
  ghost predicate Quiet(rss: seq<Rs>, events: seq<Event>, nbr: nat, from: nat, until: nat)
    requires from <= until <= |events| && |rss| == |events| + 1
  {
    forall i :: from <= i < until ==>
      events[i] != Heartbeat(rss[i].ventureNbr, rss[i].unitNbr, nbr) && NotStopping(rss[i], events[i], nbr)
  }

  /** A module loses its number iff it stops or is found to have missed N6_COUNT heartbeats; nothing
      else changes its role or its endpoint. */
  lemma NumberKeptIff(rs: Rs, e: Event, nbr: nat)
    requires Sized(rs) && Sane(e) && 0 < nbr < SLOTS && rs.slots[nbr].role.Some?
    ensures var was, now := rs.slots[nbr], Next(rs, e).rs.slots[nbr];
      if Stays(rs, e, nbr) then now.role == was.role && now.ept == was.ept else now.role.None? && now.ept.None?
  {
  }

  /** Over any stretch of a run in which a module neither stops nor dies, its number and endpoint stay its own,
      and nobody else is accepted under that number. */
  lemma {:induction false} NumberIsNeverGivenAway(rss: seq<Rs>, events: seq<Event>, nbr: nat, from: nat, until: nat)
    requires IsRun(rss, events) && from <= until <= |events| && 0 < nbr < SLOTS
    requires rss[from].slots[nbr].role.Some?
    requires forall i :: from <= i < until ==> Stays(rss[i], events[i], nbr)
    ensures rss[until].slots[nbr].role == rss[from].slots[nbr].role
    ensures rss[until].slots[nbr].ept == rss[from].slots[nbr].ept
    ensures forall i :: from <= i < until ==> AcceptedAs(rss[i], events[i]) != Some(nbr)
    decreases until - from
  {
    hide Next, AcceptedAs, Sane;
    if from < until {
      NumberIsNeverGivenAway(rss, events, nbr, from, until - 1);
      NumberKeptIff(rss[until - 1], events[until - 1], nbr);
      assert Stays(rss[until - 1], events[until - 1], nbr);
      if AcceptedAs(rss[until - 1], events[until - 1]).Some? {
        AcceptanceFillsFreeSlot(rss[until - 1], events[until - 1]);
      }
    }
  }

  /** The restriction to known roles is exact: of two registrations accepted in a row, the second gets the number of
      the first iff the venture does not know the first one's role. */
  lemma SameNumberTwiceIfUnknown(rs: Rs, e: Event, f: Event)
    requires Sized(rs) && e.Registration? && f.Registration?
    requires Next(rs, e).reply.YouAreIn? && Next(Next(rs, e).rs, f).reply.YouAreIn?
    ensures Next(Next(rs, e).rs, f).reply == Next(rs, e).reply <==> e.roleNbr !in rs.roles
  {
    var nbr, after := FirstFree(rs.slots, 1), Next(rs, e).rs;
    var second := FirstFree(after.slots, 1);
    AcceptanceFillsFreeSlot(rs, e);
    assert Next(rs, e).reply == YouAreIn(nbr) && Next(after, f).reply == YouAreIn(second);
  }

  // ---------- heartbeats that were missed before ----------

  /** Whoever is accepted inherits the count that goes with the number: at the next cycle it is presumed dead iff its
      predecessor had missed as many heartbeats as that takes. */
  lemma NewcomerBuriedAtOnceIff(rs: Rs, e: Event)
    requires Sized(rs) && Sane(e) && AcceptedAs(rs, e).Some? && e.roleNbr in rs.roles
    ensures var nbr := AcceptedAs(rs, e).value;
      Next(Next(rs, e).rs, HeartbeatCycle).rs.slots[nbr].role.None? <==> rs.slots[nbr].heartbeatsMissed == N6_COUNT
  {
    AcceptanceFillsFreeSlot(rs, e);
  }

  /** Nobody ever presumes dead the owner of a number whose count has gone past that, as long as it sends no
      heartbeat: on any stretch of any run it keeps the number unless it stops. */
  lemma {:induction false} SilentOwnerIsNeverBuried(rss: seq<Rs>, events: seq<Event>, nbr: nat, from: nat, until: nat)
    requires IsRun(rss, events) && from <= until <= |events| && 0 < nbr < SLOTS
    requires rss[from].slots[nbr].role.Some? && rss[from].slots[nbr].heartbeatsMissed > N6_COUNT
    requires Quiet(rss, events, nbr, from, until)
    ensures rss[until].slots[nbr].role == rss[from].slots[nbr].role
    ensures rss[until].slots[nbr].heartbeatsMissed > N6_COUNT
    decreases until - from
  {
    hide AcceptedAs, Sane, Next;
    if from < until {
      SilentOwnerIsNeverBuried(rss, events, nbr, from, until - 1);
      NumberKeptIff(rss[until - 1], events[until - 1], nbr);
      CountKept(rss[until - 1], events[until - 1], nbr);
    }
  }

  /** On any run, after somebody has been presumed dead under a number, and as long as no heartbeat arrives for it, no
      later owner of the number is: however often it changes hands, an owner only ever loses it by stopping. */
  lemma {:induction false} NoSecondBurial(rss: seq<Rs>, events: seq<Event>, nbr: nat, burial: nat, i: nat)
    requires IsRun(rss, events) && 0 < nbr < SLOTS && burial < i < |events| && events[burial].HeartbeatCycle?
    requires rss[burial].slots[nbr].role.Some? && rss[burial].slots[nbr].heartbeatsMissed == N6_COUNT
    requires forall j :: burial < j <= i ==> events[j] != Heartbeat(rss[j].ventureNbr, rss[j].unitNbr, nbr)
    ensures rss[i].slots[nbr].heartbeatsMissed > N6_COUNT
    ensures rss[i].slots[nbr].role.Some? && NotStopping(rss[i], events[i], nbr) ==>
      rss[i + 1].slots[nbr].role == rss[i].slots[nbr].role
  {
    hide AcceptedAs, Sane;
    if i > burial + 1 {
      NoSecondBurial(rss, events, nbr, burial, i - 1);
      hide Next;
      CountKept(rss[i - 1], events[i - 1], nbr);
    }
    hide Next;
    if rss[i].slots[nbr].role.Some? { NumberKeptIff(rss[i], events[i], nbr); }
  }

  lemma CountKept(rs: Rs, e: Event, nbr: nat)
    requires Sized(rs) && Sane(e) && 0 < nbr < SLOTS
    requires e != Heartbeat(rs.ventureNbr, rs.unitNbr, nbr)
    ensures Next(rs, e).rs.slots[nbr].heartbeatsMissed >= rs.slots[nbr].heartbeatsMissed
  {
  }

  // ---------- the clock ----------

  /** How many heartbeat cycles there are among the events. */
  function Cycles(events: seq<Event>): nat {
    if events == [] then 0
    else Cycles(events[..|events| - 1]) + if events[|events| - 1].HeartbeatCycle? then 1 else 0
  }

  lemma CyclesOneMore(events: seq<Event>, i: nat, j: nat)
    requires i <= j < |events|
    ensures Cycles(events[i..j + 1]) == Cycles(events[i..j]) + if events[j].HeartbeatCycle? then 1 else 0
  {
    assert events[i..j + 1][..j - i] == events[i..j];
  }

  lemma NoCycles(events: seq<Event>, i: nat)
    requires i <= |events|
    ensures Cycles(events[i..i]) == 0
  {
  }

  lemma {:induction false} CyclesAtLeastOne(events: seq<Event>, i: nat, j: nat)
    requires i < j <= |events| && events[i].HeartbeatCycle?
    ensures Cycles(events[i..j]) > 0
    decreases j
  {
    CyclesOneMore(events, i, j - 1);
    if i < j - 1 { CyclesAtLeastOne(events, i, j - 1); }
  }

  /** The configuration server is known after the events: the last news of it is good. */
  predicate ServerKnown(events: seq<Event>) {
    events != [] && var last := events[|events| - 1];
                    if last.CsContact? then last.known else ServerKnown(events[..|events| - 1])
  }

  lemma {:induction false} ServerKnownOnRun(rss: seq<Rs>, events: seq<Event>, i: nat)
    requires IsRun(rss, events) && i < |rss|
    ensures rss[i].csKnown <==> ServerKnown(events[..i])
  {
    if i > 0 {
      ServerKnownOnRun(rss, events, i - 1);
      assert events[..i][..i - 1] == events[..i - 1];
    }
  }

  lemma ClockStep(rs: Rs, e: Event)
    requires Sized(rs) && Sane(e)
    ensures Next(rs, e).rs.cellHeartbeats
         == rs.cellHeartbeats + if e.HeartbeatCycle? && (rs.csKnown || rs.cellHeartbeats > 0) then 1 else 0
  {
  }

  /** On every run the registrar's clock stands still until a heartbeat cycle finds the configuration server known. */
  lemma {:induction false} ClockStandsStill(rss: seq<Rs>, events: seq<Event>, i: nat)
    requires IsRun(rss, events) && i < |rss|
    requires forall j :: 0 <= j < i && events[j].HeartbeatCycle? ==> !ServerKnown(events[..j])
    ensures rss[i].cellHeartbeats == 0
  {
    if i > 0 {
      ClockStandsStill(rss, events, i - 1);
      ServerKnownOnRun(rss, events, i - 1);
    }
  }

  /** From that cycle on it counts every cycle, whether or not the server is still known. */
  lemma {:induction false} ClockCounts(rss: seq<Rs>, events: seq<Event>, start: nat, i: nat)
    requires IsRun(rss, events) && start < i < |rss|
    requires events[start].HeartbeatCycle? && ServerKnown(events[..start])
    requires forall j :: 0 <= j < start && events[j].HeartbeatCycle? ==> !ServerKnown(events[..j])
    ensures rss[i].cellHeartbeats == Cycles(events[start..i])
    decreases i
  {
    hide Next, Sane, ServerKnown, Cycles;
    CyclesOneMore(events, start, i - 1);
    ClockStep(rss[i - 1], events[i - 1]);
    if i == start + 1 {
      ClockStandsStill(rss, events, start);
      ServerKnownOnRun(rss, events, start);
      NoCycles(events, start);
    } else {
      CyclesAtLeastOne(events, start, i - 1);
      ClockCounts(rss, events, start, i - 1);
    }
  }

  /** A well-formed registration of a module that can be reached, on any run: there is no census before the fourth
      heartbeat cycle since the server was first known, and from then on there is. Then the module gets the lowest
      number that is free, unless all are taken or the answer cannot be delivered; in that case all numbers stay with
      those who had them. */
  lemma RegistrationFromFourthCycle(rss: seq<Rs>, events: seq<Event>, i: nat, start: nat)
    requires IsRun(rss, events) && i < |events|
    requires events[i].Registration? && events[i].ept.Some? && events[i].reachable
    requires start < |events| && events[start].HeartbeatCycle? && ServerKnown(events[..start])
    requires forall j :: 0 <= j < start && events[j].HeartbeatCycle? ==> !ServerKnown(events[..j])
    ensures i <= start || Cycles(events[start..i]) < 4 ==> ReplyAt(rss, events, i) == NoCensus && rss[i + 1] == rss[i]
    ensures i > start && Cycles(events[start..i]) >= 4 ==>
      var slots, later, reply := rss[i].slots, rss[i + 1].slots, ReplyAt(rss, events, i);
      if forall n :: 1 <= n <= 255 ==> slots[n].role.Some? then reply == CellFull && rss[i + 1] == rss[i]
      else if !events[i].delivered then
        reply == Nothing && forall n :: 0 <= n <= 255 ==> later[n].role == slots[n].role
      else
        && reply.YouAreIn? && 1 <= reply.nbr <= 255 && slots[reply.nbr].role.None?
        && (forall n :: 1 <= n < reply.nbr ==> slots[n].role.Some?)
        && later[reply.nbr].ept == events[i].ept
        && (events[i].roleNbr in rss[i].roles ==> later[reply.nbr].role == Some(events[i].roleNbr))
  {
    if i <= start {
      ClockStandsStill(rss, events, i);
    } else {
      ClockCounts(rss, events, start, i);
    }
  }

  /** Registrations and reconnections that are malformed, or whose sender cannot be reached, change nothing and are
      not answered; nor are stopping modules of other units, or nobody's identifiers. */
  lemma IgnoredMessages(rs: Rs, e: Event)
    requires Sized(rs) && Sane(e)
    ensures e.Registration? && (e.ept.None? || !e.reachable) ==> Next(rs, e) == Outcome(rs, Nothing)
    ensures e.Reconnection? && (e.request.None? || !e.reachable) ==> Next(rs, e) == Outcome(rs, Nothing)
    ensures e.Stopping? && (e.who.None? || e.who.value.unitNbr != rs.unitNbr) ==> Next(rs, e) == Outcome(rs, Nothing)
  {
  }

  /** From the fourth cycle on nobody keeps an old number any more: whoever asks to is told that it is dead. */
  lemma NoReconnectionFromFourthCycle(rss: seq<Rs>, events: seq<Event>, i: nat, start: nat)
    requires IsRun(rss, events) && start < i < |events| && events[start].HeartbeatCycle? && ServerKnown(events[..start])
    requires forall j :: 0 <= j < start && events[j].HeartbeatCycle? ==> !ServerKnown(events[..j])
    requires events[i].Reconnection? && events[i].request.Some? && events[i].reachable
    ensures Cycles(events[start..i]) >= 4 ==> ReplyAt(rss, events, i) == YouAreDead && rss[i + 1] == rss[i]
  {
    ClockCounts(rss, events, start, i);
  }

  /** As long as the server has never been known at a heartbeat cycle, nobody is registered. */
  lemma NoRegistrationBeforeServer(rss: seq<Rs>, events: seq<Event>, i: nat)
    requires IsRun(rss, events) && i < |events|
    requires forall j :: 0 <= j < i && events[j].HeartbeatCycle? ==> !ServerKnown(events[..j])
    ensures !ReplyAt(rss, events, i).YouAreIn?
  {
    ClockStandsStill(rss, events, i);
  }

  // ---------- heartbeats ----------

  /** A heartbeat from the module that has number nbr clears its count and touches nothing else; one from another unit
      or venture, or under a number nobody has, touches nothing. */
  lemma HeartbeatClears(rs: Rs, ventureNbr: nat, unitNbr: nat, memo: int)
    requires Sized(rs)
    ensures var o := Next(rs, Heartbeat(ventureNbr, unitNbr, memo));
      && o.reply == Nothing
      && if ventureNbr == rs.ventureNbr && unitNbr == rs.unitNbr && 1 <= memo <= 255 && rs.slots[memo].role.Some?
         then
           && o.rs == rs.(slots := o.rs.slots)
           && o.rs.slots[memo] == rs.slots[memo].(heartbeatsMissed := 0)
           && forall n :: 0 <= n <= 255 && n != memo ==> o.rs.slots[n] == rs.slots[n]
         else o.rs == rs
  {
  }

  lemma CountStep(rs: Rs, e: Event, nbr: nat)
    requires Sized(rs) && Sane(e) && 0 < nbr < SLOTS
    ensures Next(rs, e).rs.slots[nbr].heartbeatsMissed
         <= rs.slots[nbr].heartbeatsMissed + if e.HeartbeatCycle? then 1 else 0
  {
  }

  /** While nobody has a number its count stands still, whatever happens short of somebody's being accepted under it. */
  lemma FreeNumberDoesNotAge(rs: Rs, e: Event, nbr: nat)
    requires Sized(rs) && Sane(e) && nbr < SLOTS && rs.slots[nbr].role.None? && AcceptedAs(rs, e) != Some(nbr)
    ensures var was, now := rs.slots[nbr], Next(rs, e).rs.slots[nbr];
      now.role.None? && now.heartbeatsMissed == was.heartbeatsMissed
  {
  }

  /** On any stretch of a run a count goes up by no more than the number of heartbeat cycles. */
  lemma {:induction false} CountBounded(rss: seq<Rs>, events: seq<Event>, nbr: nat, from: nat, until: nat)
    requires IsRun(rss, events) && from <= until <= |events| && 0 < nbr < SLOTS
    ensures rss[until].slots[nbr].heartbeatsMissed
         <= rss[from].slots[nbr].heartbeatsMissed + Cycles(events[from..until])
    decreases until
  {
    hide Next, Sane, Cycles;
    if from < until {
      CountBounded(rss, events, nbr, from, until - 1);
      CyclesOneMore(events, from, until - 1);
      CountStep(rss[until - 1], events[until - 1], nbr);
    } else {
      NoCycles(events, from);
    }
  }

  lemma QuietStep(rs: Rs, e: Event, nbr: nat)
    requires Sized(rs) && Sane(e) && 0 < nbr < SLOTS && rs.slots[nbr].role.Some?
    requires e != Heartbeat(rs.ventureNbr, rs.unitNbr, nbr) && NotStopping(rs, e, nbr)
    ensures var was, now := rs.slots[nbr], Next(rs, e).rs.slots[nbr];
      && now.heartbeatsMissed == was.heartbeatsMissed + (if e.HeartbeatCycle? then 1 else 0)
      && if e.HeartbeatCycle? && was.heartbeatsMissed == 3 then now.role.None?
         else now.role == was.role && now.ept == was.ept
  {
  }

  lemma {:induction false} QuietOwner(rss: seq<Rs>, events: seq<Event>, nbr: nat, from: nat, until: nat)
    requires IsRun(rss, events) && from <= until <= |events| && 0 < nbr < SLOTS
    requires rss[from].slots[nbr].role.Some? && Quiet(rss, events, nbr, from, until)
    requires rss[from].slots[nbr].heartbeatsMissed + Cycles(events[from..until]) <= 3
    ensures rss[until].slots[nbr].role == rss[from].slots[nbr].role
    ensures rss[until].slots[nbr].ept == rss[from].slots[nbr].ept
    ensures rss[until].slots[nbr].heartbeatsMissed
         == rss[from].slots[nbr].heartbeatsMissed + Cycles(events[from..until])
    decreases until
  {
    hide Next, Sane, Cycles;
    if from < until {
      CyclesOneMore(events, from, until - 1);
      QuietOwner(rss, events, nbr, from, until - 1);
      QuietStep(rss[until - 1], events[until - 1], nbr);
    } else {
      NoCycles(events, from);
    }
  }

  /** On any run an owner whose count stands at 0 and who is not heard from again keeps its number for three heartbeat
      cycles and is presumed dead at the fourth. */
  lemma QuietOwnerDiesAtFourthCycle(rss: seq<Rs>, events: seq<Event>, nbr: nat, from: nat, until: nat)
    requires IsRun(rss, events) && from <= until < |events| && 1 <= nbr <= 255
    requires rss[from].slots[nbr].role.Some? && rss[from].slots[nbr].heartbeatsMissed == 0
    requires Quiet(rss, events, nbr, from, until) && Cycles(events[from..until]) <= 3
    ensures rss[until].slots[nbr].role == rss[from].slots[nbr].role
    ensures events[until].HeartbeatCycle? ==>
      (rss[until + 1].slots[nbr].role.None? <==> Cycles(events[from..until]) == 3)
  {
    QuietOwner(rss, events, nbr, from, until);
    if events[until].HeartbeatCycle? { QuietStep(rss[until], events[until], nbr); }
  }

  lemma {:induction false} FewerCycles(events: seq<Event>, h: nat, i: nat)
    requires h < i <= |events|
    ensures Cycles(events[h + 1..i]) <= Cycles(events[h..i])
    decreases i
  {
    if h + 1 < i {
      FewerCycles(events, h, i - 1);
      CyclesOneMore(events, h, i - 1);
      CyclesOneMore(events, h + 1, i - 1);
    } else {
      assert events[h + 1..i] == [];
    }
  }

  lemma CountSince(rss: seq<Rs>, events: seq<Event>, nbr: nat, from: nat, h: nat, i: nat)
    requires IsRun(rss, events) && from <= h <= i < |events| && 1 <= nbr <= 255
    requires events[i].HeartbeatCycle? && rss[h].slots[nbr].role.Some?
    requires if h == from then rss[h].slots[nbr].heartbeatsMissed == 0
             else events[h] == Heartbeat(rss[h].ventureNbr, rss[h].unitNbr, nbr)
    ensures rss[i].slots[nbr].heartbeatsMissed <= Cycles(events[h..i])
  {
    if h == from {
      CountBounded(rss, events, nbr, h, i);
    } else {
      HeartbeatClears(rss[h], rss[h].ventureNbr, rss[h].unitNbr, nbr);
      CountBounded(rss, events, nbr, h + 1, i);
      FewerCycles(events, h, i);
    }
  }

  /** On any run an owner that, before each fourth cycle, is heard from in time is never presumed dead: it keeps its
      number unless it stops. */
  lemma {:induction false} OwnerHeardInTimeStays(rss: seq<Rs>, events: seq<Event>, nbr: nat, from: nat, until: nat)
    requires IsRun(rss, events) && from <= until <= |events| && 1 <= nbr <= 255
    requires rss[from].slots[nbr].role.Some? && rss[from].slots[nbr].heartbeatsMissed == 0
    requires forall i :: from <= i < until && events[i].HeartbeatCycle? ==>
      exists h :: from <= h <= i && Cycles(events[h..i]) < 3
                  && (h == from || events[h] == Heartbeat(rss[h].ventureNbr, rss[h].unitNbr, nbr))
    requires forall i :: from <= i < until ==> NotStopping(rss[i], events[i], nbr)
    ensures rss[until].slots[nbr].role == rss[from].slots[nbr].role
    ensures rss[until].slots[nbr].ept == rss[from].slots[nbr].ept
    decreases until
  {
    hide Next, Sane, Cycles;
    if from < until {
      OwnerHeardInTimeStays(rss, events, nbr, from, until - 1);
      NumberKeptIff(rss[until - 1], events[until - 1], nbr);
      if events[until - 1].HeartbeatCycle? {
        var h :| from <= h <= until - 1 && Cycles(events[h..until - 1]) < 3
                 && (h == from || events[h] == Heartbeat(rss[h].ventureNbr, rss[h].unitNbr, nbr));
        OwnerHeardInTimeStays(rss, events, nbr, from, h);
        CountSince(rss, events, nbr, from, h, until - 1);
      }
    }
  }

  // ---------- the census ----------

  /** How many modules are still expected to reconnect. */
  function Expected(undeclared: seq<bool>): nat {
    if undeclared == [] then 0
    else Expected(undeclared[..|undeclared| - 1]) + if undeclared[|undeclared| - 1] then 1 else 0
  }

  lemma {:induction false} ExpectedAfter(undeclared: seq<bool>, i: nat, b: bool)
    requires i < |undeclared|
    ensures Expected(undeclared[i := b])
         == Expected(undeclared) - (if undeclared[i] then 1 else 0) + if b then 1 else 0
  {
    var front, other := undeclared[..|undeclared| - 1], undeclared[i := b];
    if i < |front| {
      ExpectedAfter(front, i, b);
      assert other[..|front|] == front[i := b];
    } else {
      assert other[..|front|] == front;
    }
  }

  lemma {:induction false} MarkedExpects(undeclared: seq<bool>, census: seq<byte>)
    requires |undeclared| == SLOTS
    ensures var r := Marked(undeclared, census);
      && Expected(r) <= Expected(undeclared) + |census|
      && (forall i :: 128 <= i < SLOTS ==> r[i] == undeclared[i])
    decreases |census|
  {
    if census != [] {
      var n := census[0];
      var u := if SignedByte(n) > 0 then undeclared[n := true] else undeclared;
      ExpectedAfter(undeclared, n, true);
      MarkedExpects(u, census[1..]);
    }
  }

  /** The count of modules to come is never below the number marked as expected, and so never negative; no number
      from 128 up is ever expected. */
  ghost predicate CensusInv(rs: Rs) {
    && Sized(rs)
    && Expected(rs.undeclared) <= rs.undeclaredCount
    && (forall i :: 128 <= i < SLOTS ==> !rs.undeclared[i])
  }

  lemma NextKeepsCensus(rs: Rs, e: Event)
    requires CensusInv(rs) && Sane(e)
    ensures CensusInv(Next(rs, e).rs)
  {
    hide Expected, Marked;
    if e.Reconnection? && Next(rs, e).reply == Reconnected {
      var census, nbr := e.request.value.census.value, e.request.value.nbr;
      var known := Remember(rs, nbr, e.roleNbr, e.request.value.ept);
      ExpectingKeepsCensus(known, census);
      ExpectedAfter(Expecting(known, census).undeclared, nbr, false);
    }
  }

  lemma ExpectingKeepsCensus(rs: Rs, census: seq<byte>)
    requires CensusInv(rs)
    ensures CensusInv(Expecting(rs, census))
  {
    MarkedExpects(rs.undeclared, census);
  }

  lemma {:induction false} AllUnexpected(undeclared: seq<bool>)
    requires forall i :: 0 <= i < |undeclared| ==> !undeclared[i]
    ensures Expected(undeclared) == 0
  {
    if undeclared != [] { AllUnexpected(undeclared[..|undeclared| - 1]); }
  }

  lemma {:induction false} RunKeepsCensus(rss: seq<Rs>, events: seq<Event>, i: nat)
    requires IsRun(rss, events) && i < |rss|
    ensures CensusInv(rss[i])
  {
    if i == 0 {
      AllUnexpected(rss[0].undeclared);
    } else {
      RunKeepsCensus(rss, events, i - 1);
      NextKeepsCensus(rss[i - 1], events[i - 1]);
    }
  }

  /** While modules are still expected, only expected ones reconnect: in no run does a module numbered 128 or
      more reconnect then, census or no census. */
  lemma OnlyExpectedModulesReconnect(rss: seq<Rs>, events: seq<Event>, i: nat)
    requires IsRun(rss, events) && i < |events|
    requires rss[i].undeclaredCount > 0 && ReplyAt(rss, events, i) == Reconnected
    ensures var nbr := events[i].request.value.nbr;
      && rss[i].undeclared[nbr] && !rss[i + 1].undeclared[nbr] && nbr < 128
      && rss[i + 1].undeclaredCount == rss[i].undeclaredCount - 1
  {
    RunKeepsCensus(rss, events, i);
  }

  lemma {:induction false} MarkedAre(undeclared: seq<bool>, census: seq<byte>, n: nat)
    requires |undeclared| == SLOTS && n < SLOTS
    ensures Marked(undeclared, census)[n] <==> undeclared[n] || (0 < n < 128 && n in census)
    decreases |census|
  {
    if census != [] {
      var c := census[0];
      assert census == [c] + census[1..];
      MarkedAre(if SignedByte(c) > 0 then undeclared[c := true] else undeclared, census[1..], n);
    }
  }

  /** Whoever is first to reconnect says who else is to be expected: those with the numbers from 1 to 127 that it
      lists. Whoever reconnects is expected no longer. */
  lemma CensusIsTakenDown(rs: Rs, e: Event, n: nat)
    requires CensusInv(rs) && Sane(e) && e.Reconnection? && Next(rs, e).reply == Reconnected && n < SLOTS
    ensures var nbr, census, after := e.request.value.nbr, e.request.value.census.value, Next(rs, e).rs;
      && (rs.undeclaredCount == 0 ==>
            && (after.undeclared[n] <==> n != nbr && 0 < n < 128 && n in census)
            && after.undeclaredCount
               == |census| - if nbr < 128 && nbr in census then 1 else 0)
      && (rs.undeclaredCount > 0 ==>
            && (after.undeclared[n] <==> n != nbr && rs.undeclared[n])
            && after.undeclaredCount == rs.undeclaredCount - 1)
  {
    hide Marked;
    var nbr, census := e.request.value.nbr, e.request.value.census.value;
    MarkedAre(rs.undeclared, census, n);
    MarkedAre(rs.undeclared, census, nbr);
    if rs.undeclaredCount == 0 {
      NobodyExpected(rs.undeclared, n);
      NobodyExpected(rs.undeclared, nbr);
    }
  }

  lemma {:induction false} NobodyExpected(undeclared: seq<bool>, n: nat)
    requires Expected(undeclared) == 0 && n < |undeclared|
    ensures !undeclared[n]
  {
    if n < |undeclared| - 1 { NobodyExpected(undeclared[..|undeclared| - 1], n); }
  }

  // ---------- reading the messages ----------

  /** The endpoint name at offset i. */
  function EndpointAt(s: seq<byte>, i: nat): Option<seq<byte>>
    requires i <= |s|
  {
    var end := AfterString(s, i);
    if end.None? then None else Some(s[i..end.value - 1])
  }

  /** The endpoint name of a registration message whose vectors can be stepped over. */
  function ReadRegistration(s: seq<byte>): Option<seq<byte>> {
    var end := AfterString(s, 0);
    if end.None? || AfterVectorList(s, end.value).None? then None else EndpointAt(s, 0)
  }

  /** The module list of a reconnect message that is correctly formed. */
  function CensusOf(s: seq<byte>): Option<seq<byte>> {
    var at := ModuleListAt(s);
    if at.None? || at.value == |s| || |s| - at.value - 1 != s[at.value] then None else Some(s[at.value + 1..])
  }

  function ReadReconnect(s: seq<byte>): Option<Request> {
    if |s| < 4 || EndpointAt(s, 4).None? then None else Some(Request(s[2], EndpointAt(s, 4).value, CensusOf(s)))
  }

  // ---------- the registrar itself ----------

  class RsState {
    const ventureNbr: nat
    const unitNbr: nat
    const roles: set<nat>
    var csKnown: bool
    var cellHeartbeats: nat
    var undeclaredModulesCount: int
    const undeclaredModules: array<bool>
    const modules: array<Slot>

    ghost predicate Valid()
      reads this, undeclaredModules, modules
    {
      undeclaredModules.Length == SLOTS && modules.Length == SLOTS
    }

    ghost function View(): (rs: Rs)
      reads this, undeclaredModules, modules
      requires Valid()
      ensures Sized(rs)
    {
      Rs(ventureNbr, unitNbr, roles, csKnown, cellHeartbeats, undeclaredModulesCount, undeclaredModules[..],
          modules[..])
    }

    constructor (ventureNbr: nat, unitNbr: nat, roles: set<nat>)
      ensures Valid() && View() == Fresh(ventureNbr, unitNbr, roles) && fresh(undeclaredModules) && fresh(modules)
    {
      this.ventureNbr, this.unitNbr, this.roles := ventureNbr, unitNbr, roles;
      csKnown, cellHeartbeats, undeclaredModulesCount := false, 0, 0;
      undeclaredModules := new bool[SLOTS](_ => false);
      modules := new Slot[SLOTS](_ => FREE);
    }

    method RememberModule(nbr: nat, roleNbr: nat, ept: seq<byte>)
      requires Valid() && nbr < SLOTS
      modifies modules
      ensures Valid() && View() == Remember(old(View()), nbr, roleNbr, ept)
    {
      modules[nbr] := modules[nbr].(role := if roleNbr in roles then Some(roleNbr) else None, ept := Some(ept));
    }

    method ForgetModule(nbr: nat)
      requires Valid() && nbr < SLOTS
      modifies modules
      ensures Valid() && View() == Forget(old(View()), nbr)
    {
      modules[nbr] := modules[nbr].(role := None, ept := None);
    }

    /** A beat of the registrar's heart, of which every second one counts. */
    method ProcessHeartbeatCycle(cycleCount: int) returns (newCount: int)
      requires Valid()
      modifies this`cellHeartbeats, modules
      ensures Valid()
      ensures cycleCount > 1 ==> newCount == 0 && View() == Next(old(View()), HeartbeatCycle).rs
      ensures cycleCount <= 1 ==> newCount == cycleCount && View() == old(View())
    {
      if cycleCount <= 1 { return cycleCount; }
      newCount := 0;
      if csKnown || cellHeartbeats > 0 {
        cellHeartbeats := cellHeartbeats + 1;
      }
      ghost var beats := cellHeartbeats;
      for i := 1 to SLOTS
        invariant cellHeartbeats == beats
        invariant forall j :: 0 <= j < SLOTS ==>
          modules[j] == if 0 < j < i then Beat(old(modules[j])) else old(modules[j])
      {
        if modules[i].role.Some? {
          if modules[i].heartbeatsMissed == N6_COUNT {
            modules[i] := modules[i].(role := None, ept := None);
          }
          modules[i] := modules[i].(heartbeatsMissed := modules[i].heartbeatsMissed + 1);
        }
      }
      assert modules[..] == Beats(old(modules[..]));
    }

    method HandleHeartbeat(senderVentureNbr: nat, senderUnitNbr: nat, memo: int)
      requires Valid()
      modifies modules
      ensures Valid() && View() == Next(old(View()), Heartbeat(senderVentureNbr, senderUnitNbr, memo)).rs
    {
      if senderVentureNbr != ventureNbr || senderUnitNbr != unitNbr { return; }
      if memo < 1 || memo > MAX_MODULE_NBR || modules[memo].role.None? { return; }
      modules[memo] := modules[memo].(heartbeatsMissed := 0);
    }

    method HandleRegistration(roleNbr: nat, supplement: seq<byte>, reachable: bool, delivered: bool)
      returns (reply: Reply)
      requires Valid()
      modifies modules
      ensures Valid()
      ensures Outcome(View(), reply)
           == Next(old(View()), Registration(roleNbr, ReadRegistration(supplement), reachable, delivered))
    {
      hide AfterString, AfterVectorList, FirstFree;
      var end, len := ParseString(supplement, Cursor(0, |supplement|));
      if end.None? { return Nothing; }
      var rest := SkipDeliveryVectorList(supplement, end.value);
      if rest.None? || !reachable { return Nothing; }
      if cellHeartbeats <= N6_COUNT { return NoCensus; }
      var moduleNbr := FindFreeNumber();
      if moduleNbr == 0 { return CellFull; }
      RememberModule(moduleNbr, roleNbr, supplement[..len]);
      if !delivered {
        ForgetModule(moduleNbr);
        return Nothing;
      }
      reply := YouAreIn(moduleNbr);
    }

    method FindFreeNumber() returns (moduleNbr: nat)
      requires Valid()
      ensures moduleNbr == FirstFree(View().slots, 1)
    {
      moduleNbr := 0;
      for i := 1 to SLOTS
        invariant moduleNbr == 0 ==> forall j :: 1 <= j < i ==> modules[j].role.Some?
        invariant moduleNbr > 0 ==>
          && 1 <= moduleNbr < SLOTS && modules[moduleNbr].role.None?
          && forall j :: 1 <= j < moduleNbr ==> modules[j].role.Some?
      {
        if modules[i].role.None? && moduleNbr == 0 { moduleNbr := i; }
      }
    }

    method HandleStopping(memo: int)
      requires Valid()
      modifies modules
      ensures Valid() && View() == Next(old(View()), Stopping(ParseModuleId(memo))).rs
    {
      var m := ParseModuleId(memo);
      if m.None? { return; }
      if m.value.unitNbr == unitNbr { ForgetModule(m.value.moduleNbr); }
    }

    /** Take down whom the first module to reconnect knows of. */
    method LoadCensus(census: seq<byte>)
      requires Valid()
      modifies this`undeclaredModulesCount, undeclaredModules
      ensures Valid() && View() == old(View()).(undeclaredCount := |census|,
          undeclared := Marked(old(View()).undeclared, census))
    {
      undeclaredModulesCount := |census|;
      var k := 0;
      while k < |census|
        invariant k <= |census| && undeclaredModulesCount == |census|
        invariant Marked(undeclaredModules[..], census[k..]) == Marked(old(undeclaredModules[..]), census)
      {
        var i := SignedByte(census[k]);
        if i > 0 && i <= MAX_MODULE_NBR { undeclaredModules[i] := true; }
        k := k + 1;
      }
    }

    method HandleReconnect(roleNbr: nat, supplement: seq<byte>, reachable: bool) returns (reply: Reply)
      requires Valid()
      modifies this`undeclaredModulesCount, undeclaredModules, modules
      ensures Valid()
      ensures Outcome(View(), reply) == Next(old(View()), Reconnection(roleNbr, ReadReconnect(supplement), reachable))
    {
      hide AfterString, AfterVectorList, AfterDeclaration, AfterRules, Marked, FirstFree, Beats;
      if |supplement| < 4 { return Nothing; }
      var moduleNbr: nat := supplement[2];
      var end, len := ParseString(supplement, Cursor(4, |supplement| - 4));
      if end.None? || !reachable { return Nothing; }
      if cellHeartbeats > N6_COUNT { return YouAreDead; }
      var next := SkipDeliveryVectorList(supplement, end.value);
      if next.None? { return Nothing; }
      next := SkipDeclaration(supplement, next.value);
      if next.None? || next.value.bytesRemaining == 0 { return Nothing; }
      var moduleCount := supplement[next.value.at];
      if next.value.bytesRemaining - 1 != moduleCount { return Nothing; }
      if undeclaredModulesCount > 0 && !undeclaredModules[moduleNbr] { return YouAreDead; }
      if moduleNbr == 0 { return NullPointer; }
      if modules[moduleNbr].role.Some? { return YouAreDead; }
      RememberModule(moduleNbr, roleNbr, supplement[4..4 + len]);
      if undeclaredModulesCount == 0 { LoadCensus(supplement[next.value.at + 1..]); }
      if undeclaredModules[moduleNbr] {
        undeclaredModules[moduleNbr] := false;
        undeclaredModulesCount := undeclaredModulesCount - 1;
      }
      reply := Reconnected;
    }
  }

  // ---------- registration messages as they are received ----------

  /** A registration message, as enqueueMamsMsg passes it on. */
  function RegistrationOf(m: MamsMsg, reachable: bool, delivered: bool): Event {
    Registration(m.tsif.roleNbr, ReadRegistration(m.supplement), reachable, delivered)
  }

  /** The registrar's own venture is the MIB's, whose roles are numbered from 1. */
  predicate RegistrarOf(mib: Mib, rs: Rs) {
    rs.ventureNbr in mib.ventures && rs.roles == mib.ventures[rs.ventureNbr].roles.Keys && 0 !in rs.roles
    && 0 < rs.ventureNbr <= MAX_VENTURE_NBR
  }

  /** The message layer lets nobody pass whose role its venture does not know, so a registration of the registrar's
      own venture takes its number from then on iff its role is not 0. */
  lemma OwnRegistrationTakesNumberIff(mib: Mib, rs: Rs, msg: seq<byte>, reachable: bool, delivered: bool)
    requires RegistrarOf(mib, rs) && Sized(rs) && Acceptable(mib, msg) && Parsed(msg).tsif.ventureNbr == rs.ventureNbr
    requires Next(rs, RegistrationOf(Parsed(msg), reachable, delivered)).reply.YouAreIn?
    ensures var e := RegistrationOf(Parsed(msg), reachable, delivered);
      Next(rs, e).rs.slots[AcceptedAs(rs, e).value].role.Some? <==> Parsed(msg).tsif.roleNbr > 0
  {
    hide WellFormed, Parsed, Authentic, ReadRegistration;
    SenderKnown(mib, msg);
    AcceptanceFillsFreeSlot(rs, RegistrationOf(Parsed(msg), reachable, delivered));
  }

  lemma SenderKnown(mib: Mib, msg: seq<byte>)
    requires Acceptable(mib, msg) && Parsed(msg).tsif.ventureNbr > 0
    ensures var from := Parsed(msg).tsif;
      from.ventureNbr in mib.ventures && (from.roleNbr > 0 ==> from.roleNbr in mib.ventures[from.ventureNbr].roles)
  {
    hide U16, Checksum.WordSum, TimeTagLength, Proves;
  }

  /** Two registrations in a row, as received and accepted: the second one gets the first one's number iff the first
      one is in role 0, like a registrar's messages, or comes from another venture and its role is not one of the
      registrar's. */
  lemma SameNumberTwiceIff(mib: Mib, rs: Rs, msg: seq<byte>, second: Event)
    requires RegistrarOf(mib, rs) && Sized(rs) && Acceptable(mib, msg) && second.Registration?
    requires var first := RegistrationOf(Parsed(msg), true, true);
      Next(rs, first).reply.YouAreIn? && Next(Next(rs, first).rs, second).reply.YouAreIn?
    ensures var first, from := RegistrationOf(Parsed(msg), true, true), Parsed(msg).tsif;
      Next(Next(rs, first).rs, second).reply == Next(rs, first).reply <==>
      from.roleNbr == 0 || (from.ventureNbr != rs.ventureNbr && from.roleNbr !in rs.roles)
  {
    hide WellFormed, Parsed, Authentic, ReadRegistration;
    var first := RegistrationOf(Parsed(msg), true, true);
    SameNumberTwiceIfUnknown(rs, first, second);
    if Parsed(msg).tsif.ventureNbr == rs.ventureNbr { SenderKnown(mib, msg); }
  }

  /** Such a message can be built, and is received: any registration of role 0 from a unit of the venture. Sent
      twice, it is given the same number twice. */
  lemma RoleZeroRegistersTwice(mib: Mib, rs: Rs, unitNbr: nat, memo: int, ept: seq<byte>, nonce: seq<byte>, time: nat)
    requires RegistrarOf(mib, rs) && Sized(rs) && rs.cellHeartbeats > N6_COUNT && FirstFree(rs.slots, 1) > 0
    requires unitNbr <= Units.MAX_UNIT_NBR && unitNbr in mib.ventures[rs.ventureNbr].units
    requires var app := mib.ventures[rs.ventureNbr].app;
      (app.privateKeyLen > 0 <==> app.publicKeyLen > 0) && (app.privateKeyLen > 0 ==> GoodName(app.name))
    requires |nonce| == 4 && -0x8000_0000 <= memo < 0x8000_0000 && |ept| < 0x8000 && 0 !in ept
    ensures var from := MamsMessage.Interface(rs.ventureNbr, unitNbr, 0);
      var msg := Pdu(mib.ventures[rs.ventureNbr].app, from, MODULE_REGISTRATION, memo, ept + [0, 0], nonce, time);
      && Acceptable(mib, msg) && Parsed(msg) == MamsMsg(MODULE_REGISTRATION, from, memo, ept + [0, 0])
      && var e := RegistrationOf(Parsed(msg), true, true);
         && Next(rs, e).reply == YouAreIn(FirstFree(rs.slots, 1))
         && Next(Next(rs, e).rs, e).reply == YouAreIn(FirstFree(rs.slots, 1))
  {
    hide Pdu, Acceptable, Parsed, FirstFree;
    var from, s := MamsMessage.Interface(rs.ventureNbr, unitNbr, 0), ept + [0, 0];
    RoundTrip(mib, mib, from, MODULE_REGISTRATION, memo, s, nonce, time);
    ReadsEndpoint(ept);
    var e := Registration(0, Some(ept), true, true);
    var after := Next(rs, e).rs;
    FirstFreeAgain(rs.slots, after.slots);
  }

  lemma FirstFreeAgain(was: seq<Slot>, now: seq<Slot>)
    requires |was| == |now| && forall i :: 0 <= i < |was| ==> (was[i].role.Some? <==> now[i].role.Some?)
    ensures FirstFree(was, 1) == FirstFree(now, 1)
  {
    var m, n := FirstFree(was, 1), FirstFree(now, 1);
  }

  lemma ReadsEndpoint(ept: seq<byte>)
    requires 0 !in ept
    ensures ReadRegistration(ept + [0, 0]) == Some(ept)
  {
    StringIsSkipped([], ept, [0]);
    assert [] + (ept + [0]) + [0] == ept + [0, 0];
    assert (ept + [0, 0])[0..|ept|] == ept;
  }

  // ---------- a module and its registrar together ----------

  /** A registration message that carries a module's whole contact summary gives the registrar the module's endpoint
      name, whatever follows; one that is cut short anywhere is ignored. */
  lemma RegistrationIsReadIffWhole(sap: Sap, tail: seq<byte>, n: nat)
    requires Printable(sap) && |sap.delivVectors| < 256 && n <= |Summary(sap) + tail|
    ensures ReadRegistration((Summary(sap) + tail)[..n]) == if n < |Summary(sap)| then None else Some(sap.mamsEpt)
  {
    var vs, count := VectorsBytes(sap.delivVectors), [Lo(|sap.delivVectors|)];
    var s := Summary(sap) + tail;
    SummaryIs(sap);
    hide Summary, AfterString, AfterVectors, VectorsBytes;
    assert s == [] + (sap.mamsEpt + [0]) + (count + vs + tail);
    StringIsSkipped([], sap.mamsEpt, count + vs + tail);
    assert s == (sap.mamsEpt + [0] + count) + vs + tail;
    VectorsAreSkipped(sap.mamsEpt + [0] + count, sap.delivVectors, tail);
    assert s[|sap.mamsEpt| + 1] == |sap.delivVectors|;
    assert AfterVectorList(s, |sap.mamsEpt| + 1) == Some(|Summary(sap)|);
    StringInPrefix(s, 0, n);
    if n > |sap.mamsEpt| {
      VectorListInPrefix(s, |sap.mamsEpt| + 1, n);
      assert s[..n][0..|sap.mamsEpt|] == sap.mamsEpt;
    }
  }

  /** A reconnect message that carries a module's whole contact summary and declaration, then a count and as many module
      numbers as that says, tells the registrar the module's number, endpoint name and module list. With fewer numbers
      or more, or cut short after the endpoint name, it has no module list; cut short before, it is ignored. */
  lemma ReconnectIsReadIffWhole(sap: Sap, tail: seq<byte>, n: nat)
    requires Printable(sap) && |sap.delivVectors| < 256
    requires |sap.subscriptions| < 0x10000 && |sap.invitations| < 0x10000
    requires n <= |ReconnectStart(sap) + tail|
    ensures var s, at := ReconnectStart(sap) + tail, |ReconnectStart(sap)|;
      ReadReconnect(s[..n])
      == if n < 4 + |sap.mamsEpt| + 1 then None
         else Some(Request(Lo(sap.moduleNbr), sap.mamsEpt,
                           if n > at && n - at - 1 == s[at] then Some(s[at + 1..n]) else None))
  {
    hide Summary, Declaration, ModuleListAt, AfterString;
    var s := ReconnectStart(sap) + tail;
    RegistrarFindsModuleList(sap, tail);
    if n >= 4 {
      StringInPrefix(s, 4, n);
      ModuleListInPrefix(s, n);
      if n > 4 + |sap.mamsEpt| {
        assert s[..n][4..4 + |sap.mamsEpt|] == sap.mamsEpt;
        assert s[..n][2] == Lo(sap.moduleNbr);
      }
    }
  }

  /** What a module sends is always correctly formed: while the registrar is still taking its census, a module of a
      known role is accepted under its old number iff that number is free and, if others are already expected, it is
      one of them. */
  lemma ModuleReconnectsIff(rs: Rs, sap: Sap, modules: seq<byte>)
    requires Sized(rs) && rs.cellHeartbeats <= N6_COUNT
    requires Printable(sap) && |sap.delivVectors| < 256 && |modules| < 256
    requires |sap.subscriptions| < 0x10000 && |sap.invitations| < 0x10000
    requires 1 <= sap.moduleNbr <= MAX_MODULE_NBR
    ensures var s := ReconnectSupplement(sap, modules);
      && ReadReconnect(s) == Some(Request(sap.moduleNbr, sap.mamsEpt, Some(modules)))
      && var o := Next(rs, Reconnection(sap.roleNbr, ReadReconnect(s), true));
         && (o.reply == Reconnected <==>
               rs.slots[sap.moduleNbr].role.None? && (rs.undeclaredCount > 0 ==> rs.undeclared[sap.moduleNbr]))
         && (o.reply != Reconnected ==> o.reply == YouAreDead && o.rs == rs)
         && (o.reply == Reconnected ==> o.rs.slots[sap.moduleNbr].ept == Some(sap.mamsEpt))
  {
    hide ReadReconnect, Summary, Declaration;
    var s, tail := ReconnectSupplement(sap, modules), [Lo(|modules|)] + modules;
    assert s == ReconnectStart(sap) + tail && s[..|s|] == s;
    SummaryIs(sap);
    ResidueKeeps(sap.moduleNbr, 0x100);
    ReconnectIsReadIffWhole(sap, tail, |s|);
    assert s[|ReconnectStart(sap)|] == Lo(|modules|) == |modules|;
    assert s[|ReconnectStart(sap)| + 1..|s|] == modules;
  }
}
