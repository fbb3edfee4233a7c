/** The event queue of an AMS service access point: one list for all priorities, with a table of
    pointers to the last event of each priority. */
module EventQueue {
  import opened Lists

  const NBR_OF_PRIORITY_LEVELS := 16

  datatype MsgType = NoMsg | Unary | Query | Reply

  /** An element of the list, identified by reference. An awaited reply is put at the head of the
      list without regard to priority and is never entered in the table. */
  class Element {
    const evt: int
    const priority: nat
    const awaited: bool

    constructor (evt: int, priority: nat, awaited: bool)
      ensures this.evt == evt && this.priority == priority && this.awaited == awaited
    {
      this.evt, this.priority, this.awaited := evt, priority, awaited;
    }
  }

  predicate Is(e: Element, p: int) { !e.awaited && e.priority == p }

  // ---------- the list as a value ----------

  /** Lower numbers first, leaving awaited replies aside. */
  ghost predicate Sorted(q: seq<Element>) {
    forall i, j :: 0 <= i < j < |q| && !q[i].awaited && !q[j].awaited ==> q[i].priority <= q[j].priority
  }

  /** The events of priority p, in order, leaving awaited replies aside. */
  function Of(q: seq<Element>, p: int): (r: seq<Element>)
    ensures r == [] <==> forall i :: 0 <= i < |q| ==> !Is(q[i], p)
  {
    if q == [] then []
    else Of(q[..|q| - 1], p) + if Is(q[|q| - 1], p) then [q[|q| - 1]] else []
  }

  lemma {:induction false} OfConcat(a: seq<Element>, b: seq<Element>, p: int)
    ensures Of(a + b, p) == Of(a, p) + Of(b, p)
  {
    if b == [] {
      assert a + b == a;
    } else {
      var front, last := b[..|b| - 1], b[|b| - 1];
      OfConcat(a, front, p);
      assert (a + b)[..|a + b| - 1] == a + front;
      var end := if Is(last, p) then [last] else [];
      assert Of(a + b, p) == Of(a + front, p) + end;
      assert Of(b, p) == Of(front, p) + end;
      hide Of;
      assert Of(a, p) + Of(front, p) + end == Of(a, p) + (Of(front, p) + end);
    }
  }

  lemma OfOne(e: Element, p: int)
    ensures Of([e], p) == if Is(e, p) then [e] else []
  {
    assert [e][..0] == [];
  }

  /** The last event of priority p. */
  function LastOf(q: seq<Element>, p: int): Element? {
    if Of(q, p) == [] then null else Of(q, p)[|Of(q, p)| - 1]
  }

  lemma {:induction false} LastOfAt(q: seq<Element>, p: int) returns (k: nat)
    requires LastOf(q, p) != null
    ensures k < |q| && LastOf(q, p) == q[k] && Is(q[k], p) && forall j :: k < j < |q| ==> !Is(q[j], p)
  {
    if Is(q[|q| - 1], p) {
      k := |q| - 1;
    } else {
      k := LastOfAt(q[..|q| - 1], p);
    }
  }

  /** Where an event of priority p goes: after the last one of equal or higher precedence. */
  function Position(q: seq<Element>, p: int): (k: nat)
    ensures k <= |q|
    ensures k > 0 ==> !q[k - 1].awaited && q[k - 1].priority <= p
    ensures forall j :: k <= j < |q| && !q[j].awaited ==> q[j].priority > p
  {
    if q == [] then 0
    else if !q[|q| - 1].awaited && q[|q| - 1].priority <= p then |q|
    else Position(q[..|q| - 1], p)
  }

  /** The list with e added. Priority zero is for events that shut event loops down. */
  function Enqueued(q: seq<Element>, e: Element): seq<Element> {
    if e.awaited || e.priority == 0 then [e] + q
    else q[..Position(q, e.priority)] + [e] + q[Position(q, e.priority)..]
  }

  lemma EnqueuedSorted(q: seq<Element>, e: Element)
    requires Sorted(q)
    ensures Sorted(Enqueued(q, e))
  {
    var k, r := Position(q, e.priority), Enqueued(q, e);
    if !e.awaited && e.priority != 0 {
      forall i | 0 <= i < k && !q[i].awaited ensures q[i].priority <= e.priority {
        assert q[i].priority <= q[k - 1].priority;
      }
      forall i, j | 0 <= i < j < |r| && !r[i].awaited && !r[j].awaited ensures r[i].priority <= r[j].priority {
        var x := if i < k then i else i - 1;
        var y := if j < k then j else j - 1;
        if i != k { assert r[i] == q[x]; }
        if j != k { assert r[j] == q[y]; }
      }
    }
  }

  lemma {:induction false} NoneOf(q: seq<Element>, p: int)
    requires forall e :: e in q ==> !Is(e, p)
    ensures Of(q, p) == []
  {
    if q != [] {
      assert q[|q| - 1] in q;
      NoneOf(q[..|q| - 1], p);
    }
  }

  lemma OfThree(a: seq<Element>, e: Element, b: seq<Element>, p: int)
    ensures Of(a + [e] + b, p) == Of(a, p) + Of([e], p) + Of(b, p)
  {
    hide Of;
    OfConcat(a + [e], b, p);
    OfConcat(a, [e], p);
  }

  lemma InsertedOf(q: seq<Element>, e: Element, p: int)
    ensures var k := Position(q, e.priority);
      Of(q[..k] + [e] + q[k..], p) == Of(q, p) + if Is(e, p) then [e] else []
  {
    hide Of;
    var k := Position(q, e.priority);
    var a, b := q[..k], q[k..];
    if Is(e, p) { NoneOf(b, p); }
    hide Position;
    assert q == a + b;
    OfOne(e, p);
    OfConcat(a, b, p);
    OfThree(a, e, b, p);
  }

  /** A new event is last of its priority, first if that is zero; an awaited reply is neither. */
  lemma EnqueuedOf(q: seq<Element>, e: Element, p: int)
    ensures Of(Enqueued(q, e), p)
         == if !Is(e, p) then Of(q, p) else if p == 0 then [e] + Of(q, p) else Of(q, p) + [e]
  {
    hide Of;
    OfOne(e, p);
    if e.awaited || e.priority == 0 {
      OfConcat([e], q, p);
    } else {
      InsertedOf(q, e, p);
    }
  }

  lemma DequeuedOf(q: seq<Element>, p: int)
    requires q != []
    ensures Of(q, p) == (if Is(q[0], p) then [q[0]] else []) + Of(q[1..], p)
  {
    assert q == [q[0]] + q[1..];
    OfOne(q[0], p);
    OfConcat([q[0]], q[1..], p);
  }

  // ---------- runs ----------

  datatype Op = Enqueue(e: Element) | Dequeue

  /** What waits, and all that ever arrived and departed, in order. */
  datatype History = History(waiting: seq<Element>, arrived: seq<Element>, departed: seq<Element>)

  function After(ops: seq<Op>): History {
    if ops == [] then History([], [], [])
    else
      var h := After(ops[..|ops| - 1]);
      match ops[|ops| - 1]
      case Enqueue(e) => History(Enqueued(h.waiting, e), h.arrived + [e], h.departed)
      case Dequeue =>
        if h.waiting == [] then h else History(h.waiting[1..], h.arrived, h.departed + [h.waiting[0]])
  }

  ghost predicate Fair(h: History, p: int) {
    && Sorted(h.waiting)
    && Of(h.arrived, p) == Of(h.departed, p) + Of(h.waiting, p)
    && multiset(h.arrived) == multiset(h.departed) + multiset(h.waiting)
  }

  lemma ArrivalKeeps(h: History, e: Element, p: int)
    requires Fair(h, p) && p != 0
    ensures Fair(History(Enqueued(h.waiting, e), h.arrived + [e], h.departed), p)
  {
    hide Of, Sorted, Enqueued;
    EnqueuedSorted(h.waiting, e);
    EnqueuedOf(h.waiting, e, p);
    OfConcat(h.arrived, [e], p);
    OfOne(e, p);
    EnqueuedMembers(h.waiting, e);
  }

  lemma EnqueuedMembers(q: seq<Element>, e: Element)
    ensures multiset(Enqueued(q, e)) == multiset(q) + multiset{e}
  {
    var k := Position(q, e.priority);
    assert q == q[..k] + q[k..];
  }

  lemma DepartureKeeps(h: History, p: int)
    requires Fair(h, p) && h.waiting != []
    ensures Fair(History(h.waiting[1..], h.arrived, h.departed + [h.waiting[0]]), p)
  {
    hide Of;
    var e, rest := h.waiting[0], h.waiting[1..];
    assert Sorted(rest);
    assert Of(h.arrived, p) == Of(h.departed + [e], p) + Of(rest, p) by {
      hide Sorted;
      DequeuedOf(h.waiting, p);
      OfConcat(h.departed, [e], p);
      OfOne(e, p);
    }
    assert h.waiting == [e] + rest;
  }

  /** On every run: the queue is sorted by priority; events of equal nonzero priority depart in the order
      they arrived, so that those departed are the first to have arrived and those waiting are the others; and
      no event is lost or doubled. */
  lemma {:induction false} FirstInFirstOut(ops: seq<Op>, p: int)
    requires p != 0
    ensures Fair(After(ops), p)
  {
    if ops != [] {
      hide Fair, Enqueued;
      var h := After(ops[..|ops| - 1]);
      FirstInFirstOut(ops[..|ops| - 1], p);
      match ops[|ops| - 1] {
        case Enqueue(e) => ArrivalKeeps(h, e, p);
        case Dequeue => if h.waiting != [] { DepartureKeeps(h, p); }
      }
    }
  }

  /** The event that arrives goes to the head of the queue: the reply a query waits for, an event that shuts a loop
      down, and any other one that finds none of equal or higher precedence, except an awaited reply. */
  ghost predicate ToHead(q: seq<Element>, x: Element) {
    x.awaited || x.priority == 0 || forall i :: 0 <= i < |q| && !q[i].awaited ==> q[i].priority > x.priority
  }

  lemma NotToHead(q: seq<Element>, x: Element)
    ensures !ToHead(q, x) <==>
      && !x.awaited && x.priority != 0
      && exists w :: w in q && !w.awaited && w.priority <= x.priority
  {
    if w :| w in q && !w.awaited && w.priority <= x.priority {
      var i :| 0 <= i < |q| && q[i] == w;
    }
  }

  lemma HeadAfter(q: seq<Element>, x: Element)
    requires q != []
    ensures Enqueued(q, x)[0] == if ToHead(q, x) then x else q[0]
  {
    var k := Position(q, x.priority);
    if k > 0 { assert !q[k - 1].awaited; }
  }

  lemma AfterOneMore(ops: seq<Op>, n: nat)
    requires n < |ops|
    ensures var h := After(ops[..n]);
      After(ops[..n + 1]) == match ops[n]
                             case Enqueue(e) => History(Enqueued(h.waiting, e), h.arrived + [e], h.departed)
                             case Dequeue =>
                               if h.waiting == [] then h
                               else History(h.waiting[1..], h.arrived, h.departed + [h.waiting[0]])
  {
    assert ops[..n + 1][..n] == ops[..n];
  }

  /** What arrived to the head of the queue is still there as long as events only arrive and none goes to the head. */
  lemma {:induction false} HeadOrOvertaken(ops: seq<Op>, i: nat, j: nat)
    requires i < j <= |ops| && ops[i].Enqueue? && ToHead(After(ops[..i]).waiting, ops[i].e)
    requires forall n :: i < n < j ==> ops[n].Enqueue? && ops[n].e != ops[i].e
    ensures var q := After(ops[..j]).waiting;
      && q != []
      && (q[0] == ops[i].e <==> forall n :: i < n < j ==> !ToHead(After(ops[..n]).waiting, ops[n].e))
    decreases j
  {
    hide After, ToHead, Enqueued;
    AfterOneMore(ops, j - 1);
    var q := After(ops[..j - 1]).waiting;
    if i < j - 1 {
      HeadOrOvertaken(ops, i, j - 1);
      HeadAfter(q, ops[j - 1].e);
      EnqueuedMembers(q, ops[j - 1].e);
    } else {
      ArrivesAtHead(q, ops[i].e);
    }
  }

  lemma ArrivesAtHead(q: seq<Element>, x: Element)
    requires ToHead(q, x)
    ensures Enqueued(q, x) == [x] + q
  {
    var k := Position(q, x.priority);
    if k > 0 { assert !q[k - 1].awaited; }
  }

  /** On every run the reply that a query waits for is the very next event to be taken from the queue, whatever waits
      there, unless an event goes to the head in the meantime; so is an event that shuts a loop down. */
  lemma AwaitedReplyIsNextIff(ops: seq<Op>, i: nat, j: nat)
    requires i < j < |ops| && ops[i].Enqueue? && (ops[i].e.awaited || ops[i].e.priority == 0) && ops[j].Dequeue?
    requires forall n :: i < n < j ==> ops[n].Enqueue? && ops[n].e != ops[i].e
    ensures After(ops[..i + 1]).waiting == [ops[i].e] + After(ops[..i]).waiting
    ensures After(ops[..j + 1]).departed == After(ops[..j]).departed + [ops[i].e] <==>
            forall n :: i < n < j ==>
              && !ops[n].e.awaited && ops[n].e.priority != 0
              && exists w :: w in After(ops[..n]).waiting && !w.awaited && w.priority <= ops[n].e.priority
  {
    hide After;
    HeadOrOvertaken(ops, i, j);
    AfterOneMore(ops, j);
    AfterOneMore(ops, i);
    var h := After(ops[..j]);
    assert (h.departed + [h.waiting[0]])[|h.departed|] == h.waiting[0];
    assert (h.departed + [ops[i].e])[|h.departed|] == ops[i].e;
    forall n | i < n < j { NotToHead(After(ops[..n]).waiting, ops[n].e); }
  }

  // ---------- the service access point ----------

  ghost predicate InOrder(q: seq<Element>) {
    NoDup(q) && Sorted(q) && forall e :: e in q ==> e.priority < NBR_OF_PRIORITY_LEVELS
  }

  lemma EnqueuedInOrder(q: seq<Element>, e: Element)
    requires InOrder(q) && e !in q && e.priority < NBR_OF_PRIORITY_LEVELS
    ensures InOrder(Enqueued(q, e))
  {
    hide Sorted;
    EnqueuedSorted(q, e);
    InsertedNoDup(q, e, 0);
    InsertedNoDup(q, e, Position(q, e.priority));
    assert q[..0] + [e] + q[0..] == [e] + q;
  }

  lemma InsertedNoDup(q: seq<Element>, e: Element, k: nat)
    requires NoDup(q) && e !in q && k <= |q|
    ensures NoDup(q[..k] + [e] + q[k..])
    ensures forall x :: x in q[..k] + [e] + q[k..] ==> x == e || x in q
  {
  }

  class AmsSap {
    var open: bool
    var queue: seq<Element>
    const lastForPriority: array<Element?>
    var queryNbr: int

    ghost predicate Valid()
      reads this, lastForPriority
    {
      && lastForPriority.Length == NBR_OF_PRIORITY_LEVELS
      && InOrder(queue)
      && (forall p :: 0 <= p < NBR_OF_PRIORITY_LEVELS ==> lastForPriority[p] == LastOf(queue, p))
    }

    constructor ()
      ensures Valid() && fresh(lastForPriority)
      ensures open && queue == [] && queryNbr == 0
    {
      open, queue, queryNbr := true, [], 0;
      lastForPriority := new Element?[NBR_OF_PRIORITY_LEVELS](_ => null);
    }

    /** The position just after element e. */
    method PlaceAfter(e: Element) returns (k: nat)
      requires e in queue
      ensures 0 < k <= |queue| && queue[k - 1] == e
    {
      k := 1;
      while queue[k - 1] != e
        invariant 0 < k <= |queue| && e !in queue[..k - 1]
        decreases |queue| - k
      {
        k := k + 1;
      }
    }

    /** Insert e after the last event of its priority or, if there is none, of the next more urgent
        one that has any. */
    method InsertAmsEvent(e: Element)
      requires Valid() && e !in queue && !e.awaited && 0 < e.priority < NBR_OF_PRIORITY_LEVELS
      modifies this`queue, lastForPriority
      ensures Valid() && queue == Enqueued(old(queue), e)
    {
      hide LastOf, Sorted, NoDup;
      var i: int := e.priority;
      while i >= 0 && lastForPriority[i] == null
        invariant -1 <= i <= e.priority
        invariant forall j :: i < j <= e.priority ==> LastOf(queue, j) == null
      {
        i := i - 1;
      }
      PositionFound(queue, e.priority, i);
      EnqueuedInOrder(queue, e);
      TableAfter(queue, e);
      if i < 0 {
        queue := [e] + queue;
      } else {
        var k := PlaceAfter(lastForPriority[i]);
        SamePlace(queue, k - 1, Position(queue, e.priority) - 1);
        queue := queue[..k] + [e] + queue[k..];
      }
      assert queue == Enqueued(old(queue), e);
      lastForPriority[e.priority] := e;
    }

    /** An event arrives. The reply a query waits for goes to the head of the queue and ends the wait. */
    method EnqueueAmsEvent(evt: int, responseNbr: int, priority: nat, msgType: MsgType) returns (elt: Element?)
      requires Valid() && priority < NBR_OF_PRIORITY_LEVELS
      modifies this`queue, this`queryNbr, lastForPriority
      ensures Valid() && (elt == null <==> !open)
      ensures elt == null ==> queue == old(queue) && queryNbr == old(queryNbr)
      ensures elt != null ==>
        && fresh(elt) && elt.evt == evt && elt.priority == priority
        && (elt.awaited <==> priority != 0 && old(queryNbr) != 0 && msgType == Reply && responseNbr == old(queryNbr))
        && queue == Enqueued(old(queue), elt)
        && queryNbr == if elt.awaited then 0 else old(queryNbr)
      ensures elt != null && (elt.awaited || priority == 0) ==> queue == [elt] + old(queue)
      ensures elt != null && !elt.awaited && priority != 0 ==>
        exists k :: 0 <= k <= |old(queue)| && queue == old(queue)[..k] + [elt] + old(queue)[k..]
          && (k > 0 ==> !old(queue)[k - 1].awaited && old(queue)[k - 1].priority <= priority)
          && forall j :: k <= j < |old(queue)| && !old(queue)[j].awaited ==> old(queue)[j].priority > priority
    {
      if !open { return null; }
      var awaited := priority != 0 && queryNbr != 0 && msgType == Reply && responseNbr == queryNbr;
      var e := new Element(evt, priority, awaited);
      elt := e;
      EnqueuedInOrder(queue, e);
      TableAfter(queue, e);
      if priority == 0 {
        queue := [e] + queue;
        if lastForPriority[0] == null {
          lastForPriority[0] := e;
        }
      } else if queryNbr != 0 {
        if awaited {
          queue := [e] + queue;
          queryNbr := 0;
        } else {
          InsertAmsEvent(e);
        }
      } else {
        InsertAmsEvent(e);
      }
    }

    method NoteEventDequeued(elt: Element)
      requires lastForPriority.Length == NBR_OF_PRIORITY_LEVELS
      modifies lastForPriority
      ensures forall p :: 0 <= p < NBR_OF_PRIORITY_LEVELS ==>
        lastForPriority[p] == if old(lastForPriority[p]) == elt
            && (forall j :: 0 <= j < p ==> old(lastForPriority[j]) != elt)
                              then null else old(lastForPriority[p])
    {
      var i := 0;
      while i < NBR_OF_PRIORITY_LEVELS
        invariant 0 <= i <= NBR_OF_PRIORITY_LEVELS
        invariant forall j :: 0 <= j < NBR_OF_PRIORITY_LEVELS ==> lastForPriority[j] == old(lastForPriority[j])
        invariant forall j :: 0 <= j < i ==> lastForPriority[j] != elt
      {
        if lastForPriority[i] == elt {
          lastForPriority[i] := null;
          return;
        }
        i := i + 1;
      }
    }

    /** Take the event at the head of the queue. */
    method Dequeue() returns (elt: Element?)
      requires Valid()
      modifies this`queue, lastForPriority
      ensures Valid()
      ensures if old(queue) == [] then elt == null && queue == []
              else elt == old(queue)[0] && queue == old(queue)[1..]
    {
      hide LastOf, Sorted, NoDup;
      if queue == [] { return null; }
      elt := queue[0];
      ghost var was := queue;
      HeadDequeued(was);
      NoteEventDequeued(elt);
      queue := queue[1..];
    }
  }

  /** The table's entry for p once e has been added. */
  function LastAfter(q: seq<Element>, e: Element, p: int): Element? {
    if Is(e, p) && (p != 0 || LastOf(q, 0) == null) then e else LastOf(q, p)
  }

  lemma TableAfter(q: seq<Element>, e: Element)
    ensures forall p :: LastOf(Enqueued(q, e), p) == LastAfter(q, e, p)
  {
    hide Enqueued;
    forall p ensures LastOf(Enqueued(q, e), p) == LastAfter(q, e, p) {
      EnqueuedOf(q, e, p);
      EnqueuedOf(q, e, 0);
    }
  }

  /** Without its head the queue is still in order, and only the head's own entry in the table can have been the
      head, in which case it was the only one of its priority. */
  lemma HeadDequeued(q: seq<Element>)
    requires InOrder(q) && q != []
    ensures InOrder(q[1..])
    ensures forall p :: LastOf(q[1..], p) == if LastOf(q, p) == q[0] then null else LastOf(q, p)
    ensures forall p, r :: LastOf(q, p) == q[0] && LastOf(q, r) == q[0] ==> p == r
  {
    forall p ensures LastOf(q[1..], p) == if LastOf(q, p) == q[0] then null else LastOf(q, p) {
      DequeuedOf(q, p);
      OnlyOwnPriority(q, p);
    }
    forall p | LastOf(q, p) == q[0] ensures p == q[0].priority { OnlyOwnPriority(q, p); }
  }

  lemma SamePlace(q: seq<Element>, i: nat, j: nat)
    requires NoDup(q) && i < |q| && j < |q| && q[i] == q[j]
    ensures i == j
  {
  }

  lemma OnlyOwnPriority(q: seq<Element>, p: int)
    requires q != [] && NoDup(q)
    ensures LastOf(q, p) == q[0] ==> Is(q[0], p) && Of(q[1..], p) == []
  {
    if LastOf(q, p) == q[0] {
      var k := LastOfAt(q, p);
      assert k == 0;
    }
  }

  /** The table lookup finds the right place. */
  lemma PositionFound(q: seq<Element>, p: nat, i: int)
    requires Sorted(q) && -1 <= i <= p
    requires forall j :: i < j <= p ==> LastOf(q, j) == null
    ensures i < 0 ==> Position(q, p) == 0
    ensures i >= 0 && LastOf(q, i) != null ==>
      Position(q, p) > 0 && LastOf(q, i) in q && q[Position(q, p) - 1] == LastOf(q, i)
  {
    var k := Position(q, p);
    if k > 0 {
      assert Is(q[k - 1], q[k - 1].priority);
      assert LastOf(q, q[k - 1].priority) != null;
      assert q[k - 1].priority <= i;
    }
    if i >= 0 && LastOf(q, i) != null {
      var at := LastOfAt(q, i);
      assert at < k;
      assert q[at].priority <= q[k - 1].priority;
    }
  }
}
