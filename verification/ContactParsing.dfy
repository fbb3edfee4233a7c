/** How a module reads the contact summary and declaration of another one, which the sender wrote as module
    ContactSummary says. */
module ContactParsing {
  import opened Bytes
  import opened ContactSummary
  import opened Options

  // ---------- endpoints ----------

  /** The offset of the first octet from i on that is one of stops; |s| if there is none. */
  function Find(s: seq<byte>, i: nat, stops: seq<byte>): (r: nat)
    requires i <= |s|
    ensures i <= r <= |s|
    ensures r < |s| ==> s[r] in stops
    ensures forall j :: i <= j < r ==> s[j] !in stops
    decreases |s| - i
  {
    if i == |s| || s[i] in stops then i else Find(s, i + 1, stops)
  }

  /** One endpoint and the offset behind it. */
  datatype Endpoint = Endpoint(tsif: Interface, next: nat)

  const SEPARATORS: seq<byte> := [COMMA, 0]

  /** The name of a transport service up to an equals sign, and then an endpoint name up to a comma or a NUL. */
  function EndpointFrom(s: seq<byte>, i: nat): (r: Option<Endpoint>)
    requires i <= |s|
    ensures r.Some? ==> i < r.value.next <= |s|
  {
    var e := Find(s, i, [EQUALS]);
    if e == |s| then None
    else
      var z := Find(s, e + 1, SEPARATORS);
      if z == |s| then None else Some(Endpoint(Interface(s[i..e], s[e + 1..z]), z + 1))
  }

  method ParseAmsEndpoint(s: seq<byte>, from: nat) returns (r: Option<Endpoint>)
    requires from <= |s|
    ensures r == EndpointFrom(s, from)
  {
    var cursor: nat, ept: nat, eptLen: nat, bytesRemaining: nat := from, 0, 0, |s| - from;
    while bytesRemaining > 0
      invariant from <= cursor && cursor + bytesRemaining == |s|
      invariant ept == 0 ==> eptLen == 0 && Find(s, from, [EQUALS]) == Find(s, cursor, [EQUALS])
      invariant ept > 0 ==>
        && from < ept && cursor == ept + eptLen && Find(s, from, [EQUALS]) == ept - 1
        && Find(s, ept, SEPARATORS) == Find(s, cursor, SEPARATORS)
    {
      if ept == 0 {
        if s[cursor] == EQUALS { ept := cursor + 1; }
      } else if s[cursor] == COMMA || s[cursor] == 0 {
        return Some(Endpoint(Interface(s[from..ept - 1], s[ept..ept + eptLen]), cursor + 1));
      } else {
        eptLen := eptLen + 1;
      }
      cursor, bytesRemaining := cursor + 1, bytesRemaining - 1;
    }
    r := None;
  }

  // ---------- vectors ----------

  datatype Parsed<T> = Parsed(items: seq<T>, next: nat)

  /** Items read first, in front of the rest, if the rest can be read. */
  function Then<T>(items: seq<T>, rest: Option<Parsed<T>>): Option<Parsed<T>> {
    if rest.None? then None else Some(Parsed(items + rest.value.items, rest.value.next))
  }

  lemma ThenThen<T>(a: seq<T>, b: seq<T>, rest: Option<Parsed<T>>)
    ensures Then(a, Then(b, rest)) == Then(a + b, rest)
    ensures Then([], rest) == rest
  {
    if rest.Some? {
      assert a + (b + rest.value.items) == (a + b) + rest.value.items;
      assert [] + rest.value.items == rest.value.items;
    }
  }

  function InterfacesFrom(s: seq<byte>, i: nat, count: nat): (r: Option<Parsed<Interface>>)
    requires i <= |s|
    ensures r.Some? ==> r.value.next <= |s|
    decreases count
  {
    if count == 0 then Some(Parsed([], i))
    else
      var e := EndpointFrom(s, i);
      if e.None? then None else Then([e.value.tsif], InterfacesFrom(s, e.value.next, count - 1))
  }

  /** A vector's first octet has its number and how many endpoints follow. */
  function VectorFrom(s: seq<byte>, i: nat): (r: Option<Parsed<DeliveryVector>>)
    requires i <= |s|
    ensures r.Some? ==> r.value.next <= |s|
  {
    if i == |s| then None
    else
      var v := InterfacesFrom(s, i + 1, s[i] % 16);
      if v.None? then None else Some(Parsed([DeliveryVector(s[i] / 16, v.value.items)], v.value.next))
  }

  function VectorsFrom(s: seq<byte>, i: nat, count: nat): (r: Option<Parsed<DeliveryVector>>)
    requires i <= |s|
    ensures r.Some? ==> r.value.next <= |s|
    decreases count
  {
    if count == 0 then Some(Parsed([], i))
    else
      var v := VectorFrom(s, i);
      if v.None? then None else Then(v.value.items, VectorsFrom(s, v.value.next, count - 1))
  }

  function Positive(x: int): nat { if x < 0 then 0 else x }

  /** The number of vectors is read through a plain (signed) char: from 128 on there seem to be none. */
  function VectorListFrom(s: seq<byte>, i: nat): (r: Option<Parsed<DeliveryVector>>)
    requires i <= |s|
    ensures r.Some? ==> r.value.next <= |s|
  {
    if i == |s| then None else VectorsFrom(s, i + 1, Positive(SignedByte(s[i])))
  }

  method ParseDeliveryVector(s: seq<byte>, from: nat) returns (r: Option<Parsed<DeliveryVector>>)
    requires from <= |s|
    ensures r == VectorFrom(s, from)
  {
    if |s| - from < 1 { return None; }
    var vectorNbr: nat, pointCount: nat := s[from] / 16, s[from] % 16;
    var cursor: nat, interfaces := from + 1, [];
    ThenThen([], [], InterfacesFrom(s, cursor, pointCount));
    while pointCount > 0
      invariant cursor <= |s|
      invariant InterfacesFrom(s, from + 1, s[from] % 16) == Then(interfaces, InterfacesFrom(s, cursor, pointCount))
    {
      var point := ParseAmsEndpoint(s, cursor);
      if point.None? { return None; }
      ThenThen(interfaces, [point.value.tsif], InterfacesFrom(s, point.value.next, pointCount - 1));
      interfaces, cursor := interfaces + [point.value.tsif], point.value.next;
      pointCount := pointCount - 1;
    }
    assert interfaces + [] == interfaces;
    r := Some(Parsed([DeliveryVector(vectorNbr, interfaces)], cursor));
  }

  method ParseDeliveryVectorList(s: seq<byte>, from: nat) returns (r: Option<Parsed<DeliveryVector>>)
    requires from <= |s|
    ensures r == VectorListFrom(s, from)
  {
    if |s| - from < 1 { return None; }
    var vectorCount := SignedByte(s[from]);
    var cursor: nat, vectors := from + 1, [];
    ThenThen([], [], VectorsFrom(s, cursor, Positive(vectorCount)));
    while vectorCount > 0
      invariant cursor <= |s|
      invariant VectorListFrom(s, from) == Then(vectors, VectorsFrom(s, cursor, Positive(vectorCount)))
    {
      var vector := ParseDeliveryVector(s, cursor);
      if vector.None? { return None; }
      ThenThen(vectors, vector.value.items, VectorsFrom(s, vector.value.next, vectorCount - 1));
      vectors, cursor := vectors + vector.value.items, vector.value.next;
      vectorCount := vectorCount - 1;
    }
    assert vectors + [] == vectors;
    r := Some(Parsed(vectors, cursor));
  }

  // ---------- assertions ----------

  function RuleAt(s: seq<byte>, i: nat): MsgRule
    requires i + ASSERTION_LENGTH <= |s|
  {
    MsgRule(s[i + 6], Low7(s[i + 2]) as nat * 256 + s[i + 3], U16(s[i + 4], s[i + 5]), SignedShort(U16(s[i], s[i + 1])),
            s[i + 7] / 16, s[i + 7] % 16, s[i + 8])
  }

  function RulesFrom(s: seq<byte>, i: nat, count: nat): (r: Option<Parsed<MsgRule>>)
    requires i <= |s|
    ensures r.Some? ==> r.value.next <= |s|
    decreases count
  {
    if count == 0 then Some(Parsed([], i))
    else if |s| - i < ASSERTION_LENGTH then None
    else Then([RuleAt(s, i)], RulesFrom(s, i + ASSERTION_LENGTH, count - 1))
  }

  function RuleListFrom(s: seq<byte>, i: nat): (r: Option<Parsed<MsgRule>>)
    requires i <= |s|
    ensures r.Some? ==> r.value.next <= |s|
  {
    if |s| - i < 2 then None else RulesFrom(s, i + 2, U16(s[i], s[i + 1]))
  }

  method ParseAssertions(s: seq<byte>, from: nat) returns (r: Option<Parsed<MsgRule>>)
    requires from <= |s|
    ensures r == RuleListFrom(s, from)
  {
    if |s| - from < 2 { return None; }
    var assertionCount := U16(s[from], s[from + 1]);
    var cursor: nat, rules := from + 2, [];
    ThenThen([], [], RulesFrom(s, cursor, assertionCount));
    while assertionCount > 0
      invariant cursor <= |s|
      invariant RuleListFrom(s, from) == Then(rules, RulesFrom(s, cursor, assertionCount))
    {
      if |s| - cursor < ASSERTION_LENGTH { return None; }
      ThenThen(rules, [RuleAt(s, cursor)], RulesFrom(s, cursor + ASSERTION_LENGTH, assertionCount - 1));
      rules, cursor := rules + [RuleAt(s, cursor)], cursor + ASSERTION_LENGTH;
      assertionCount := assertionCount - 1;
    }
    assert rules + [] == rules;
    r := Some(Parsed(rules, cursor));
  }

  // ---------- what was written is what is read ----------

  predicate ReadableInterface(i: Interface) {
    EQUALS !in i.tsName && COMMA !in i.ept && 0 !in i.ept
  }

  predicate ReadableVector(v: DeliveryVector) {
    v.nbr < 16 && 1 <= |v.interfaces| < 16 && forall i :: i in v.interfaces ==> ReadableInterface(i)
  }

  predicate ReadableRule(r: MsgRule) {
    && r.roleNbr < 256 && r.continuumNbr < 0x8000 && r.unitNbr < 0x10000 && -0x8000 <= r.subjectNbr < 0x8000
    && r.vectorNbr < 16 && r.priority < 16
  }

  lemma {:induction false} FindStops(a: seq<byte>, s: seq<byte>, stop: byte, b: seq<byte>, stops: seq<byte>)
    requires stop in stops && forall x :: x in s ==> x !in stops
    ensures Find(a + (s + [stop]) + b, |a|, stops) == |a| + |s|
    decreases |s|
  {
    if s != [] {
      assert s[0] in s;
      assert a + (s + [stop]) + b == (a + [s[0]]) + (s[1..] + [stop]) + b;
      FindStops(a + [s[0]], s[1..], stop, b, stops);
    }
  }

  lemma EndpointIsRead(a: seq<byte>, i: Interface, stop: byte, b: seq<byte>)
    requires ReadableInterface(i) && stop in SEPARATORS
    ensures var t := i.tsName + [EQUALS] + i.ept + [stop];
      EndpointFrom(a + t + b, |a|) == Some(Endpoint(i, |a| + |t|))
  {
    hide Find;
    var t := i.tsName + [EQUALS] + i.ept + [stop];
    var all := a + t + b;
    assert all == a + (i.tsName + [EQUALS]) + (i.ept + [stop] + b);
    FindStops(a, i.tsName, EQUALS, i.ept + [stop] + b, [EQUALS]);
    var c := a + i.tsName + [EQUALS];
    assert all == c + (i.ept + [stop]) + b;
    FindStops(c, i.ept, stop, b, SEPARATORS);
    assert all[|a|..|a| + |i.tsName|] == i.tsName;
    assert all[|c|..|c| + |i.ept|] == i.ept;
  }

  lemma {:induction false} InterfacesAreRead(a: seq<byte>, interfaces: seq<Interface>, b: seq<byte>)
    requires forall i :: i in interfaces ==> ReadableInterface(i)
    ensures var t := InterfacesBytes(interfaces);
      InterfacesFrom(a + t + b, |a|, |interfaces|) == Some(Parsed(interfaces, |a| + |t|))
    decreases |interfaces|
  {
    hide EndpointFrom, ReadableInterface;
    if interfaces != [] {
      var i, rest := interfaces[0], InterfacesBytes(interfaces[1..]);
      var stop: byte := if |interfaces| == 1 then 0 else COMMA;
      var t := i.tsName + [EQUALS] + i.ept + [stop];
      assert InterfacesBytes(interfaces) == t + rest;
      var all := a + (t + rest) + b;
      assert all == a + t + (rest + b);
      EndpointIsRead(a, i, stop, rest + b);
      assert all == (a + t) + rest + b;
      InterfacesAreRead(a + t, interfaces[1..], b);
      assert [i] + interfaces[1..] == interfaces;
    }
  }

  lemma VectorIsRead(a: seq<byte>, v: DeliveryVector, b: seq<byte>)
    requires ReadableVector(v)
    ensures VectorFrom(a + VectorBytes(v) + b, |a|) == Some(Parsed([v], |a| + |VectorBytes(v)|))
  {
    hide InterfacesFrom, ReadableInterface, InterfacesBytes;
    var head, t := VectorBytes(v)[..1], InterfacesBytes(v.interfaces);
    var all := a + VectorBytes(v) + b;
    assert all == (a + head) + t + b;
    assert all[|a|] == |v.interfaces| + v.nbr * 16;
    InterfacesAreRead(a + head, v.interfaces, b);
  }

  lemma VectorsFromStep(s: seq<byte>, i: nat, v: DeliveryVector, next: nat, count: nat)
    requires i <= |s| && 0 < count && next <= |s| && VectorFrom(s, i) == Some(Parsed([v], next))
    ensures VectorsFrom(s, i, count) == Then([v], VectorsFrom(s, next, count - 1))
  {
    hide VectorFrom;
  }

  lemma {:induction false} VectorsAreRead(a: seq<byte>, vectors: seq<DeliveryVector>, b: seq<byte>)
    requires forall v :: v in vectors ==> ReadableVector(v)
    ensures var t := VectorsBytes(vectors);
      VectorsFrom(a + t + b, |a|, |vectors|) == Some(Parsed(vectors, |a| + |t|))
    decreases |vectors|
  {
    hide VectorFrom, VectorBytes, ReadableVector;
    if vectors != [] {
      hide VectorsFrom;
      var v, rest := vectors[0], VectorsBytes(vectors[1..]);
      var t := VectorBytes(v);
      assert VectorsBytes(vectors) == t + rest;
      hide VectorsBytes;
      var all := a + (t + rest) + b;
      assert all == a + t + (rest + b);
      VectorIsRead(a, v, rest + b);
      VectorsFromStep(all, |a|, v, |a + t|, |vectors|);
      assert all == (a + t) + rest + b;
      VectorsAreRead(a + t, vectors[1..], b);
      assert [v] + vectors[1..] == vectors;
    }
  }

  lemma RuleIsRead(s: seq<byte>, i: nat, r: MsgRule)
    requires i + ASSERTION_LENGTH <= |s| && s[i..i + ASSERTION_LENGTH] == AssertionBytes(r)
    requires ReadableRule(r)
    ensures RuleAt(s, i) == r
  {
    var t := s[i..i + ASSERTION_LENGTH];
    AssertionFields(r);
    FromWord(r.subjectNbr);
    hide AssertionBytes, U16, SignedShort;
    assert s[i] == t[0] && s[i + 1] == t[1] && s[i + 2] == t[2] && s[i + 3] == t[3] && s[i + 4] == t[4];
    assert s[i + 5] == t[5] && s[i + 6] == t[6] && s[i + 7] == t[7] && s[i + 8] == t[8];
  }

  lemma AssertionFields(r: MsgRule)
    requires ReadableRule(r)
    ensures var s := AssertionBytes(r);
      && U16(s[0], s[1]) == Residue(r.subjectNbr, 0x10000) && U16(s[4], s[5]) == r.unitNbr
      && Low7(s[2]) as nat * 256 + s[3] == r.continuumNbr && s[6] == r.roleNbr
      && s[7] / 16 == r.vectorNbr && s[7] % 16 == r.priority && s[8] == r.flowLabel
  {
    FifteenBits(r.continuumNbr);
    hide U16Bytes, U16, Hi;
    var s, x, y := AssertionBytes(r), U16Bytes(r.subjectNbr), U16Bytes(r.unitNbr);
    assert s[0] == x[0] && s[1] == x[1] && s[4] == y[0] && s[5] == y[1];
  }

  lemma FromWord(x: int)
    requires -0x8000 <= x < 0x8000
    ensures SignedShort(Residue(x, 0x10000)) == x
  {
    ResidueKeeps(x, 0x10000);
  }

  lemma {:induction false} RulesAreRead(a: seq<byte>, rules: seq<MsgRule>, b: seq<byte>)
    requires forall r :: r in rules ==> ReadableRule(r)
    ensures var t := RulesBytes(rules);
      RulesFrom(a + t + b, |a|, |rules|) == Some(Parsed(rules, |a| + |t|))
    decreases |rules|
  {
    hide RuleAt, AssertionBytes, ReadableRule;
    if rules != [] {
      var r, rest := rules[0], RulesBytes(rules[1..]);
      var all := a + RulesBytes(rules) + b;
      var t := AssertionBytes(r);
      assert all == a + t + (rest + b);
      RuleIsRead(all, |a|, r);
      assert RulesFrom(all, |a|, |rules|) == Then([r], RulesFrom(all, |a + t|, |rules[1..]|));
      assert all == (a + t) + rest + b;
      RulesAreRead(a + t, rules[1..], b);
      assert [r] + rules[1..] == rules;
    }
  }

  lemma RuleListIsRead(a: seq<byte>, rules: seq<MsgRule>, b: seq<byte>)
    requires |rules| < 0x10000 && forall r :: r in rules ==> ReadableRule(r)
    ensures var t := U16Bytes(|rules|) + RulesBytes(rules);
      RuleListFrom(a + t + b, |a|) == Some(Parsed(rules, |a| + |t|))
  {
    hide RulesBytes, RulesFrom, U16, U16Bytes;
    var n, t := U16Bytes(|rules|), RulesBytes(rules);
    var all := a + (n + t) + b;
    assert all == (a + n) + t + b;
    RulesAreRead(a + n, rules, b);
    assert all[|a|] == n[0] && all[|a| + 1] == n[1];
    ResidueKeeps(|rules|, 0x10000);
  }

  /** Whatever module's summary and declaration these are, with up to 127 vectors of 1 to 15 interfaces whose
      names do not contain the separators: its endpoint, vectors, subscriptions and invitations are read
      exactly as they were, and nothing is left. */
  lemma SummaryAndDeclarationAreRead(sap: Sap)
    requires NulFree(sap.mamsEpt) && |sap.delivVectors| < 128 && forall v :: v in sap.delivVectors ==> ReadableVector(v)
    requires |sap.subscriptions| < 0x10000 && forall r :: r in sap.subscriptions ==> ReadableRule(r)
    requires |sap.invitations| < 0x10000 && forall r :: r in sap.invitations ==> ReadableRule(r)
    ensures var s := Summary(sap) + Declaration(sap);
      var e := |sap.mamsEpt| + 1;
      var d, i := |Summary(sap)|, |Summary(sap)| + 2 + |RulesBytes(sap.subscriptions)|;
      && AfterString(s, 0) == Some(e) && s[..e - 1] == sap.mamsEpt
      && VectorListFrom(s, e) == Some(Parsed(sap.delivVectors, d))
      && RuleListFrom(s, d) == Some(Parsed(sap.subscriptions, i))
      && RuleListFrom(s, i) == Some(Parsed(sap.invitations, |s|))
  {
    hide AfterString, VectorsFrom, RuleListFrom, VectorsBytes, RulesBytes, U16Bytes;
    var s, n, vs := Summary(sap) + Declaration(sap), [Lo(|sap.delivVectors|)], VectorsBytes(sap.delivVectors);
    var p := U16Bytes(|sap.subscriptions|) + RulesBytes(sap.subscriptions);
    var q := U16Bytes(|sap.invitations|) + RulesBytes(sap.invitations);
    var head := sap.mamsEpt + [0] + n;
    assert s == [] + (sap.mamsEpt + [0]) + (n + vs + p + q);
    StringIsSkipped([], sap.mamsEpt, n + vs + p + q);
    assert s == head + vs + (p + q);
    VectorsAreRead(head, sap.delivVectors, p + q);
    assert s[|sap.mamsEpt| + 1] == |sap.delivVectors|;
    assert s == (head + vs) + p + q;
    RuleListIsRead(head + vs, sap.subscriptions, q);
    assert s == (head + vs + p) + q + [];
    RuleListIsRead(head + vs + p, sap.invitations, []);
  }
}
