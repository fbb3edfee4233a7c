/** What a module tells its registrar and its peers about itself: how to reach it (its contact summary) and
    what it wants and offers (its declaration). The sender computes the length first and then fills a
    buffer of that length; the registrar steps over both without looking inside. */
module ContactSummary {
  import opened Buffers
  import opened Bytes
  import opened Options

  const ASSERTION_LENGTH := 9

  /** The length of count assertions. */
  function RulesLength(count: nat): nat { 9 * count }

  /** One transport service by which the module can be reached, and where. */
  datatype Interface = Interface(tsName: seq<byte>, ept: seq<byte>)

  datatype DeliveryVector = DeliveryVector(nbr: nat, interfaces: seq<Interface>)

  datatype MsgRule = MsgRule(roleNbr: nat, continuumNbr: nat, unitNbr: nat, subjectNbr: int, vectorNbr: nat,
                             priority: nat, flowLabel: byte)

  datatype Sap = Sap(unitNbr: nat, moduleNbr: nat, roleNbr: nat, mamsEpt: seq<byte>, delivVectors: seq<DeliveryVector>,
                     subscriptions: seq<MsgRule>, invitations: seq<MsgRule>)

  const EQUALS: byte := 61
  const COMMA: byte := 44

  // ---------- what is written ----------

  /** Endpoints are separated by commas; the last one ends with a NUL. */
  function InterfacesBytes(interfaces: seq<Interface>): seq<byte> {
    if interfaces == [] then []
    else
      var i := interfaces[0];
      i.tsName + [EQUALS] + i.ept + [if |interfaces| == 1 then 0 else COMMA] + InterfacesBytes(interfaces[1..])
  }

  function VectorBytes(v: DeliveryVector): (s: seq<byte>)
    ensures |s| == 1 + |InterfacesBytes(v.interfaces)|
  {
    [Lo(Residue(|v.interfaces|, 16) + v.nbr * 16)] + InterfacesBytes(v.interfaces)
  }

  function VectorsBytes(vectors: seq<DeliveryVector>): seq<byte> {
    if vectors == [] then [] else VectorBytes(vectors[0]) + VectorsBytes(vectors[1..])
  }

  function Summary(sap: Sap): seq<byte> {
    sap.mamsEpt + [0] + [Lo(|sap.delivVectors|)] + VectorsBytes(sap.delivVectors)
  }

  function AssertionBytes(r: MsgRule): (s: seq<byte>)
    ensures |s| == ASSERTION_LENGTH
  {
    U16Bytes(r.subjectNbr) + [Low7(Hi(r.continuumNbr)), Lo(r.continuumNbr)] + U16Bytes(r.unitNbr)
    + [Lo(r.roleNbr), Lo(r.vectorNbr * 16 + Residue(r.priority, 16)), r.flowLabel]
  }

  function RulesBytes(rules: seq<MsgRule>): (s: seq<byte>)
    ensures |s| == RulesLength(|rules|)
  {
    if rules == [] then [] else AssertionBytes(rules[0]) + RulesBytes(rules[1..])
  }

  function Declaration(sap: Sap): seq<byte> {
    U16Bytes(|sap.subscriptions|) + RulesBytes(sap.subscriptions)
    + U16Bytes(|sap.invitations|) + RulesBytes(sap.invitations)
  }

  // ---------- lengths ----------

  method GetDeclarationLength(sap: Sap) returns (length: nat)
    ensures length == |Declaration(sap)|
  {
    length := 2;
    length := length + RulesLength(|sap.subscriptions|);
    length := length + 2;
    length := length + RulesLength(|sap.invitations|);
  }

  method GetContactSummaryLength(sap: Sap) returns (length: nat)
    ensures length == |Summary(sap)|
  {
    length := |sap.mamsEpt| + 1;
    length := length + 1;
    var i := 0;
    while i < |sap.delivVectors|
      invariant i <= |sap.delivVectors|
      invariant length + |VectorsBytes(sap.delivVectors[i..])| == |Summary(sap)|
    {
      length := length + 1;
      var vector := sap.delivVectors[i];
      var j := 0;
      while j < |vector.interfaces|
        invariant j <= |vector.interfaces|
        invariant length + |InterfacesBytes(vector.interfaces[j..])| + |VectorsBytes(sap.delivVectors[i + 1..])|
               == |Summary(sap)|
      {
        var tsif := vector.interfaces[j];
        length := length + (|tsif.tsName| + 1 + |tsif.ept| + 1);
        j := j + 1;
      }
      i := i + 1;
    }
  }

  // ---------- filling the buffer ----------

  method LoadAssertion(buffer: array<byte>, at: nat, rule: MsgRule) returns (cursor: nat)
    requires at + ASSERTION_LENGTH <= buffer.Length
    modifies buffer
    ensures cursor == at + ASSERTION_LENGTH
    ensures buffer[..cursor] == old(buffer[..at]) + AssertionBytes(rule)
    ensures forall i :: cursor <= i < buffer.Length ==> buffer[i] == old(buffer[i])
  {
    hide U16Bytes;
    Put(buffer, at, U16Bytes(rule.subjectNbr));
    Put(buffer, at + 2, [Low7(Hi(rule.continuumNbr)), Lo(rule.continuumNbr)]);
    Put(buffer, at + 4, U16Bytes(rule.unitNbr));
    Put(buffer, at + 6, [Lo(rule.roleNbr), Lo(rule.vectorNbr * 16 + Residue(rule.priority, 16)), rule.flowLabel]);
    cursor := at + ASSERTION_LENGTH;
  }

  method LoadRules(buffer: array<byte>, at: nat, rules: seq<MsgRule>) returns (cursor: nat)
    requires at + 2 + RulesLength(|rules|) <= buffer.Length
    modifies buffer
    ensures cursor == at + 2 + RulesLength(|rules|)
    ensures buffer[..cursor] == old(buffer[..at]) + (U16Bytes(|rules|) + RulesBytes(rules))
    ensures forall i :: cursor <= i < buffer.Length ==> buffer[i] == old(buffer[i])
  {
    hide U16Bytes, AssertionBytes;
    Put(buffer, at, U16Bytes(|rules|));
    cursor := at + 2;
    var i := 0;
    while i < |rules|
      invariant i <= |rules| && cursor == at + 2 + RulesLength(i)
      invariant buffer[..cursor] + RulesBytes(rules[i..]) == old(buffer[..at]) + (U16Bytes(|rules|) + RulesBytes(rules))
      invariant forall j :: at + 2 + RulesLength(|rules|) <= j < buffer.Length ==> buffer[j] == old(buffer[j])
    {
      ghost var before, rest := buffer[..cursor], RulesBytes(rules[i + 1..]);
      cursor := LoadAssertion(buffer, cursor, rules[i]);
      assert before + (AssertionBytes(rules[i]) + rest) == buffer[..cursor] + rest;
      i := i + 1;
    }
  }

  method LoadDeclaration(sap: Sap, buffer: array<byte>, at: nat)
    requires at + |Declaration(sap)| <= buffer.Length
    modifies buffer
    ensures buffer[..at + |Declaration(sap)|] == old(buffer[..at]) + Declaration(sap)
    ensures forall i :: at + |Declaration(sap)| <= i < buffer.Length ==> buffer[i] == old(buffer[i])
  {
    hide U16Bytes, RulesBytes;
    var cursor := LoadRules(buffer, at, sap.subscriptions);
    cursor := LoadRules(buffer, cursor, sap.invitations);
  }

  method LoadInterfaces(buffer: array<byte>, at: nat, interfaces: seq<Interface>) returns (cursor: nat)
    requires at + |InterfacesBytes(interfaces)| <= buffer.Length
    modifies buffer
    ensures cursor == at + |InterfacesBytes(interfaces)|
    ensures buffer[..cursor] == old(buffer[..at]) + InterfacesBytes(interfaces)
    ensures forall i :: cursor <= i < buffer.Length ==> buffer[i] == old(buffer[i])
  {
    cursor := at;
    var i := 0;
    while i < |interfaces|
      invariant i <= |interfaces|
      invariant cursor + |InterfacesBytes(interfaces[i..])| == at + |InterfacesBytes(interfaces)|
      invariant cursor <= buffer.Length
      invariant buffer[..cursor] + InterfacesBytes(interfaces[i..]) == old(buffer[..at]) + InterfacesBytes(interfaces)
      invariant forall j :: at + |InterfacesBytes(interfaces)| <= j < buffer.Length ==> buffer[j] == old(buffer[j])
    {
      var tsif := interfaces[i];
      ghost var before, rest := buffer[..cursor], InterfacesBytes(interfaces[i + 1..]);
      assert interfaces[i..][0] == tsif && interfaces[i..][1..] == interfaces[i + 1..];
      cursor := LoadInterface(buffer, cursor, tsif, i + 1 < |interfaces|);
      i := i + 1;
    }
  }

  method LoadInterface(buffer: array<byte>, at: nat, tsif: Interface, more: bool) returns (cursor: nat)
    requires at + |tsif.tsName| + 1 + |tsif.ept| + 1 <= buffer.Length
    modifies buffer
    ensures cursor == at + |tsif.tsName| + 1 + |tsif.ept| + 1
    ensures buffer[..cursor] == old(buffer[..at]) + (tsif.tsName + [EQUALS] + tsif.ept + [if more then COMMA else 0])
    ensures forall i :: cursor <= i < buffer.Length ==> buffer[i] == old(buffer[i])
  {
    ghost var before := buffer[..at];
    cursor := at;
    Put(buffer, cursor, tsif.tsName);
    cursor := cursor + |tsif.tsName|;
    Put(buffer, cursor, [EQUALS]);
    cursor := cursor + 1;
    assert buffer[..cursor] == before + (tsif.tsName + [EQUALS]);
    Put(buffer, cursor, tsif.ept);
    cursor := cursor + |tsif.ept|;
    assert buffer[..cursor] == before + (tsif.tsName + [EQUALS] + tsif.ept);
    Put(buffer, cursor, [if more then COMMA else 0]);
    cursor := cursor + 1;
  }

  method LoadVector(buffer: array<byte>, at: nat, vector: DeliveryVector) returns (cursor: nat)
    requires at + |VectorBytes(vector)| <= buffer.Length
    modifies buffer
    ensures cursor == at + |VectorBytes(vector)|
    ensures buffer[..cursor] == old(buffer[..at]) + VectorBytes(vector)
    ensures forall i :: cursor <= i < buffer.Length ==> buffer[i] == old(buffer[i])
  {
    Put(buffer, at, [Lo(Residue(|vector.interfaces|, 16) + vector.nbr * 16)]);
    cursor := LoadInterfaces(buffer, at + 1, vector.interfaces);
  }

  method LoadVectors(vectors: seq<DeliveryVector>, buffer: array<byte>, at: nat)
    requires at + |VectorsBytes(vectors)| <= buffer.Length
    modifies buffer
    ensures buffer[..at + |VectorsBytes(vectors)|] == old(buffer[..at]) + VectorsBytes(vectors)
    ensures forall i :: at + |VectorsBytes(vectors)| <= i < buffer.Length ==> buffer[i] == old(buffer[i])
  {
    hide VectorBytes, Lo;
    ghost var end := at + |VectorsBytes(vectors)|;
    var cursor: nat := at;
    var i := 0;
    while i < |vectors|
      invariant i <= |vectors|
      invariant cursor <= end && cursor + |VectorsBytes(vectors[i..])| == end
      invariant buffer[..cursor] + VectorsBytes(vectors[i..]) == old(buffer[..at]) + VectorsBytes(vectors)
      invariant forall j :: end <= j < buffer.Length ==> buffer[j] == old(buffer[j])
    {
      ghost var before, rest := buffer[..cursor], VectorsBytes(vectors[i + 1..]);
      assert vectors[i..][0] == vectors[i] && vectors[i..][1..] == vectors[i + 1..];
      assert before + (VectorBytes(vectors[i]) + rest) == (before + VectorBytes(vectors[i])) + rest;
      cursor := LoadVector(buffer, cursor, vectors[i]);
      i := i + 1;
    }
  }

  method LoadContactSummary(sap: Sap, buffer: array<byte>, at: nat)
    requires at + |Summary(sap)| <= buffer.Length
    modifies buffer
    ensures buffer[..at + |Summary(sap)|] == old(buffer[..at]) + Summary(sap)
    ensures forall i :: at + |Summary(sap)| <= i < buffer.Length ==> buffer[i] == old(buffer[i])
  {
    hide VectorsBytes, Lo;
    var cursor: nat := at;
    Put(buffer, cursor, sap.mamsEpt + [0]);
    cursor := cursor + |sap.mamsEpt| + 1;
    Put(buffer, cursor, [Lo(|sap.delivVectors|)]);
    LoadVectors(sap.delivVectors, buffer, cursor + 1);
  }

  // ---------- stepping over them ----------

  /** The offset just past the first NUL from offset i on. */
  function AfterString(s: seq<byte>, i: nat): (r: Option<nat>)
    requires i <= |s|
    ensures r.Some? ==> i < r.value <= |s| && s[r.value - 1] == 0 && 0 !in s[i..r.value - 1]
    ensures r.None? ==> 0 !in s[i..]
    decreases |s| - i
  {
    if i == |s| then None
    else if s[i] == 0 then Some(i + 1)
    else
      assert forall e :: i < e <= |s| ==> s[i..e] == [s[i]] + s[i + 1..e];
      AfterString(s, i + 1)
  }

  function AfterVectors(s: seq<byte>, i: nat, count: nat): (r: Option<nat>)
    requires i <= |s|
    ensures r.Some? ==> r.value <= |s|
    decreases count
  {
    if count == 0 then Some(i)
    else if i == |s| then None
    else
      var next := AfterString(s, i + 1);
      if next.None? then None else AfterVectors(s, next.value, count - 1)
  }

  function AfterVectorList(s: seq<byte>, i: nat): (r: Option<nat>)
    requires i <= |s|
    ensures r.Some? ==> r.value <= |s|
  {
    if i == |s| then None else AfterVectors(s, i + 1, s[i])
  }

  function AfterRules(s: seq<byte>, i: nat): (r: Option<nat>)
    requires i <= |s|
    ensures r.Some? ==> r.value <= |s|
  {
    if |s| - i < 2 then None
    else
      var end := i + 2 + RulesLength(U16(s[i], s[i + 1]));
      if end <= |s| then Some(end) else None
  }

  function AfterDeclaration(s: seq<byte>, i: nat): (r: Option<nat>)
    requires i <= |s|
    ensures r.Some? ==> r.value <= |s|
  {
    var next := AfterRules(s, i);
    if next.None? then None else AfterRules(s, next.value)
  }

  /** A cursor into a message and the number of octets left; -1 for the error return is modelled as None. */
  datatype Cursor = Cursor(at: nat, bytesRemaining: nat)

  function At(s: seq<byte>, r: Option<nat>): Option<Cursor>
    requires r.Some? ==> r.value <= |s|
  {
    if r.None? then None else Some(Cursor(r.value, |s| - r.value))
  }

  method ParseString(s: seq<byte>, from: Cursor) returns (to: Option<Cursor>, len: nat)
    requires from.at + from.bytesRemaining == |s|
    ensures to == At(s, AfterString(s, from.at))
    ensures to.Some? ==> len == to.value.at - 1 - from.at
  {
    var cursor: nat, bytesRemaining: nat := from.at, from.bytesRemaining;
    len := 0;
    while bytesRemaining > 0
      invariant cursor + bytesRemaining == |s| && len == cursor - from.at
      invariant AfterString(s, from.at) == AfterString(s, cursor)
    {
      if s[cursor] == 0 {
        return Some(Cursor(cursor + 1, bytesRemaining - 1)), len;
      }
      cursor, bytesRemaining, len := cursor + 1, bytesRemaining - 1, len + 1;
    }
    to := None;
  }

  method SkipDeliveryVector(s: seq<byte>, from: Cursor) returns (to: Option<Cursor>)
    requires from.at + from.bytesRemaining == |s|
    ensures to == if from.bytesRemaining < 1 then None else At(s, AfterString(s, from.at + 1))
  {
    if from.bytesRemaining < 1 { return None; }
    var len: nat;
    to, len := ParseString(s, Cursor(from.at + 1, from.bytesRemaining - 1));
  }

  method SkipDeliveryVectorList(s: seq<byte>, from: Cursor) returns (to: Option<Cursor>)
    requires from.at + from.bytesRemaining == |s|
    ensures to == At(s, AfterVectorList(s, from.at))
  {
    if from.bytesRemaining < 1 { return None; }
    var vectorCount: nat := s[from.at];
    var here := Cursor(from.at + 1, from.bytesRemaining - 1);
    while vectorCount > 0
      invariant here.at + here.bytesRemaining == |s|
      invariant AfterVectors(s, here.at, vectorCount) == AfterVectorList(s, from.at)
    {
      var next := SkipDeliveryVector(s, here);
      if next.None? { return None; }
      here := next.value;
      vectorCount := vectorCount - 1;
    }
    to := Some(here);
  }

  method SkipRules(s: seq<byte>, from: Cursor) returns (to: Option<Cursor>)
    requires from.at + from.bytesRemaining == |s|
    ensures to == At(s, AfterRules(s, from.at))
  {
    hide U16;
    if from.bytesRemaining < 2 { return None; }
    var listLength := U16(s[from.at], s[from.at + 1]);
    ghost var end := from.at + 2 + RulesLength(listLength);
    var cursor: nat, bytesRemaining: nat := from.at + 2, from.bytesRemaining - 2;
    while listLength > 0
      invariant cursor + bytesRemaining == |s|
      invariant cursor + RulesLength(listLength) == end
    {
      if bytesRemaining < ASSERTION_LENGTH { return None; }
      cursor, bytesRemaining := cursor + ASSERTION_LENGTH, bytesRemaining - ASSERTION_LENGTH;
      listLength := listLength - 1;
    }
    to := Some(Cursor(cursor, bytesRemaining));
  }

  method SkipDeclaration(s: seq<byte>, from: Cursor) returns (to: Option<Cursor>)
    requires from.at + from.bytesRemaining == |s|
    ensures to == At(s, AfterDeclaration(s, from.at))
  {
    to := SkipRules(s, from);
    if to.Some? { to := SkipRules(s, to.value); }
  }

  // ---------- the skips land where the encoders stopped ----------

  predicate NulFree(s: seq<byte>) { 0 !in s }

  /** Every vector lists some interface, and no name contains a NUL. */
  predicate Printable(sap: Sap) {
    && NulFree(sap.mamsEpt)
    && (forall v :: v in sap.delivVectors ==> PrintableVector(v))
  }

  predicate PrintableVector(v: DeliveryVector) {
    v.interfaces != [] && forall i :: i in v.interfaces ==> NulFree(i.tsName) && NulFree(i.ept)
  }

  /** A string without NUL and its terminator are stepped over. */
  lemma {:induction false} StringIsSkipped(a: seq<byte>, s: seq<byte>, b: seq<byte>)
    requires NulFree(s)
    ensures AfterString(a + (s + [0]) + b, |a|) == Some(|a| + |s| + 1)
    decreases |s|
  {
    if s != [] {
      assert s[0] in s && s[0] != 0;
      assert a + (s + [0]) + b == (a + [s[0]]) + (s[1..] + [0]) + b;
      StringIsSkipped(a + [s[0]], s[1..], b);
    }
  }

  lemma {:induction false} InterfacesAreOneString(interfaces: seq<Interface>)
    requires interfaces != [] && forall i :: i in interfaces ==> NulFree(i.tsName) && NulFree(i.ept)
    ensures var s := InterfacesBytes(interfaces); s != [] && NulFree(s[..|s| - 1]) && s[|s| - 1] == 0
  {
    var i, s, rest := interfaces[0], InterfacesBytes(interfaces), InterfacesBytes(interfaces[1..]);
    if |interfaces| == 1 {
      assert s[..|s| - 1] == i.tsName + [EQUALS] + i.ept;
    } else {
      InterfacesAreOneString(interfaces[1..]);
      assert s[..|s| - 1] == i.tsName + [EQUALS] + i.ept + [COMMA] + rest[..|rest| - 1];
    }
  }

  lemma VectorIsSkipped(a: seq<byte>, v: DeliveryVector, b: seq<byte>)
    requires PrintableVector(v)
    ensures AfterString(a + VectorBytes(v) + b, |a| + 1) == Some(|a| + |VectorBytes(v)|)
  {
    hide AfterString, InterfacesBytes;
    var head, s := VectorBytes(v)[..1], InterfacesBytes(v.interfaces);
    InterfacesAreOneString(v.interfaces);
    assert s == s[..|s| - 1] + [0];
    assert a + VectorBytes(v) + b == (a + head) + (s[..|s| - 1] + [0]) + b;
    StringIsSkipped(a + head, s[..|s| - 1], b);
  }

  lemma {:induction false} VectorsAreSkipped(a: seq<byte>, vectors: seq<DeliveryVector>, b: seq<byte>)
    requires forall v :: v in vectors ==> PrintableVector(v)
    ensures AfterVectors(a + VectorsBytes(vectors) + b, |a|, |vectors|) == Some(|a| + |VectorsBytes(vectors)|)
    decreases |vectors|
  {
    hide AfterString, VectorBytes, PrintableVector;
    var all := a + VectorsBytes(vectors) + b;
    if vectors != [] {
      var v, rest := vectors[0], VectorsBytes(vectors[1..]);
      assert PrintableVector(v);
      assert all == a + VectorBytes(v) + (rest + b);
      VectorIsSkipped(a, v, rest + b);
      assert all == (a + VectorBytes(v)) + rest + b;
      VectorsAreSkipped(a + VectorBytes(v), vectors[1..], b);
    }
  }

  lemma RulesAreSkipped(a: seq<byte>, rules: seq<MsgRule>, b: seq<byte>)
    requires |rules| < 0x10000
    ensures AfterRules(a + (U16Bytes(|rules|) + RulesBytes(rules)) + b, |a|) == Some(|a| + 2 + |RulesBytes(rules)|)
  {
    hide RulesBytes, U16, U16Bytes;
    var all, n := a + (U16Bytes(|rules|) + RulesBytes(rules)) + b, U16Bytes(|rules|);
    assert all[|a|] == n[0] && all[|a| + 1] == n[1];
    ResidueKeeps(|rules|, 0x10000);
  }

  lemma DeclarationIsSkipped(a: seq<byte>, sap: Sap, b: seq<byte>)
    requires |sap.subscriptions| < 0x10000 && |sap.invitations| < 0x10000
    ensures AfterDeclaration(a + Declaration(sap) + b, |a|) == Some(|a| + |Declaration(sap)|)
  {
    hide RulesBytes, U16Bytes, AfterRules;
    var all := a + Declaration(sap) + b;
    var p := U16Bytes(|sap.subscriptions|) + RulesBytes(sap.subscriptions);
    var q := U16Bytes(|sap.invitations|) + RulesBytes(sap.invitations);
    assert Declaration(sap) == p + q;
    assert all == a + p + (q + b);
    RulesAreSkipped(a, sap.subscriptions, q + b);
    assert all == (a + p) + q + b;
    RulesAreSkipped(a + p, sap.invitations, b);
  }

  // ---------- messages that are cut short ----------

  /** The offset, unless it lies behind the end of the message. */
  function Before(r: Option<nat>, end: nat): Option<nat> {
    if r.Some? && r.value <= end then r else None
  }

  lemma {:induction false} StringInPrefix(s: seq<byte>, i: nat, n: nat)
    requires i <= n <= |s|
    ensures AfterString(s[..n], i) == Before(AfterString(s, i), n)
    decreases n - i
  {
    if i < n {
      assert s[..n][i] == s[i];
      StringInPrefix(s, i + 1, n);
    }
  }

  lemma {:induction false} VectorsInPrefix(s: seq<byte>, i: nat, count: nat, n: nat)
    requires i <= n <= |s|
    ensures AfterVectors(s[..n], i, count) == Before(AfterVectors(s, i, count), n)
    decreases count
  {
    hide AfterString;
    if count > 0 && i < n {
      StringInPrefix(s, i + 1, n);
      var next := AfterString(s, i + 1);
      if next.Some? {
        if next.value <= n {
          VectorsInPrefix(s, next.value, count - 1, n);
        } else {
          VectorsGoOn(s, next.value, count - 1);
        }
      }
    } else if count > 0 {
      VectorsGoOn(s, i, count);
    }
  }

  /** Vectors take up some octets, if there are any. */
  lemma {:induction false} VectorsGoOn(s: seq<byte>, i: nat, count: nat)
    requires i <= |s|
    ensures var r := AfterVectors(s, i, count); r.Some? ==> if count == 0 then r.value == i else r.value > i
    decreases count
  {
    if count > 0 && i < |s| {
      var next := AfterString(s, i + 1);
      if next.Some? { VectorsGoOn(s, next.value, count - 1); }
    }
  }

  /** However a message is cut short, stepping over delivery vectors ends where it would have, or fails. */
  lemma VectorListInPrefix(s: seq<byte>, i: nat, n: nat)
    requires i <= n <= |s|
    ensures AfterVectorList(s[..n], i) == Before(AfterVectorList(s, i), n)
  {
    hide AfterVectors;
    if i < n {
      VectorsInPrefix(s, i + 1, s[i], n);
    } else if i < |s| {
      VectorsGoOn(s, i + 1, s[i]);
    }
  }

  lemma RulesInPrefix(s: seq<byte>, i: nat, n: nat)
    requires i <= n <= |s|
    ensures AfterRules(s[..n], i) == Before(AfterRules(s, i), n)
  {
    hide U16;
  }

  /** The same with declarations. */
  lemma DeclarationInPrefix(s: seq<byte>, i: nat, n: nat)
    requires i <= n <= |s|
    ensures AfterDeclaration(s[..n], i) == Before(AfterDeclaration(s, i), n)
  {
    hide U16;
    var next := AfterRules(s, i);
    RulesInPrefix(s, i, n);
    if next.Some? && next.value <= n { RulesInPrefix(s, next.value, n); }
  }

  /** The supplement of a reconnect message: who the module is, its contact summary and declaration, and the
      modules of the cell that it knows of. */
  function ReconnectSupplement(sap: Sap, modules: seq<byte>): seq<byte> {
    [Hi(sap.unitNbr), Lo(sap.unitNbr), Lo(sap.moduleNbr), Lo(sap.roleNbr)]
    + Summary(sap) + Declaration(sap) + [Lo(|modules|)] + modules
  }

  method BuildReconnect(sap: Sap, modules: seq<byte>) returns (supplement: array<byte>)
    ensures supplement[..] == ReconnectSupplement(sap, modules)
  {
    hide Summary, Declaration;
    var contactSummaryLength := GetContactSummaryLength(sap);
    var declarationLength := GetDeclarationLength(sap);
    var supplementLength := 4 + contactSummaryLength + declarationLength + 1 + |modules|;
    supplement := new byte[supplementLength](_ => 0);
    var id := [Hi(sap.unitNbr), Lo(sap.unitNbr), Lo(sap.moduleNbr), Lo(sap.roleNbr)];
    Put(supplement, 0, id);
    var cursor := 4;
    LoadContactSummary(sap, supplement, cursor);
    cursor := cursor + contactSummaryLength;
    assert supplement[..cursor] == id + Summary(sap);
    LoadDeclaration(sap, supplement, cursor);
    cursor := cursor + declarationLength;
    assert supplement[..cursor] == id + Summary(sap) + Declaration(sap);
    Put(supplement, cursor, [Lo(|modules|)]);
    Put(supplement, cursor + 1, modules);
    assert supplement[..] == supplement[..supplementLength];
  }

  /** Where the registrar finds the module list of a reconnect message: past the module's name, endpoint,
      vectors and declaration. */
  function ModuleListAt(s: seq<byte>): (r: Option<nat>)
    ensures r.Some? ==> r.value <= |s|
  {
    if |s| < 4 then None
    else
      var a := AfterString(s, 4);
      if a.None? then None
      else
        var b := AfterVectorList(s, a.value);
        if b.None? then None else AfterDeclaration(s, b.value)
  }

  lemma ModuleListInPrefix(s: seq<byte>, n: nat)
    requires 4 <= n <= |s|
    ensures ModuleListAt(s[..n]) == Before(ModuleListAt(s), n)
  {
    hide AfterString, AfterVectorList, AfterDeclaration;
    StringInPrefix(s, 4, n);
    var a := AfterString(s, 4);
    if a.Some? && a.value <= n {
      VectorListInPrefix(s, a.value, n);
      var b := AfterVectorList(s, a.value);
      if b.Some? && b.value <= n {
        DeclarationInPrefix(s, b.value, n);
      } else if b.Some? {
        DeclarationGoesOn(s, b.value);
      }
    } else if a.Some? && AfterVectorList(s, a.value).Some? {
      VectorListGoesOn(s, a.value);
      DeclarationGoesOn(s, AfterVectorList(s, a.value).value);
    }
  }

  lemma VectorListGoesOn(s: seq<byte>, i: nat)
    requires i <= |s| && AfterVectorList(s, i).Some?
    ensures AfterVectorList(s, i).value > i
  {
    VectorsGoOn(s, i + 1, s[i]);
  }

  lemma DeclarationGoesOn(s: seq<byte>, i: nat)
    requires i <= |s|
    ensures AfterDeclaration(s, i).Some? ==> AfterDeclaration(s, i).value > i
  {
    hide U16;
  }

  /** What precedes the module list in a reconnect message. */
  function ReconnectStart(sap: Sap): (s: seq<byte>)
    ensures |s| == 4 + |Summary(sap)| + |Declaration(sap)|
  {
    [Hi(sap.unitNbr), Lo(sap.unitNbr), Lo(sap.moduleNbr), Lo(sap.roleNbr)] + Summary(sap) + Declaration(sap)
  }

  /** Whatever module sends it, the registrar gets through its reconnect message to exactly where the module list is,
      whatever is there. */
  lemma RegistrarFindsModuleList(sap: Sap, tail: seq<byte>)
    requires Printable(sap) && |sap.delivVectors| < 256
    requires |sap.subscriptions| < 0x10000 && |sap.invitations| < 0x10000
    ensures var s := ReconnectStart(sap) + tail;
      && ModuleListAt(s) == Some(|ReconnectStart(sap)|)
      && AfterString(s, 4) == Some(4 + |sap.mamsEpt| + 1) && s[4..4 + |sap.mamsEpt|] == sap.mamsEpt
  {
    hide Summary, Declaration, AfterString, AfterVectors, AfterDeclaration, VectorsBytes;
    var id := [Hi(sap.unitNbr), Lo(sap.unitNbr), Lo(sap.moduleNbr), Lo(sap.roleNbr)];
    var d := Declaration(sap);
    var vs, n := VectorsBytes(sap.delivVectors), [Lo(|sap.delivVectors|)];
    var s := ReconnectStart(sap) + tail;
    SummaryIs(sap);
    assert s == id + (sap.mamsEpt + [0]) + (n + vs + d + tail);
    StringIsSkipped(id, sap.mamsEpt, n + vs + d + tail);
    assert s == (id + sap.mamsEpt + [0] + n) + vs + (d + tail);
    VectorsAreSkipped(id + sap.mamsEpt + [0] + n, sap.delivVectors, d + tail);
    assert s[4 + |sap.mamsEpt| + 1] == |sap.delivVectors|;
    assert s == (id + sap.mamsEpt + [0] + n + vs) + d + tail;
    DeclarationIsSkipped(id + sap.mamsEpt + [0] + n + vs, sap, tail);
  }

  lemma SummaryIs(sap: Sap)
    ensures Summary(sap) == sap.mamsEpt + [0] + [Lo(|sap.delivVectors|)] + VectorsBytes(sap.delivVectors)
  {
  }
}
