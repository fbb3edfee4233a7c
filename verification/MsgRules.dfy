/** Subscription and invitation rules. A rule list is only partially ordered, by specificity, and the
    searches stop early on that order; here is what the order is, that every operation keeps it, and
    what the searches therefore find. */
module MsgRules {
  import opened Units

  datatype RuleKey = RuleKey(subjectNbr: int, roleNbr: int, continuumNbr: int, unitNbr: int)

  /** A rule constrains the source of messages (key) and says how they are to be sent (service). */
  datatype Rule<T> = Rule(key: RuleKey, service: T)

  /** a may stand before b: subjects ascend; within a subject role 0 comes last; within a role
      continuum 0 comes last; within a continuum each unit comes before its superunits. No key twice. */
  predicate InOrder(names: UnitNames, a: RuleKey, b: RuleKey) {
    && a.subjectNbr <= b.subjectNbr
    && (a.subjectNbr == b.subjectNbr ==>
          && (a.roleNbr == 0 ==> b.roleNbr == 0)
          && (a.roleNbr == b.roleNbr ==>
                && (a.continuumNbr == 0 ==> b.continuumNbr == 0)
                && (a.continuumNbr == b.continuumNbr ==>
                      a.unitNbr != b.unitNbr && !SubunitOf(names, b.unitNbr, a.unitNbr))))
  }

  ghost predicate Ordered<T>(names: UnitNames, rules: seq<Rule<T>>) {
    forall i, j :: 0 <= i < j < |rules| ==> InOrder(names, rules[i].key, rules[j].key)
  }

  // ---------- the search for an exact match ----------

  /** What findMsgRule returns: the rule with exactly this key, or the place to insert one. */
  datatype Place = Found(at: nat) | Missing(at: nat)

  function FindRule<T>(names: UnitNames, rules: seq<Rule<T>>, k: RuleKey, i: nat): (p: Place)
    requires i <= |rules|
    ensures i <= p.at <= |rules|
    decreases |rules| - i
  {
    if i == |rules| then Missing(i)
    else
      var r := rules[i].key;
      if r.subjectNbr < k.subjectNbr then FindRule(names, rules, k, i + 1)
      else if r.subjectNbr > k.subjectNbr then Missing(i)
      else if r.roleNbr != k.roleNbr then
        if r.roleNbr == 0 then Missing(i) else FindRule(names, rules, k, i + 1)
      else if r.continuumNbr != k.continuumNbr then
        if r.continuumNbr == 0 then Missing(i) else FindRule(names, rules, k, i + 1)
      else if r.unitNbr != k.unitNbr then
        if SubunitOf(names, k.unitNbr, r.unitNbr) then Missing(i) else FindRule(names, rules, k, i + 1)
      else Found(i)
  }

  ghost predicate HasKey<T>(rules: seq<Rule<T>>, k: RuleKey) {
    exists i :: 0 <= i < |rules| && rules[i].key == k
  }

  /** A rule with key k may be inserted at position at. */
  ghost predicate Fits<T>(names: UnitNames, rules: seq<Rule<T>>, k: RuleKey, at: nat) {
    && at <= |rules|
    && (forall i :: 0 <= i < at ==> InOrder(names, rules[i].key, k))
    && (forall i :: at <= i < |rules| ==> InOrder(names, k, rules[i].key))
  }

  lemma {:induction false} FindRuleFrom<T>(names: UnitNames, rules: seq<Rule<T>>, k: RuleKey, i: nat)
    requires WellNamed(names) && Ordered(names, rules) && i <= |rules|
    requires forall j :: 0 <= j < i ==> InOrder(names, rules[j].key, k)
    ensures var p := FindRule(names, rules, k, i);
      && (p.Found? ==> p.at < |rules| && rules[p.at].key == k)
      && (p.Missing? ==> !HasKey(rules, k) && Fits(names, rules, k, p.at))
    decreases |rules| - i
  {
    var p := FindRule(names, rules, k, i);
    if i < |rules| {
      if p == Missing(i) {
        assert InOrder(names, k, rules[i].key);
        forall j | i < j < |rules| ensures InOrder(names, k, rules[j].key) {
          assert InOrder(names, rules[i].key, rules[j].key);
        }
      } else if p != Found(i) {
        FindRuleFrom(names, rules, k, i + 1);
      }
    }
  }

  /** Despite its early exits, the search finds a rule iff the list holds one with exactly this key;
      otherwise it names a place where such a rule keeps the order. */
  lemma FindRuleIsExact<T>(names: UnitNames, rules: seq<Rule<T>>, k: RuleKey)
    requires WellNamed(names) && Ordered(names, rules)
    ensures FindRule(names, rules, k, 0).Found? <==> HasKey(rules, k)
    ensures var p := FindRule(names, rules, k, 0);
      if p.Found? then p.at < |rules| && rules[p.at].key == k else Fits(names, rules, k, p.at)
  {
    FindRuleFrom(names, rules, k, 0);
  }

  // ---------- the search for the rule that applies ----------

  /** The rule covers messages on this subject from a module in this role, continuum and unit. */
  predicate Applies(names: UnitNames, r: RuleKey, sender: RuleKey) {
    && r.subjectNbr == sender.subjectNbr
    && (r.roleNbr == sender.roleNbr || r.roleNbr == 0)
    && (r.continuumNbr == sender.continuumNbr || r.continuumNbr == 0)
    && SubunitOf(names, sender.unitNbr, r.unitNbr)
  }

  /** What getMsgRule returns: the first rule that applies; the number of rules if none does. */
  function GetRule<T>(names: UnitNames, rules: seq<Rule<T>>, sender: RuleKey, i: nat): (at: nat)
    requires i <= |rules|
    ensures i <= at <= |rules|
    decreases |rules| - i
  {
    if i == |rules| then i
    else
      var r := rules[i].key;
      if r.subjectNbr < sender.subjectNbr then GetRule(names, rules, sender, i + 1)
      else if r.subjectNbr > sender.subjectNbr then |rules|
      else if r.roleNbr != sender.roleNbr && r.roleNbr != 0 then GetRule(names, rules, sender, i + 1)
      else if r.continuumNbr != sender.continuumNbr && r.continuumNbr != 0 then GetRule(names, rules, sender, i + 1)
      else if SubunitOf(names, sender.unitNbr, r.unitNbr) then i
      else GetRule(names, rules, sender, i + 1)
  }

  /** Of two rules that apply, a is at least as specific as b: a role before any role, then a
      continuum before any continuum, then the deeper unit. */
  predicate AtLeastAsSpecific(names: UnitNames, a: RuleKey, b: RuleKey) {
    && (a.roleNbr == 0 ==> b.roleNbr == 0)
    && (a.roleNbr == b.roleNbr ==>
          && (a.continuumNbr == 0 ==> b.continuumNbr == 0)
          && (a.continuumNbr == b.continuumNbr ==> SubunitOf(names, a.unitNbr, b.unitNbr)))
  }

  lemma {:induction false} GetRuleFrom<T>(names: UnitNames, rules: seq<Rule<T>>, sender: RuleKey, i: nat)
    requires Ordered(names, rules) && i <= |rules|
    ensures var at := GetRule(names, rules, sender, i);
      && (at < |rules| ==> Applies(names, rules[at].key, sender))
      && forall j :: i <= j < at ==> !Applies(names, rules[j].key, sender)
    decreases |rules| - i
  {
    if i < |rules| {
      if rules[i].key.subjectNbr > sender.subjectNbr {
        assert forall j :: i < j < |rules| ==> InOrder(names, rules[i].key, rules[j].key);
      } else if GetRule(names, rules, sender, i) != i {
        GetRuleFrom(names, rules, sender, i + 1);
      }
    }
  }

  /** Two units that contain a third contain one another, one way or the other. */
  lemma PrefixesOfOneName(names: UnitNames, u: int, a: int, b: int)
    requires SubunitOf(names, u, a) && SubunitOf(names, u, b)
    ensures SubunitOf(names, a, b) || SubunitOf(names, b, a)
  {
    assert names[a] == names[u][..|names[a]|] && names[b] == names[u][..|names[b]|];
  }

  lemma GetRuleIsFirst<T>(names: UnitNames, rules: seq<Rule<T>>, sender: RuleKey)
    requires WellNamed(names) && Ordered(names, rules)
    ensures var at := GetRule(names, rules, sender, 0);
      && (at < |rules| <==> exists j :: 0 <= j < |rules| && Applies(names, rules[j].key, sender))
      && (at < |rules| ==>
            && Applies(names, rules[at].key, sender)
            && forall j :: 0 <= j < |rules| && Applies(names, rules[j].key, sender) ==>
                 AtLeastAsSpecific(names, rules[at].key, rules[j].key))
  {
    var at := GetRule(names, rules, sender, 0);
    GetRuleFrom(names, rules, sender, 0);
    if at < |rules| {
      forall j | 0 <= j < |rules| && Applies(names, rules[j].key, sender)
        ensures AtLeastAsSpecific(names, rules[at].key, rules[j].key)
      {
        if at < j {
          assert InOrder(names, rules[at].key, rules[j].key);
          PrefixesOfOneName(names, sender.unitNbr, rules[at].key.unitNbr, rules[j].key.unitNbr);
        }
      }
    }
  }

  /** The rules that apply to a sender are those for its subject whose role and continuum are the sender's or 0 and
      whose unit's name is a prefix of the name of the sender's. */
  ghost predicate AppliesAt<T>(names: UnitNames, rules: seq<Rule<T>>, j: nat, sender: RuleKey) {
    && j < |rules|
    && rules[j].key.subjectNbr == sender.subjectNbr
    && rules[j].key.roleNbr in {0, sender.roleNbr}
    && rules[j].key.continuumNbr in {0, sender.continuumNbr}
    && rules[j].key.unitNbr in names && sender.unitNbr in names
    && names[rules[j].key.unitNbr] <= names[sender.unitNbr]
  }

  /** A rule is found iff one applies, and the one found is more specific than all others that apply: it is for the
      sender's role if one of them is; of those that agree with it in that, it is for the sender's continuum if one
      of them is; and of those that agree with it in both, its unit has the longest name. */
  lemma GetRuleIsMostSpecific<T>(names: UnitNames, rules: seq<Rule<T>>, sender: RuleKey)
    requires WellNamed(names) && Ordered(names, rules)
    ensures var at := GetRule(names, rules, sender, 0);
      && (at < |rules| <==> exists j: nat :: AppliesAt(names, rules, j, sender))
      && (at < |rules| ==> AppliesAt(names, rules, at, sender))
      && forall j: nat :: AppliesAt(names, rules, j, sender) ==>
           var a, b := rules[at].key, rules[j].key;
           if a.roleNbr != b.roleNbr then b.roleNbr == 0
           else if a.continuumNbr != b.continuumNbr then b.continuumNbr == 0
           else |names[a.unitNbr]| >= |names[b.unitNbr]|
  {
    GetRuleIsFirst(names, rules, sender);
    forall j: nat ensures AppliesAt(names, rules, j, sender) <==> j < |rules| && Applies(names, rules[j].key, sender) {}
  }

  // ---------- runs ----------

  function AddRule<T>(names: UnitNames, rules: seq<Rule<T>>, r: Rule<T>): seq<Rule<T>> {
    var p := FindRule(names, rules, r.key, 0);
    if p.Found? then rules else rules[..p.at] + [r] + rules[p.at..]
  }

  function RemoveRule<T>(names: UnitNames, rules: seq<Rule<T>>, k: RuleKey): seq<Rule<T>> {
    var p := FindRule(names, rules, k, 0);
    if p.Found? && p.at < |rules| then rules[..p.at] + rules[p.at + 1..] else rules
  }

  lemma InsertKeepsOrder<T>(names: UnitNames, rules: seq<Rule<T>>, r: Rule<T>, at: nat)
    requires Ordered(names, rules) && Fits(names, rules, r.key, at)
    ensures Ordered(names, rules[..at] + [r] + rules[at..])
  {
    var s := rules[..at] + [r] + rules[at..];
    forall i, j | 0 <= i < j < |s| ensures InOrder(names, s[i].key, s[j].key) {
      var i', j' := if i < at then i else i - 1, if j < at then j else j - 1;
      if i != at && j != at { assert s[i] == rules[i'] && s[j] == rules[j']; }
    }
  }

  lemma AddRuleKeepsOrder<T>(names: UnitNames, rules: seq<Rule<T>>, r: Rule<T>)
    requires WellNamed(names) && Ordered(names, rules)
    ensures var s := AddRule(names, rules, r);
      && Ordered(names, s) && HasKey(s, r.key)
      && (HasKey(rules, r.key) ==> s == rules)
      && (!HasKey(rules, r.key) ==> multiset(s) == multiset(rules) + multiset{r})
  {
    FindRuleIsExact(names, rules, r.key);
    var p := FindRule(names, rules, r.key, 0);
    var s := AddRule(names, rules, r);
    if p.Missing? {
      InsertKeepsOrder(names, rules, r, p.at);
      assert multiset(s) == multiset(rules) + multiset{r} by { assert rules == rules[..p.at] + rules[p.at..]; }
      assert s[p.at] == r;
    } else {
      assert s[p.at].key == r.key;
    }
  }

  lemma RemoveRuleKeepsOrder<T>(names: UnitNames, rules: seq<Rule<T>>, k: RuleKey)
    requires WellNamed(names) && Ordered(names, rules)
    ensures var s := RemoveRule(names, rules, k);
      && Ordered(names, s) && !HasKey(s, k)
      && (!HasKey(rules, k) ==> s == rules)
      && (HasKey(rules, k) ==> exists r: Rule<T> :: r.key == k && multiset(rules) == multiset(s) + multiset{r})
  {
    FindRuleIsExact(names, rules, k);
    var p := FindRule(names, rules, k, 0);
    var s := RemoveRule(names, rules, k);
    if p.Found? {
      assert rules == rules[..p.at] + [rules[p.at]] + rules[p.at + 1..];
      assert multiset(rules) == multiset(s) + multiset{rules[p.at]};
      forall i | 0 <= i < |s| ensures s[i].key != k {
        if i < p.at {
          assert InOrder(names, rules[i].key, rules[p.at].key);
        } else {
          assert s[i] == rules[i + 1] && InOrder(names, rules[p.at].key, rules[i + 1].key);
        }
      }
    }
  }

  // ---------- units that come and go ----------

  /** Whether giving number nbr to a unit of this name puts two rules out of order: rules of the same subject, role
      and continuum, one of them for the new unit, of which the later one's unit would lie within the earlier one's. */
  ghost predicate Disturbs<T>(names: UnitNames, rules: seq<Rule<T>>, nbr: int, name: string) {
    exists i, j :: 0 <= i < j < |rules| && CreatedTooLate(names, rules[i].key, rules[j].key, nbr, name)
  }

  predicate CreatedTooLate(names: UnitNames, a: RuleKey, b: RuleKey, nbr: int, name: string) {
    && a.subjectNbr == b.subjectNbr && a.roleNbr == b.roleNbr && a.continuumNbr == b.continuumNbr
    && ((a.unitNbr == nbr && b.unitNbr in names && name <= names[b.unitNbr])
        || (b.unitNbr == nbr && a.unitNbr in names && names[a.unitNbr] <= name))
  }

  /** A new unit leaves a rule list in order iff it disturbs no two rules that name it already. */
  lemma CreationKeepsOrderIff<T>(names: UnitNames, rules: seq<Rule<T>>, nbr: int, name: string)
    requires Ordered(names, rules) && nbr !in names
    ensures Ordered(names[nbr := name], rules) <==> !Disturbs(names, rules, nbr, name)
  {
    var later := names[nbr := name];
    forall i, j | 0 <= i < j < |rules|
      ensures InOrder(later, rules[i].key, rules[j].key)
         <==> !CreatedTooLate(names, rules[i].key, rules[j].key, nbr, name)
    {
      assert InOrder(names, rules[i].key, rules[j].key);
    }
  }

  /** Erasing a unit never puts rules out of order, even rules that name it. */
  lemma ErasureKeepsOrder<T>(names: UnitNames, rules: seq<Rule<T>>, nbr: int)
    requires Ordered(names, rules)
    ensures Ordered(names - {nbr}, rules)
  {
    forall i, j | 0 <= i < j < |rules| ensures InOrder(names - {nbr}, rules[i].key, rules[j].key) {
      assert InOrder(names, rules[i].key, rules[j].key);
    }
  }

  /** The operations that bear on a rule list, changes of the unit hierarchy included. */
  datatype Op<T> =
    | Add(rule: Rule<T>)
    | Remove(key: RuleKey)
    | CreateUnit(nbr: int, name: string)
    | EraseUnit(nbr: int)

  /** Units come and go under the hierarchy's own rules, and none comes too late for the rules that name it. */
  ghost predicate Admissible<T>(names: UnitNames, rules: seq<Rule<T>>, op: Op<T>) {
    match op
    case Add(_) => true
    case Remove(_) => true
    case CreateUnit(nbr, name) =>
      nbr !in names && Unused(names, name) && !Disturbs(names, rules, nbr, name)
    case EraseUnit(nbr) => nbr != 0
  }

  datatype ListState<T> = ListState(names: UnitNames, rules: seq<Rule<T>>)

  function Apply<T>(s: ListState<T>, op: Op<T>): ListState<T> {
    match op
    case Add(r) => s.(rules := AddRule(s.names, s.rules, r))
    case Remove(k) => s.(rules := RemoveRule(s.names, s.rules, k))
    case CreateUnit(nbr, name) => s.(names := s.names[nbr := name])
    case EraseUnit(nbr) => s.(names := s.names - {nbr})
  }

  ghost predicate RunFrom<T>(s: ListState<T>, ops: seq<Op<T>>, t: ListState<T>)
    decreases |ops|
  {
    if ops == [] then t == s
    else Admissible(s.names, s.rules, ops[0]) && RunFrom(Apply(s, ops[0]), ops[1..], t)
  }

  /** Whatever rules are added and removed and whatever units are erased, and created in time, the list stays
      ordered. */
  lemma {:induction false} EveryRunKeepsOrder<T>(s: ListState<T>, ops: seq<Op<T>>, t: ListState<T>)
    requires WellNamed(s.names) && Ordered(s.names, s.rules) && RunFrom(s, ops, t)
    ensures WellNamed(t.names) && Ordered(t.names, t.rules)
    decreases |ops|
  {
    if ops != [] {
      var next := Apply(s, ops[0]);
      match ops[0] {
        case Add(r) => AddRuleKeepsOrder(s.names, s.rules, r);
        case Remove(k) => RemoveRuleKeepsOrder(s.names, s.rules, k);
        case CreateUnit(nbr, name) => CreationKeepsOrderIff(s.names, s.rules, nbr, name);
        case EraseUnit(nbr) => ErasureKeepsOrder(s.names, s.rules, nbr);
      }
      EveryRunKeepsOrder(next, ops[1..], t);
    }
  }

  /** From an empty list, every run leaves a list on which both searches are exact. */
  lemma SearchesOnEveryRun<T>(names: UnitNames, ops: seq<Op<T>>, t: ListState<T>, k: RuleKey)
    requires WellNamed(names) && RunFrom(ListState(names, []), ops, t)
    ensures FindRule(t.names, t.rules, k, 0).Found? <==> HasKey(t.rules, k)
    ensures forall i, j :: 0 <= i < j < |t.rules| ==> t.rules[i].key != t.rules[j].key
    ensures var at := GetRule(t.names, t.rules, k, 0);
      && (at < |t.rules| <==> exists j: nat :: AppliesAt(t.names, t.rules, j, k))
      && (at < |t.rules| ==> AppliesAt(t.names, t.rules, at, k))
      && forall j: nat :: AppliesAt(t.names, t.rules, j, k) ==>
           var a, b := t.rules[at].key, t.rules[j].key;
           if a.roleNbr != b.roleNbr then b.roleNbr == 0
           else if a.continuumNbr != b.continuumNbr then b.continuumNbr == 0
           else |t.names[a.unitNbr]| >= |t.names[b.unitNbr]|
  {
    EveryRunKeepsOrder(ListState(names, []), ops, t);
    FindRuleIsExact(t.names, t.rules, k);
    GetRuleIsMostSpecific(t.names, t.rules, k);
    forall i, j | 0 <= i < j < |t.rules| ensures t.rules[i].key != t.rules[j].key {
      assert InOrder(t.names, t.rules[i].key, t.rules[j].key);
    }
  }

  /** A rule for the root unit and then one for a unit that does not exist, otherwise alike: they stand in the order
      they were added. Once the unit is created, under whatever unused name, that is the wrong order, and its modules'
      messages go by the rule for the root unit. */
  lemma RuleForMissingUnit<T>(names: UnitNames, root: Rule<T>, missing: Rule<T>, name: string)
    requires WellNamed(names) && missing.key.unitNbr !in names && Unused(names, name)
    requires root.key == missing.key.(unitNbr := 0)
    ensures var rules := AddRule(names, AddRule(names, [], root), missing);
      && rules == [root, missing] && Ordered(names, rules)
      && var later := names[missing.key.unitNbr := name];
         && !Ordered(later, rules)
         && GetRule(later, rules, missing.key, 0) == 0
         && Applies(later, missing.key, missing.key) && !AtLeastAsSpecific(later, root.key, missing.key)
  {
    var later := names[missing.key.unitNbr := name];
    assert AddRule(names, [], root) == [root];
    assert FindRule(names, [root], missing.key, 0) == FindRule(names, [root], missing.key, 1) == Missing(1);
    var rules := AddRule(names, [root], missing);
    assert rules == [root, missing];
    assert CreatedTooLate(names, rules[0].key, rules[1].key, missing.key.unitNbr, name);
    CreationKeepsOrderIff(names, rules, missing.key.unitNbr, name);
  }

  // ---------- the service access point ----------

  datatype Service = Service(priority: int, flowLabel: int, vectorNbr: int)

  type MsgRule = Rule<Service>

  datatype RuleType = SUBSCRIPTION | INVITATION

  class Sap {
    const venture: Venture
    var subscriptions: seq<MsgRule>
    var invitations: seq<MsgRule>

    ghost predicate Valid()
      reads this, venture, venture.units, venture.Repr
    {
      && venture.Valid()
      && Ordered(venture.Names, subscriptions)
      && Ordered(venture.Names, invitations)
    }

    constructor (venture: Venture)
      requires venture.Valid()
      ensures Valid() && this.venture == venture && subscriptions == [] && invitations == []
    {
      this.venture := venture;
      subscriptions, invitations := [], [];
    }

    function Rules(ruleType: RuleType): seq<MsgRule>
      reads this
    {
      if ruleType == SUBSCRIPTION then subscriptions else invitations
    }

    method GetMsgRule(rules: seq<MsgRule>, subjectNbr: int, roleNbr: int, continuumNbr: int, unitNbr: int)
      returns (found: bool, at: nat)
      requires venture.Valid() && 0 <= unitNbr <= MAX_UNIT_NBR
      ensures at == GetRule(venture.Names, rules, RuleKey(subjectNbr, roleNbr, continuumNbr, unitNbr), 0)
      ensures found <==> at < |rules|
    {
      ghost var sender := RuleKey(subjectNbr, roleNbr, continuumNbr, unitNbr);
      at := 0;
      while at < |rules|
        invariant at <= |rules|
        invariant GetRule(venture.Names, rules, sender, 0) == GetRule(venture.Names, rules, sender, at)
      {
        var rule := rules[at].key;
        if rule.subjectNbr > subjectNbr { return false, |rules|; }
        if rule.subjectNbr == subjectNbr && (rule.roleNbr == roleNbr || rule.roleNbr == 0)
           && (rule.continuumNbr == continuumNbr || rule.continuumNbr == 0) {
          var within := venture.IsSubunitOf(unitNbr, rule.unitNbr);
          if within { return true, at; }
        }
        at := at + 1;
      }
      return false, at;
    }

    method FindMsgRule(rules: seq<MsgRule>, k: RuleKey) returns (p: Place)
      requires venture.Valid() && 0 <= k.unitNbr <= MAX_UNIT_NBR
      ensures p == FindRule(venture.Names, rules, k, 0)
    {
      var i := 0;
      while i < |rules|
        invariant i <= |rules|
        invariant FindRule(venture.Names, rules, k, 0) == FindRule(venture.Names, rules, k, i)
      {
        var rule := rules[i].key;
        if rule.subjectNbr > k.subjectNbr { return Missing(i); }
        if rule.subjectNbr == k.subjectNbr {
          if rule.roleNbr != k.roleNbr {
            if rule.roleNbr == 0 { return Missing(i); }
          } else if rule.continuumNbr != k.continuumNbr {
            if rule.continuumNbr == 0 { return Missing(i); }
          } else if rule.unitNbr != k.unitNbr {
            var within := venture.IsSubunitOf(k.unitNbr, rule.unitNbr);
            if within { return Missing(i); }
          } else {
            return Found(i);
          }
        }
        i := i + 1;
      }
      return Missing(i);
    }

    /** Adds a rule unless there is one with its key already. */
    method AddMsgRule(ruleType: RuleType, r: MsgRule) returns (added: bool)
      requires Valid() && 0 <= r.key.unitNbr <= MAX_UNIT_NBR
      modifies this
      ensures Valid()
      ensures added <==> !HasKey(old(Rules(ruleType)), r.key)
      ensures Rules(ruleType) == AddRule(venture.Names, old(Rules(ruleType)), r)
      ensures if ruleType == SUBSCRIPTION then unchanged(`invitations) else unchanged(`subscriptions)
    {
      var rules := Rules(ruleType);
      var p := FindMsgRule(rules, r.key);
      FindRuleIsExact(venture.Names, rules, r.key);
      AddRuleKeepsOrder(venture.Names, rules, r);
      if p.Found? { return false; }
      rules := rules[..p.at] + [r] + rules[p.at..];
      if ruleType == SUBSCRIPTION { subscriptions := rules; } else { invitations := rules; }
      return true;
    }

    /** Removes the rule with this key, if there is one. */
    method RemoveMsgRule(ruleType: RuleType, k: RuleKey) returns (removed: bool)
      requires Valid() && 0 <= k.unitNbr <= MAX_UNIT_NBR
      modifies this
      ensures Valid()
      ensures removed <==> HasKey(old(Rules(ruleType)), k)
      ensures Rules(ruleType) == RemoveRule(venture.Names, old(Rules(ruleType)), k)
      ensures if ruleType == SUBSCRIPTION then unchanged(`invitations) else unchanged(`subscriptions)
    {
      var rules := Rules(ruleType);
      var p := FindMsgRule(rules, k);
      FindRuleIsExact(venture.Names, rules, k);
      RemoveRuleKeepsOrder(venture.Names, rules, k);
      if p.Missing? { return false; }
      rules := rules[..p.at] + rules[p.at + 1..];
      if ruleType == SUBSCRIPTION { subscriptions := rules; } else { invitations := rules; }
      return true;
    }
  }
}
