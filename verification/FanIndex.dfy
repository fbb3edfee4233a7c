/** The two-way index between modules and subjects: each module lists the subjects it is interested in,
    each subject the modules interested in it, and either list may be searched in place of the other. */
module FanIndex {
  import opened Lists
  import opened MsgRules
  import opened Options
  import opened Units

  // ---------- transmission rules ----------

  /** How messages are sent under a rule, whether the receiver's role is authorized, and whether the
      receiver has confirmed the rule lately. */
  datatype Transmission = Transmission(endpoint: int, priority: nat, flowLabel: nat, okay: bool, confirmed: bool)

  type XmitRule = Rule<Transmission>

  ghost predicate Ascend(s: seq<int>) {
    forall i, j :: 0 <= i < j < |s| ==> s[i] < s[j]
  }

  /** The names of authorized receivers are listed in ascending order, and the search stops at the first that
      is not below the role's name; null, no list, authorizes everybody. */
  method IsAuthorized(authorized: Option<seq<int>>, role: int) returns (okay: bool)
    requires authorized.Some? ==> Ascend(authorized.value)
    ensures okay <==> authorized.None? || role in authorized.value
  {
    if authorized.None? { return true; }
    var i := 0;
    while i < |authorized.value|
      invariant 0 <= i <= |authorized.value|
      invariant role !in authorized.value[..i]
    {
      if authorized.value[i] >= role {
        if authorized.value[i] > role {
          forall j | i <= j < |authorized.value| ensures authorized.value[j] != role {}
        }
        return authorized.value[i] == role;
      }
      i := i + 1;
    }
    okay := false;
  }

  /** The rules with r noted: confirmed if it is there already, in place of one with its key that differs,
      or else inserted. */
  function Noted(names: UnitNames, rules: seq<XmitRule>, r: XmitRule): seq<XmitRule> {
    var p := FindRule(names, rules, r.key, 0);
    if p.Found? && p.at < |rules| then
      if SameTransmission(rules[p.at].service, r.service)
      then rules[p.at := Confirm(rules[p.at], r.service.confirmed)]
      else rules[..p.at] + [r] + rules[p.at + 1..]
    else rules[..p.at] + [r] + rules[p.at..]
  }

  predicate SameTransmission(a: Transmission, b: Transmission) {
    a.endpoint == b.endpoint && a.priority == b.priority && a.flowLabel == b.flowLabel
  }

  function Confirm(r: XmitRule, confirmed: bool): XmitRule {
    r.(service := r.service.(confirmed := r.service.confirmed || confirmed))
  }

  lemma OneRulePerKey(names: UnitNames, rules: seq<XmitRule>, at: nat)
    requires Ordered(names, rules) && at < |rules|
    ensures forall x :: x in rules && x.key == rules[at].key ==> x == rules[at]
  {
    forall i | 0 <= i < |rules| && i != at ensures rules[i].key != rules[at].key {
      if i < at {
        assert InOrder(names, rules[i].key, rules[at].key);
      } else {
        assert InOrder(names, rules[at].key, rules[i].key);
      }
    }
  }

  /** Noting a rule keeps the list in order and touches no other rule. If the list has one with its key, to the same
      endpoint and with the same priority and flow label, that one stays, confirmed if asked for; otherwise the noted
      rule is the one with its key. */
  lemma NotedIsKept(names: UnitNames, rules: seq<XmitRule>, r: XmitRule)
    requires WellNamed(names) && Ordered(names, rules)
    ensures var s := Noted(names, rules, r);
      && Ordered(names, s)
      && (forall y ::
            (&& y in rules && y.key == r.key && y.service.endpoint == r.service.endpoint
             && y.service.priority == r.service.priority && y.service.flowLabel == r.service.flowLabel) ==>
            y.(service := y.service.(confirmed := y.service.confirmed || r.service.confirmed)) in s)
      && ((forall y :: y in rules && y.key == r.key ==>
             || y.service.endpoint != r.service.endpoint || y.service.priority != r.service.priority
             || y.service.flowLabel != r.service.flowLabel) ==>
          r in s)
      && (forall x: XmitRule :: x.key != r.key ==> (x in s <==> x in rules))
  {
    FindRuleIsExact(names, rules, r.key);
    var p, s := FindRule(names, rules, r.key, 0), Noted(names, rules, r);
    if p.Found? {
      forall i, j | 0 <= i < j < |s| ensures InOrder(names, s[i].key, s[j].key) {
        assert s[i].key == rules[i].key && s[j].key == rules[j].key;
      }
      assert s[p.at].key == r.key;
      assert rules == rules[..p.at] + [rules[p.at]] + rules[p.at + 1..];
      assert s == rules[..p.at] + [s[p.at]] + rules[p.at + 1..];
      OneRulePerKey(names, rules, p.at);
    } else {
      InsertKeepsOrder(names, rules, r, p.at);
      assert s[p.at] == r;
      assert rules == rules[..p.at] + rules[p.at..];
    }
  }

  /** All rules are for one subject. */
  predicate AllFor(rules: seq<XmitRule>, subjectNbr: int) {
    forall r :: r in rules ==> r.key.subjectNbr == subjectNbr
  }

  /** They still are with a rule for it noted, be they in order or not. */
  lemma NotedAllFor(names: UnitNames, rules: seq<XmitRule>, r: XmitRule)
    requires AllFor(rules, r.key.subjectNbr)
    ensures AllFor(Noted(names, rules, r), r.key.subjectNbr)
  {
    var p := FindRule(names, rules, r.key, 0);
    if p.Found? && p.at < |rules| { assert rules[p.at] in rules; }
  }

  lemma NoRulesOrdered(names: UnitNames)
    ensures Ordered<Transmission>(names, [])
  {
  }

  /** Removing a rule keeps the others in order, if they are, and for their subject. */
  lemma RemovedIsKept(names: UnitNames, rules: seq<XmitRule>, k: RuleKey)
    requires WellNamed(names) && AllFor(rules, k.subjectNbr)
    ensures AllFor(RemoveRule(names, rules, k), k.subjectNbr)
    ensures Ordered(names, rules) ==> Ordered(names, RemoveRule(names, rules, k))
  {
    hide Ordered, FindRule;
    if Ordered(names, rules) { RemoveRuleKeepsOrder(names, rules, k); }
  }

  // ---------- the index ----------

  /** A subject or, under the additive inverse of its continuum's number, a message space. */
  class Subject {
    const nbr: int
    var modules: seq<FanModule>

    constructor (nbr: int)
      ensures this.nbr == nbr && modules == []
    {
      this.nbr, modules := nbr, [];
    }
  }

  class Module {
    const unitNbr: int
    const nbr: int
    var role: Option<int>
    var mamsEndpoint: Option<int>
    var amsEndpoints: seq<int>
    var subjects: seq<SubjOfInterest>

    constructor (unitNbr: int, nbr: int)
      ensures this.unitNbr == unitNbr && this.nbr == nbr && subjects == []
      ensures role == None && mamsEndpoint == None && amsEndpoints == []
    {
      this.unitNbr, this.nbr, subjects := unitNbr, nbr, [];
      role, mamsEndpoint, amsEndpoints := None, None, [];
    }
  }

  class SubjOfInterest {
    const subject: Subject
    var fanElt: FanModule?
    var subscriptions: seq<XmitRule>
    var invitations: seq<XmitRule>

    constructor (subject: Subject)
      ensures this.subject == subject && fanElt == null && subscriptions == [] && invitations == []
    {
      this.subject, fanElt, subscriptions, invitations := subject, null, [], [];
    }
  }

  class FanModule {
    const interested: Module
    const subj: SubjOfInterest

    constructor (interested: Module, subj: SubjOfInterest)
      ensures this.interested == interested && this.subj == subj
    {
      this.interested, this.subj := interested, subj;
    }
  }

  /** Modules are listed by unit number, then by module number. */
  predicate Before(a: Module, b: Module) {
    a.unitNbr < b.unitNbr || (a.unitNbr == b.unitNbr && a.nbr < b.nbr)
  }

  ghost predicate SubjectsAscend(s: seq<SubjOfInterest>) {
    forall i, j :: 0 <= i < j < |s| ==> s[i].subject.nbr < s[j].subject.nbr
  }

  ghost predicate FansAscend(s: seq<FanModule>) {
    forall i, j :: 0 <= i < j < |s| ==> Before(s[i].interested, s[j].interested)
  }

  /** The interest in s that a module's list shows; null if none. */
  function InterestIn(list: seq<SubjOfInterest>, s: Subject): (x: SubjOfInterest?)
    ensures x != null ==> x in list && x.subject == s
    ensures x == null ==> forall y :: y in list ==> y.subject != s
  {
    if list == [] then null else if list[0].subject == s then list[0] else InterestIn(list[1..], s)
  }

  /** The interest of m that a subject's list shows. */
  function FanIn(list: seq<FanModule>, m: Module): (x: SubjOfInterest?)
    ensures x != null ==> exists f :: f in list && f.interested == m && f.subj == x
    ensures x == null ==> forall f :: f in list ==> f.interested != m
  {
    if list == [] then null else if list[0].interested == m then list[0].subj else FanIn(list[1..], m)
  }

  /** The fan-out list without the interests of m. */
  function WithoutModule(list: seq<FanModule>, m: Module): (r: seq<FanModule>)
    ensures forall i :: 0 <= i < |r| ==> r[i] in list && r[i].interested != m
    ensures forall i :: 0 <= i < |list| && list[i].interested != m ==> list[i] in r
    ensures (forall f :: f in list ==> f.interested != m) ==> r == list
  {
    if list == [] then []
    else if list[0].interested == m then WithoutModule(list[1..], m)
    else [list[0]] + WithoutModule(list[1..], m)
  }

  lemma {:induction false} WithoutModuleConcat(a: seq<FanModule>, b: seq<FanModule>, m: Module)
    ensures WithoutModule(a + b, m) == WithoutModule(a, m) + WithoutModule(b, m)
  {
    if a == [] {
      assert a + b == b;
    } else {
      assert (a + b)[1..] == a[1..] + b;
      WithoutModuleConcat(a[1..], b, m);
    }
  }

  lemma RemoveFan(list: seq<FanModule>, fan: FanModule)
    requires FansAscend(list) && fan in list
    ensures var r := RemoveFirst(list, fan);
      && FansAscend(r)
      && (forall f :: f in r <==> f in list && f != fan)
      && WithoutModule(r, fan.interested) == WithoutModule(list, fan.interested)
  {
    hide WithoutModule, FansAscend;
    var k :| 0 <= k < |list| && list[k] == fan;
    assert fan !in list[..k] by { Ascending(list, k); }
    RemoveFirstAt(list, k);
    Ascending(list, k);
    assert list == list[..k] + ([fan] + list[k + 1..]);
    WithoutOne(list[..k], fan, list[k + 1..]);
  }

  lemma Ascending(list: seq<FanModule>, k: nat)
    requires FansAscend(list) && k < |list|
    ensures var r := list[..k] + list[k + 1..];
      && list[k] !in list[..k]
      && FansAscend(r)
      && forall f :: f in r <==> f in list && f != list[k]
  {
    forall f | f in list && f != list[k] ensures f in list[..k] + list[k + 1..] {
      var i :| 0 <= i < |list| && list[i] == f;
      if i < k { assert f == list[..k][i]; } else { assert f == list[k + 1..][i - k - 1]; }
    }
  }

  lemma WithoutOne(a: seq<FanModule>, fan: FanModule, b: seq<FanModule>)
    ensures WithoutModule(a + ([fan] + b), fan.interested) == WithoutModule(a + b, fan.interested)
  {
    WithoutModuleConcat(a, [fan] + b, fan.interested);
    WithoutModuleConcat([fan], b, fan.interested);
    WithoutModuleConcat(a, b, fan.interested);
  }

  /** Finds the interest in a subject, or the place for one, stopping early on the order of the list. */
  method FindSubjOfInterest(list: seq<SubjOfInterest>, subjectNbr: int) returns (elt: SubjOfInterest?, at: nat)
    requires SubjectsAscend(list)
    ensures at <= |list|
    ensures elt != null ==> at < |list| && elt == list[at] && elt.subject.nbr == subjectNbr
    ensures elt == null ==>
      && (forall i :: 0 <= i < at ==> list[i].subject.nbr < subjectNbr)
      && (forall i :: at <= i < |list| ==> list[i].subject.nbr > subjectNbr)
  {
    at := 0;
    while at < |list|
      invariant at <= |list|
      invariant forall i :: 0 <= i < at ==> list[i].subject.nbr < subjectNbr
    {
      if list[at].subject.nbr > subjectNbr { return null, at; }
      if list[at].subject.nbr == subjectNbr { return list[at], at; }
      at := at + 1;
    }
    elt := null;
  }

  method FindFanModule(list: seq<FanModule>, m: Module) returns (elt: FanModule?, at: nat)
    requires FansAscend(list)
    ensures at <= |list|
    ensures elt != null ==>
      at < |list| && elt == list[at] && elt.interested.unitNbr == m.unitNbr && elt.interested.nbr == m.nbr
    ensures elt == null ==>
      && (forall i :: 0 <= i < at ==> Before(list[i].interested, m))
      && (forall i :: at <= i < |list| ==> Before(m, list[i].interested))
  {
    at := 0;
    while at < |list|
      invariant at <= |list|
      invariant forall i :: 0 <= i < at ==> Before(list[i].interested, m)
    {
      var other := list[at].interested;
      if other.unitNbr > m.unitNbr { return null, at; }
      if other.unitNbr == m.unitNbr {
        if other.nbr > m.nbr { return null, at; }
        if other.nbr == m.nbr { return list[at], at; }
      }
      at := at + 1;
    }
    elt := null;
  }

  lemma InsertSubject(list: seq<SubjOfInterest>, at: nat, x: SubjOfInterest)
    requires SubjectsAscend(list) && at <= |list|
    requires forall i :: 0 <= i < at ==> list[i].subject.nbr < x.subject.nbr
    requires forall i :: at <= i < |list| ==> list[i].subject.nbr > x.subject.nbr
    ensures var r := list[..at] + [x] + list[at..];
      SubjectsAscend(r) && forall y :: y in r <==> y == x || y in list
  {
    assert list == list[..at] + list[at..];
  }

  lemma InsertFan(list: seq<FanModule>, at: nat, fan: FanModule)
    requires FansAscend(list) && at <= |list|
    requires forall i :: 0 <= i < at ==> Before(list[i].interested, fan.interested)
    requires forall i :: at <= i < |list| ==> Before(fan.interested, list[i].interested)
    ensures var r := list[..at] + [fan] + list[at..];
      FansAscend(r) && forall f :: f in r <==> f == fan || f in list
  {
    assert list == list[..at] + list[at..];
  }

  function OtherType(t: RuleType): RuleType {
    if t == SUBSCRIPTION then INVITATION else SUBSCRIPTION
  }

  function RulesOf(x: SubjOfInterest, t: RuleType): seq<XmitRule>
    reads x
  {
    if t == SUBSCRIPTION then x.subscriptions else x.invitations
  }

  class Venture {
    var names: UnitNames
    ghost var modules: set<Module>
    ghost var subjects: set<Subject>
    ghost var interests: set<SubjOfInterest>

    /** The rules of an interest are for its subject. */
    ghost predicate RulesFit(x: SubjOfInterest)
      reads x
    {
      AllFor(x.subscriptions, x.subject.nbr) && AllFor(x.invitations, x.subject.nbr)
    }

    ghost predicate InOrderAt(x: SubjOfInterest)
      reads `names, x`subscriptions, x`invitations
    {
      Ordered(names, x.subscriptions) && Ordered(names, x.invitations)
    }

    /** All lists of rules are in order. The index does not turn on it, but the searches for rules do. */
    ghost predicate RulesOrdered()
      reads `names, `interests, interests`subscriptions, interests`invitations
    {
      forall x :: x in interests ==> InOrderAt(x)
    }

    /** Every interest a module lists is listed by its subject, which points back to it ... */
    ghost predicate ModuleListed(m: Module)
      reads this, m`subjects, subjects, interests
    {
      && SubjectsAscend(m.subjects)
      && (forall x :: x in m.subjects ==>
            && x in interests && x.subject in subjects
            && x.fanElt != null && x.fanElt in x.subject.modules
            && x.fanElt.interested == m && x.fanElt.subj == x)
    }

    /** ... and every module a subject lists lists that interest. */
    ghost predicate SubjectListed(s: Subject)
      reads this, s, modules`subjects, interests
    {
      && FansAscend(s.modules)
      && (forall f :: f in s.modules ==>
            && f.interested in modules && f.subj in f.interested.subjects
            && f.subj in interests && f.subj.subject == s && f.subj.fanElt == f)
    }

    /** Modules and subjects are known by their numbers. */
    ghost predicate Numbered()
      reads this
    {
      && (forall m, n :: m in modules && n in modules && m.unitNbr == n.unitNbr && m.nbr == n.nbr ==> m == n)
      && (forall s, t :: s in subjects && t in subjects && s.nbr == t.nbr ==> s == t)
    }

    ghost predicate Valid()
      reads this, modules`subjects, subjects, interests
    {
      && WellNamed(names) && Numbered()
      && (forall m :: m in modules ==> ModuleListed(m))
      && (forall s :: s in subjects ==> SubjectListed(s))
      && (forall x :: x in interests ==> RulesFit(x))
    }

    constructor (names: UnitNames, modules: set<Module>, subjects: set<Subject>)
      requires WellNamed(names)
      requires forall m :: m in modules ==> m.subjects == []
      requires forall s :: s in subjects ==> s.modules == []
      requires forall m, n :: m in modules && n in modules && m.unitNbr == n.unitNbr && m.nbr == n.nbr ==> m == n
      requires forall s, t :: s in subjects && t in subjects && s.nbr == t.nbr ==> s == t
      ensures Valid() && this.names == names && this.modules == modules && this.subjects == subjects && interests == {}
    {
      this.names, this.modules, this.subjects, interests := names, modules, subjects, {};
    }

    /** The two lists are mutual inverses: for every module and subject they show the same interest or none. */
    lemma MutualInverses(m: Module, s: Subject)
      requires Valid() && m in modules && s in subjects
      ensures InterestIn(m.subjects, s) == FanIn(s.modules, m)
      ensures forall x :: x in m.subjects && x.subject == s ==> x == InterestIn(m.subjects, s)
      ensures forall f :: f in s.modules && f.interested == m ==> f.subj == FanIn(s.modules, m)
    {
      var x, y := InterestIn(m.subjects, s), FanIn(s.modules, m);
      assert ModuleListed(m) && SubjectListed(s);
      forall z | z in m.subjects && z.subject == s ensures z == x {
        var i :| 0 <= i < |m.subjects| && m.subjects[i] == z;
        var j :| 0 <= j < |m.subjects| && m.subjects[j] == x;
      }
    }

    /** m lists its new interest x at one place, and x's subject lists m at another. */
    method Link(m: Module, x: SubjOfInterest, at: nat, fanAt: nat)
      requires Valid() && m in modules && x.subject in subjects && x !in interests && RulesFit(x)
      requires at <= |m.subjects| && fanAt <= |x.subject.modules|
      requires forall i :: 0 <= i < at ==> m.subjects[i].subject.nbr < x.subject.nbr
      requires forall i :: at <= i < |m.subjects| ==> m.subjects[i].subject.nbr > x.subject.nbr
      requires forall i :: 0 <= i < fanAt ==> Before(x.subject.modules[i].interested, m)
      requires forall i :: fanAt <= i < |x.subject.modules| ==> Before(m, x.subject.modules[i].interested)
      modifies this`interests, m`subjects, x.subject`modules, x`fanElt
      ensures Valid()
      ensures m.subjects == old(m.subjects[..at]) + [x] + old(m.subjects[at..])
      ensures interests == old(interests) + {x}
      ensures x.fanElt != null
      ensures x.subject.modules == old(x.subject.modules[..fanAt]) + [x.fanElt] + old(x.subject.modules[fanAt..])
    {
      hide SubjectsAscend, FansAscend, Ordered, WellNamed;
      var s := x.subject;
      assert ModuleListed(m) && SubjectListed(s);
      var fan := new FanModule(m, x);
      InsertSubject(m.subjects, at, x);
      InsertFan(s.modules, fanAt, fan);
      m.subjects := m.subjects[..at] + [x] + m.subjects[at..];
      s.modules := s.modules[..fanAt] + [fan] + s.modules[fanAt..];
      x.fanElt := fan;
      interests := interests + {x};
      forall n | n in modules ensures ModuleListed(n) {
        assert old(ModuleListed(n));
      }
      forall t | t in subjects ensures SubjectListed(t) {
        assert old(SubjectListed(t));
      }
    }

    /** Finds the rule with key k among the rules of one interest, or the place for it. */
    method FindXmitRule(rules: seq<XmitRule>, k: RuleKey) returns (p: Place)
      requires forall r :: r in rules ==> r.key.subjectNbr == k.subjectNbr
      ensures p == FindRule(names, rules, k, 0)
      ensures p.Found? ==> p.at < |rules|
    {
      var i := 0;
      while i < |rules|
        invariant i <= |rules|
        invariant FindRule(names, rules, k, 0) == FindRule(names, rules, k, i)
      {
        var rule := rules[i].key;
        assert rules[i] in rules;
        if rule.roleNbr != k.roleNbr {
          if rule.roleNbr == 0 { return Missing(i); }
        } else if rule.continuumNbr != k.continuumNbr {
          if rule.continuumNbr == 0 { return Missing(i); }
        } else if rule.unitNbr != k.unitNbr {
          if SubunitOf(names, k.unitNbr, rule.unitNbr) { return Missing(i); }
        } else {
          return Found(i);
        }
        i := i + 1;
      }
      return Missing(i);
    }

    /** Notes one rule in a list of rules. */
    method NoteRule(rules: seq<XmitRule>, r: XmitRule) returns (noted: seq<XmitRule>)
      requires WellNamed(names) && AllFor(rules, r.key.subjectNbr)
      ensures noted == Noted(names, rules, r) && AllFor(noted, r.key.subjectNbr)
      ensures Ordered(names, rules) ==> Ordered(names, noted)
    {
      hide InOrder, Ordered, FindRule;
      if Ordered(names, rules) { NotedIsKept(names, rules, r); }
      NotedAllFor(names, rules, r);
      noted := rules;
      var p := FindXmitRule(rules, r.key);
      if p.Found? {
        var rule := rules[p.at];
        assert rule in rules;
        if SameTransmission(rule.service, r.service) {
          return rules[p.at := Confirm(rule, r.service.confirmed)];
        }
        noted := noted[..p.at] + noted[p.at + 1..];
      }
      noted := noted[..p.at] + [r] + noted[p.at..];
    }

    /** What a valid index says about the lists of m and s. */
    lemma ListFacts(m: Module, s: Subject)
      requires Valid() && m in modules && s in subjects
      ensures SubjectsAscend(m.subjects) && FansAscend(s.modules)
      ensures forall x :: x in m.subjects ==> x in interests && (x.subject.nbr == s.nbr ==> x.subject == s)
      ensures forall f :: f in s.modules && f.interested.unitNbr == m.unitNbr && f.interested.nbr == m.nbr ==>
                f.interested == m
    {
      assert ModuleListed(m) && SubjectListed(s);
    }

    /** m's interest in s, listed in both directions if it is new. False if the two lists disagree. */
    method TakeInterest(m: Module, s: Subject) returns (inSync: bool, subj: SubjOfInterest?)
      requires Valid() && m in modules && s in subjects
      modifies this`interests, m`subjects, s`modules
      ensures Valid() && inSync && subj != null && interests == old(interests) + {subj}
      ensures InterestIn(m.subjects, s) == subj
      ensures var was := InterestIn(old(m.subjects), s);
        if was != null then subj == was && m.subjects == old(m.subjects) && s.modules == old(s.modules)
        else && fresh(subj) && subj.subscriptions == [] && subj.invitations == []
             && multiset(m.subjects) == multiset(old(m.subjects)) + multiset{subj}
    {
      hide SubjectsAscend, FansAscend, Valid, InterestIn, FanIn;
      MutualInverses(m, s);
      ListFacts(m, s);
      var elt, at := FindSubjOfInterest(m.subjects, s.nbr);
      if elt != null {
        return true, elt;
      }
      assert InterestIn(m.subjects, s) == null;
      var x := new SubjOfInterest(s);
      var fan, fanAt := FindFanModule(s.modules, m);
      if fan != null { return false, null; }
      Link(m, x, at, fanAt);
      assert old(m.subjects) == old(m.subjects[..at]) + old(m.subjects[at..]);
      assert x in m.subjects;
      MutualInverses(m, s);
      inSync, subj := true, x;
    }

    /** A module's assertion about s. Its rule is noted among the rules of the module's interest in s, and
        no other interest changes. */
    method NoteAssertion(m: Module, role: int, s: Subject, authorized: Option<seq<int>>, k: RuleKey,
                         endpoint: int, priority: nat, flowLabel: nat, ruleType: RuleType, flag: bool)
      returns (inSync: bool, subj: SubjOfInterest?)
      requires Valid() && m in modules && s in subjects && k.subjectNbr == s.nbr
      requires authorized.Some? ==> Ascend(authorized.value)
      modifies this`interests, m`subjects, s`modules, interests
      ensures Valid() && inSync && subj != null && interests == old(interests) + {subj}
      ensures InterestIn(m.subjects, s) == subj
      ensures var was := InterestIn(old(m.subjects), s);
        if was != null then subj == was && m.subjects == old(m.subjects) && s.modules == old(s.modules)
        else fresh(subj) && multiset(m.subjects) == multiset(old(m.subjects)) + multiset{subj}
      ensures var was := InterestIn(old(m.subjects), s);
        var r := Rule(k, Transmission(endpoint, priority, flowLabel, authorized.None? || role in authorized.value,
            flag));
        var before := if was == null then [] else old(RulesOf(was, ruleType));
        RulesOf(subj, ruleType) == Noted(names, before, r)
      ensures var was := InterestIn(old(m.subjects), s);
        RulesOf(subj, OtherType(ruleType)) == if was == null then [] else old(RulesOf(was, OtherType(ruleType)))
      ensures var was := InterestIn(old(m.subjects), s);
        if ruleType == SUBSCRIPTION then subj.invitations == (if was == null then [] else old(was.invitations))
        else subj.subscriptions == (if was == null then [] else old(was.subscriptions))
      ensures forall x :: x in old(interests) && x != subj ==> unchanged(x)
      ensures old(RulesOrdered()) ==> RulesOrdered()
    {
      hide Noted, ModuleListed, SubjectListed, Ordered, WellNamed;
      ListFacts(m, s);
      inSync, subj := TakeInterest(m, s);
      if !inSync { return; }
      assert RulesFit(subj);
      NoRulesOrdered(names);
      forall x | old(RulesOrdered()) && x in interests ensures InOrderAt(x) {
        if x in old(interests) { assert old(InOrderAt(x)); }
      }
      var okay := IsAuthorized(authorized, role);
      var r := Rule(k, Transmission(endpoint, priority, flowLabel, okay, flag));
      var rules := NoteRule(RulesOf(subj, ruleType), r);
      assert RulesOrdered() ==> InOrderAt(subj);
      SetRules(subj, ruleType, rules);
    }

    /** Replace one list of rules of an interest. */
    method SetRules(x: SubjOfInterest, ruleType: RuleType, rules: seq<XmitRule>)
      requires Valid() && x in interests && AllFor(rules, x.subject.nbr)
      modifies x`subscriptions, x`invitations
      ensures Valid() && RulesOf(x, ruleType) == rules
      ensures RulesOf(x, OtherType(ruleType)) == old(RulesOf(x, OtherType(ruleType)))
      ensures old(RulesOrdered()) && Ordered(names, rules) ==> RulesOrdered()
    {
      hide Ordered;
      if ruleType == SUBSCRIPTION { x.subscriptions := rules; } else { x.invitations := rules; }
      forall m | m in modules ensures ModuleListed(m) { assert old(ModuleListed(m)); }
      forall s | s in subjects ensures SubjectListed(s) { assert old(SubjectListed(s)); }
      forall y | y in interests ensures RulesFit(y) { assert old(RulesFit(y)); }
    }

    /** A module's cancellation of a rule for s, if it has one. The interest itself stays listed, even
        with no rules left. */
    method ProcessCancellation(m: Module, s: Subject, k: RuleKey, ruleType: RuleType)
      requires Valid() && m in modules && s in subjects && k.subjectNbr == s.nbr
      modifies interests`subscriptions, interests`invitations
      ensures Valid()
      ensures var x := InterestIn(m.subjects, s);
        && (x != null ==>
              && RulesOf(x, ruleType) == RemoveRule(names, old(RulesOf(x, ruleType)), k)
              && RulesOf(x, OtherType(ruleType)) == old(RulesOf(x, OtherType(ruleType)))
              && (if ruleType == SUBSCRIPTION then unchanged(x`invitations) else unchanged(x`subscriptions)))
        && forall y :: y in interests && y != x ==> unchanged(y)
      ensures old(RulesOrdered()) ==> RulesOrdered()
    {
      hide ModuleListed, SubjectListed, Ordered, WellNamed;
      MutualInverses(m, s);
      ListFacts(m, s);
      var subj, at := FindSubjOfInterest(m.subjects, s.nbr);
      if subj == null { return; }
      assert RulesFit(subj);
      var rules := RulesOf(subj, ruleType);
      RemovedIsKept(names, rules, k);
      assert RulesOrdered() ==> InOrderAt(subj);
      var p := FindXmitRule(rules, k);
      if p.Missing? { return; }
      var left := RemoveRule(names, rules, k);
      assert left == rules[..p.at] + rules[p.at + 1..];
      hide RemoveRule, FindRule, InterestIn;
      SetRules(subj, ruleType, rules[..p.at] + rules[p.at + 1..]);
    }

    /** The first interest of m disappears from both lists. */
    method DropInterest(m: Module)
      requires Valid() && m in modules && m.subjects != []
      modifies m`subjects, subjects`modules
      ensures Valid() && m.subjects == old(m.subjects[1..])
      ensures forall s :: s in subjects ==> WithoutModule(s.modules, m) == WithoutModule(old(s.modules), m)
    {
      hide WithoutModule, SubjectsAscend, FansAscend, Ordered, WellNamed;
      assert ModuleListed(m);
      var x := m.subjects[0];
      assert SubjectListed(x.subject);
      var fan: FanModule := x.fanElt;
      RemoveFan(x.subject.modules, fan);
      ClearFirst(m.subjects);
      x.subject.modules := RemoveFirst(x.subject.modules, fan);
      m.subjects := m.subjects[1..];
      forall n | n in modules ensures ModuleListed(n) { assert old(ModuleListed(n)); }
      forall s | s in subjects ensures SubjectListed(s) { assert old(SubjectListed(s)); }
    }

    /** A module without interests is in no fan-out list. */
    lemma NobodyListed(m: Module, s: Subject)
      requires Valid() && m in modules && s in subjects && m.subjects == []
      ensures WithoutModule(s.modules, m) == s.modules
    {
      hide WithoutModule;
      assert SubjectListed(s);
    }

    /** Forgetting a module empties its lists, takes exactly its entries out of every fan-out list, and clears its
        endpoint and role. */
    method ForgetModule(m: Module)
      requires Valid() && m in modules
      modifies m, subjects`modules
      ensures Valid() && m.subjects == [] && m.amsEndpoints == [] && m.mamsEndpoint == None && m.role == None
      ensures forall s :: s in subjects ==> s.modules == WithoutModule(old(s.modules), m)
    {
      hide Valid, WithoutModule;
      m.amsEndpoints := [];
      while m.subjects != []
        invariant Valid() && m.amsEndpoints == []
        invariant forall s :: s in subjects ==> WithoutModule(s.modules, m) == WithoutModule(old(s.modules), m)
        decreases |m.subjects|
      {
        DropInterest(m);
      }
      m.mamsEndpoint, m.role := None, None;
      forall s | s in subjects ensures s.modules == WithoutModule(s.modules, m) {
        NobodyListed(m, s);
      }
    }

    // ---------- units that come and go ----------

    /** A new unit leaves the index alone, and keeps all rule lists in order iff it comes too late for none of them. */
    method NoteUnit(nbr: int, name: string)
      requires Valid() && nbr !in names && Unused(names, name)
      modifies `names
      ensures Valid() && names == old(names)[nbr := name]
      ensures old(RulesOrdered()) ==>
        (RulesOrdered() <==>
           forall x :: x in interests ==>
             !Disturbs(old(names), x.subscriptions, nbr, name) && !Disturbs(old(names), x.invitations, nbr, name))
    {
      hide Ordered, Disturbs;
      forall x | x in interests && InOrderAt(x)
        ensures Ordered(names[nbr := name], x.subscriptions) <==> !Disturbs(names, x.subscriptions, nbr, name)
        ensures Ordered(names[nbr := name], x.invitations) <==> !Disturbs(names, x.invitations, nbr, name)
      {
        CreationKeepsOrderIff(names, x.subscriptions, nbr, name);
        CreationKeepsOrderIff(names, x.invitations, nbr, name);
      }
      NewNameIsWellNamed(names, nbr, name);
      names := names[nbr := name];
      forall m | m in modules ensures ModuleListed(m) { assert old(ModuleListed(m)); }
      forall s | s in subjects ensures SubjectListed(s) { assert old(SubjectListed(s)); }
      forall x | x in interests
        ensures InOrderAt(x) <==> Ordered(names, x.subscriptions) && Ordered(names, x.invitations)
        ensures old(RulesOrdered()) ==> old(InOrderAt(x))
      {
      }
    }

    /** Erasing a unit leaves the index alone, and keeps all rule lists in order. */
    method ForgetUnit(nbr: int)
      requires Valid() && nbr != 0
      modifies `names
      ensures Valid() && names == old(names) - {nbr}
      ensures old(RulesOrdered()) ==> RulesOrdered()
    {
      hide Ordered;
      forall x | x in interests && InOrderAt(x)
        ensures Ordered(names - {nbr}, x.subscriptions) && Ordered(names - {nbr}, x.invitations)
      {
        ErasureKeepsOrder(names, x.subscriptions, nbr);
        ErasureKeepsOrder(names, x.invitations, nbr);
      }
      names := names - {nbr};
      forall m | m in modules ensures ModuleListed(m) { assert old(ModuleListed(m)); }
      forall s | s in subjects ensures SubjectListed(s) { assert old(SubjectListed(s)); }
    }

    /** The interest of m in s, looked for among m's subjects. */
    method SearchSubjects(m: Module, s: Subject) returns (subj: SubjOfInterest?)
      requires Valid() && m in modules && s in subjects
      ensures subj == InterestIn(m.subjects, s)
    {
      hide Valid, InterestIn, FanIn;
      MutualInverses(m, s);
      ListFacts(m, s);
      var elt, at := FindSubjOfInterest(m.subjects, s.nbr);
      subj := elt;
    }

    /** The interest of m in s, looked for among the modules interested in s. */
    method SearchFans(m: Module, s: Subject) returns (subj: SubjOfInterest?)
      requires Valid() && m in modules && s in subjects
      ensures subj == InterestIn(m.subjects, s)
    {
      hide Valid, InterestIn, FanIn;
      MutualInverses(m, s);
      ListFacts(m, s);
      var elt, at := FindFanModule(s.modules, m);
      subj := if elt != null then elt.subj else null;
    }

    /** The interest that governs a message on s sent to m: its interest in s or, failing that, in all
        subjects. The shorter of the two lists is searched; either shows the same interest. */
    method InterestForSending(m: Module, s: Subject, allSubjects: Subject) returns (subj: SubjOfInterest?)
      requires Valid() && m in modules && s in subjects && allSubjects in subjects
      ensures var x := InterestIn(m.subjects, s);
        subj == if x != null || s.nbr <= 0 then x else InterestIn(m.subjects, allSubjects)
    {
      if |m.subjects| < |s.modules| {
        subj := SearchSubjects(m, s);
        if subj == null && s.nbr > 0 {
          subj := SearchSubjects(m, allSubjects);
        }
      } else {
        subj := SearchFans(m, s);
        if subj == null && s.nbr > 0 {
          subj := SearchFans(m, allSubjects);
        }
      }
    }
  }

  lemma NewNameIsWellNamed(names: UnitNames, nbr: int, name: string)
    requires WellNamed(names) && nbr !in names && Unused(names, name)
    ensures WellNamed(names[nbr := name])
  {
  }

  lemma ClearFirst(list: seq<SubjOfInterest>)
    requires SubjectsAscend(list) && list != []
    ensures SubjectsAscend(list[1..]) && forall x :: x in list[1..] <==> x in list && x != list[0]
  {
    assert list == [list[0]] + list[1..];
  }
}
