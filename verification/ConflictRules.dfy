/**
 * The rule list and the resolution of web/sync-conflict-resolver.ts.
 *
 * Sorting is the platform's stable sort, written as insertion sort. A timestamp is a number; other
 * truthy values in a timestamp field never compare as newer.
 */
module ConflictRules {
  import opened Basics
  import opened DeepMerge

  datatype Strategy = ServerWins | ClientWins | NewerWins | Manual

  datatype ConflictType = MessageConflict | OperationConflict | DeviceConflict

  datatype Conflict = Conflict(kind: ConflictType, entityType: Option<string>, serverValue: Value, clientValue: Value)

  datatype Rule = Rule(priority: int, condition: Conflict -> bool, resolution: Strategy, description: string)

  // ----- The ordered list -----

  /** Behind every rule of at least its priority. */
  function Insert(rules: seq<Rule>, r: Rule): seq<Rule> {
    if rules == [] || rules[0].priority < r.priority then [r] + rules
    else [rules[0]] + Insert(rules[1..], r)
  }

  function SortRules(rules: seq<Rule>): seq<Rule> {
    if rules == [] then []
    else Insert(SortRules(rules[..|rules| - 1]), rules[|rules| - 1])
  }

  ghost predicate Descending(rules: seq<Rule>) {
    forall i, j :: 0 <= i < j < |rules| ==> rules[i].priority >= rules[j].priority
  }

  function WithPriority(rules: seq<Rule>, p: int): seq<Rule> {
    if rules == [] then []
    else if rules[0].priority == p then [rules[0]] + WithPriority(rules[1..], p)
    else WithPriority(rules[1..], p)
  }

  lemma {:induction false} InsertSorted(rules: seq<Rule>, r: Rule)
    requires Descending(rules)
    ensures Descending(Insert(rules, r))
    ensures forall x :: x in Insert(rules, r) <==> x in rules || x == r
    decreases |rules|
  {
    if rules != [] && rules[0].priority >= r.priority {
      var rest := Insert(rules[1..], r);
      InsertSorted(rules[1..], r);
      assert rules == [rules[0]] + rules[1..];
      forall j | 0 <= j < |rest| ensures rest[j].priority <= rules[0].priority {
        assert rest[j] in rest;
      }
    }
  }

  lemma {:induction false} InsertStable(rules: seq<Rule>, r: Rule, p: int)
    requires Descending(rules)
    ensures WithPriority(Insert(rules, r), p)
         == WithPriority(rules, p) + (if r.priority == p then [r] else [])
    decreases |rules|
  {
    if rules == [] || rules[0].priority < r.priority {
      assert ([r] + rules)[1..] == rules;
      if r.priority == p { NoneWithPriority(rules, p); }
    } else {
      assert ([rules[0]] + Insert(rules[1..], r))[1..] == Insert(rules[1..], r);
      InsertStable(rules[1..], r, p);
    }
  }

  lemma {:induction false} NoneWithPriority(rules: seq<Rule>, p: int)
    requires forall i :: 0 <= i < |rules| ==> rules[i].priority < p
    ensures WithPriority(rules, p) == []
    decreases |rules|
  {
    if rules != [] { NoneWithPriority(rules[1..], p); }
  }

  lemma {:induction false} WithPriorityAppend(a: seq<Rule>, b: seq<Rule>, p: int)
    ensures WithPriority(a + b, p) == WithPriority(a, p) + WithPriority(b, p)
    decreases |a|
  {
    if a == [] {
      assert a + b == b;
    } else {
      assert (a + b)[1..] == a[1..] + b;
      WithPriorityAppend(a[1..], b, p);
    }
  }

  /** The sorted list is descending, and rules of one priority keep the order they came in. */
  lemma {:induction false} SortedAndStable(rules: seq<Rule>)
    ensures Descending(SortRules(rules))
    ensures forall x :: x in SortRules(rules) <==> x in rules
    ensures forall p :: WithPriority(SortRules(rules), p) == WithPriority(rules, p)
    decreases |rules|
  {
    if rules != [] {
      var front, r := rules[..|rules| - 1], rules[|rules| - 1];
      assert rules == front + [r];
      SortedAndStable(front);
      InsertSorted(SortRules(front), r);
      forall p ensures WithPriority(SortRules(rules), p) == WithPriority(rules, p) {
        InsertStable(SortRules(front), r, p);
        WithPriorityAppend(front, [r], p);
        assert WithPriority([r], p) == if r.priority == p then [r] else [];
      }
    }
  }

  function TopPriority(rules: seq<Rule>): int {
    if rules == [] then 0 else rules[0].priority
  }

  /** Those two properties leave no choice. */
  lemma {:induction false} SortedUnique(a: seq<Rule>, b: seq<Rule>)
    requires Descending(a) && Descending(b)
    requires forall p :: WithPriority(a, p) == WithPriority(b, p)
    ensures a == b
    decreases |a|
  {
    if a == [] {
      assert WithPriority(a, TopPriority(b)) == WithPriority(b, TopPriority(b));
    } else {
      assert WithPriority(a, a[0].priority) == WithPriority(b, a[0].priority);
      assert b != [];
      assert WithPriority(a, b[0].priority) == WithPriority(b, b[0].priority);
      HasPriority(a, b[0].priority);
      HasPriority(b, a[0].priority);
      assert a[0].priority == b[0].priority;
      assert a[0] == WithPriority(a, a[0].priority)[0];
      assert b[0] == WithPriority(b, a[0].priority)[0];
      forall p ensures WithPriority(a[1..], p) == WithPriority(b[1..], p) {
        assert WithPriority(a, p) == WithPriority(b, p);
        if a[0].priority == p {
          assert WithPriority(a, p)[1..] == WithPriority(a[1..], p);
          assert WithPriority(b, p)[1..] == WithPriority(b[1..], p);
        }
      }
      SortedUnique(a[1..], b[1..]);
      assert a == [a[0]] + a[1..] && b == [b[0]] + b[1..];
    }
  }

  lemma {:induction false} HasPriority(rules: seq<Rule>, p: int)
    requires WithPriority(rules, p) != []
    ensures exists i :: 0 <= i < |rules| && rules[i].priority == p
    decreases |rules|
  {
    if rules[0].priority != p {
      HasPriority(rules[1..], p);
      var i :| 0 <= i < |rules[1..]| && rules[1..][i].priority == p;
      assert rules[i + 1].priority == p;
    }
  }

  // ----- Removal -----

  function Without(rules: seq<Rule>, description: string): seq<Rule> {
    if rules == [] then []
    else if rules[0].description != description then [rules[0]] + Without(rules[1..], description)
    else Without(rules[1..], description)
  }

  lemma {:induction false} WithoutMembers(rules: seq<Rule>, d: string)
    ensures forall x :: x in Without(rules, d) <==> x in rules && x.description != d
    decreases |rules|
  {
    if rules != [] {
      WithoutMembers(rules[1..], d);
      assert rules == [rules[0]] + rules[1..];
    }
  }

  lemma {:induction false} WithoutKeepsOrder(rules: seq<Rule>, d: string)
    requires Descending(rules)
    ensures Descending(Without(rules, d))
    decreases |rules|
  {
    if rules != [] {
      var rest := Without(rules[1..], d);
      WithoutKeepsOrder(rules[1..], d);
      WithoutMembers(rules[1..], d);
      forall j | 0 <= j < |rest| ensures rest[j].priority <= rules[0].priority {
        assert rest[j] in rest;
      }
    }
  }

  lemma {:induction false} WithoutByPriority(rules: seq<Rule>, d: string, p: int)
    ensures WithPriority(Without(rules, d), p) == Without(WithPriority(rules, p), d)
    decreases |rules|
  {
    if rules != [] {
      WithoutByPriority(rules[1..], d, p);
      var rest := Without(rules[1..], d);
      if rules[0].description != d {
        assert ([rules[0]] + rest)[1..] == rest;
      }
      if rules[0].priority == p {
        var more := WithPriority(rules[1..], p);
        assert ([rules[0]] + more)[1..] == more;
      }
    }
  }

  lemma SortThenRemove(rules: seq<Rule>, d: string)
    ensures Without(SortRules(rules), d) == SortRules(Without(rules, d))
  {
    SortedAndStable(rules);
    SortedAndStable(Without(rules, d));
    WithoutKeepsOrder(SortRules(rules), d);
    forall p ensures WithPriority(Without(SortRules(rules), d), p) == WithPriority(SortRules(Without(rules, d)), p) {
      WithoutByPriority(SortRules(rules), d, p);
      WithoutByPriority(rules, d, p);
      assert WithPriority(SortRules(rules), p) == WithPriority(rules, p);
      assert WithPriority(SortRules(Without(rules, d)), p) == WithPriority(Without(rules, d), p);
    }
    SortedUnique(Without(SortRules(rules), d), SortRules(Without(rules, d)));
  }

  lemma SortThenAdd(rules: seq<Rule>, r: Rule)
    ensures SortRules(SortRules(rules) + [r]) == SortRules(rules + [r])
  {
    var s := SortRules(rules);
    SortedAndStable(rules);
    SortedAndStable(s);
    forall p ensures WithPriority(SortRules(s), p) == WithPriority(s, p) {}
    SortedUnique(SortRules(s), s);
    assert (s + [r])[..|s|] == s && (rules + [r])[..|rules|] == rules;
  }

  // ----- Choosing a rule -----

  function FindRule(rules: seq<Rule>, c: Conflict): Option<Rule> {
    if rules == [] then None
    else if rules[0].condition(c) then Some(rules[0])
    else FindRule(rules[1..], c)
  }

  lemma {:induction false} FindInserted(rules: seq<Rule>, r: Rule, c: Conflict)
    requires Descending(rules)
    ensures FindRule(Insert(rules, r), c) ==
      var found := FindRule(rules, c);
      if r.condition(c) && (found == None || found.value.priority < r.priority) then Some(r) else found
    ensures FindRule(rules, c).Some? ==> FindRule(rules, c).value in rules
    decreases |rules|
  {
    if rules == [] || rules[0].priority < r.priority {
      assert ([r] + rules)[1..] == rules;
      FoundInList(rules, c);
    } else {
      assert ([rules[0]] + Insert(rules[1..], r))[1..] == Insert(rules[1..], r);
      FindInserted(rules[1..], r, c);
    }
  }

  lemma {:induction false} FoundInList(rules: seq<Rule>, c: Conflict)
    ensures match FindRule(rules, c)
      case Some(r) => r in rules && r.condition(c)
      case None => forall x :: x in rules ==> !x.condition(c)
    decreases |rules|
  {
    if rules != [] && !rules[0].condition(c) {
      FoundInList(rules[1..], c);
    }
  }

  /**
   * The rule at i is the one to use: it applies, nothing of higher priority does, and nothing of
   * its own priority came earlier.
   */
  ghost predicate Preferred(live: seq<Rule>, c: Conflict, i: nat) {
    i < |live| && live[i].condition(c) &&
    forall j :: 0 <= j < |live| && live[j].condition(c) ==>
      live[j].priority < live[i].priority || (live[j].priority == live[i].priority && i <= j)
  }

  lemma PreferredStep(front: seq<Rule>, r: Rule, c: Conflict, i: nat)
    requires Preferred(front, c, i)
    ensures if r.condition(c) && front[i].priority < r.priority then Preferred(front + [r], c, |front|)
            else Preferred(front + [r], c, i)
  {}

  /** Looking through the sorted list finds the preferred rule, and nothing only if no rule applies. */
  lemma {:induction false} FindsPreferred(live: seq<Rule>, c: Conflict)
    ensures match FindRule(SortRules(live), c)
      case Some(r) => exists i: nat :: Preferred(live, c, i) && live[i] == r
      case None => forall j :: 0 <= j < |live| ==> !live[j].condition(c)
    decreases |live|
  {
    if live != [] {
      var n := |live| - 1;
      var front, r := live[..n], live[n];
      assert live == front + [r];
      FindsPreferred(front, c);
      SortedAndStable(front);
      FindInserted(SortRules(front), r, c);
      assert SortRules(live) == Insert(SortRules(front), r);
      hide SortRules, FindRule, Insert;
      match FindRule(SortRules(front), c)
      case None =>
        if r.condition(c) { assert Preferred(live, c, n); }
      case Some(best) =>
        var i: nat :| Preferred(front, c, i) && front[i] == best;
        PreferredStep(front, r, c, i);
        assert live[i] == front[i] == best;
    }
  }

  // ----- Resolving -----

  datatype Resolution = Resolution(strategy: Strategy, resolvedValue: Value, mergedValue: Value)

  datatype ManualAnswer = NoCallback | Rejected | Answered(strategy: Strategy)

  datatype ResolveError = ManualNotHandled

  function Field(v: Value, name: string): Value {
    if v.Object? && name in v.fields then v.fields[name] else Leaf(Undefined)
  }

  function ExtractTimestamp(v: Value): Value {
    if !Truthy(v) then Leaf(Number(0))
    else if Truthy(Field(v, "timestamp")) then Field(v, "timestamp")
    else if Truthy(Field(v, "updatedAt")) then Field(v, "updatedAt")
    else if Truthy(Field(v, "createdAt")) then Field(v, "createdAt")
    else if Truthy(Field(v, "lastModified")) then Field(v, "lastModified")
    else Leaf(Number(0))
  }

  predicate Newer(a: Value, b: Value) {
    a.Leaf? && a.scalar.Number? && b.Leaf? && b.scalar.Number? && a.scalar.n > b.scalar.n
  }

  function ServerFirst(c: Conflict, s: Strategy): Resolution {
    Resolution(s, c.serverValue, Merge(c.serverValue, c.clientValue))
  }

  function ClientFirst(c: Conflict, s: Strategy): Resolution {
    Resolution(s, c.clientValue, Merge(c.clientValue, c.serverValue))
  }

  function ApplyRule(c: Conflict, s: Strategy): Result<Resolution, ResolveError> {
    match s
    case ServerWins => Ok(ServerFirst(c, s))
    case ClientWins => Ok(ClientFirst(c, s))
    case NewerWins =>
      if Newer(ExtractTimestamp(c.clientValue), ExtractTimestamp(c.serverValue))
      then Ok(ClientFirst(c, s)) else Ok(ServerFirst(c, s))
    case Manual => Err(ManualNotHandled)
  }

  /** A manual answer that cannot be applied throws inside the try and falls back to the server. */
  function Resolve(rules: seq<Rule>, answer: ManualAnswer, c: Conflict): Resolution {
    var rule := FindRule(rules, c);
    if rule.Some? && rule.value.resolution != Manual then ApplyRule(c, rule.value.resolution).value
    else if answer.Answered? && ApplyRule(c, answer.strategy).Ok? then ApplyRule(c, answer.strategy).value
    else ServerFirst(c, ServerWins)
  }

  /** One side is taken, and the other is merged into it. */
  predicate Takes(r: Resolution, winner: Value, loser: Value) {
    r.resolvedValue == winner && r.mergedValue == Merge(winner, loser)
  }

  /** The client's number is the greater one. */
  predicate ClientIsNewer(server: Value, client: Value) {
    server.Leaf? && client.Leaf? && server.scalar.Number? && client.scalar.Number? && server.scalar.n < client.scalar.n
  }

  /** What each strategy gives: a tie, or timestamps that are not numbers, leave the server its version. */
  predicate Follows(r: Resolution, strategy: Strategy, c: Conflict) {
    r.strategy == strategy &&
    match strategy
    case ServerWins => Takes(r, c.serverValue, c.clientValue)
    case ClientWins => Takes(r, c.clientValue, c.serverValue)
    case NewerWins =>
      if ClientIsNewer(ExtractTimestamp(c.serverValue), ExtractTimestamp(c.clientValue))
      then Takes(r, c.clientValue, c.serverValue) else Takes(r, c.serverValue, c.clientValue)
    case Manual => false
  }

  /** The outcome follows the strategy it names, never MANUAL: that of the rule, of the answer, or the server's. */
  lemma ResolveIsDecided(rules: seq<Rule>, answer: ManualAnswer, c: Conflict)
    ensures var r, rule := Resolve(rules, answer, c), FindRule(rules, c);
      && Follows(r, r.strategy, c)
      && (rule.Some? && rule.value.resolution != Manual ==> r.strategy == rule.value.resolution)
      && (rule.None? || rule.value.resolution == Manual ==>
            r.strategy == if answer.Answered? && answer.strategy != Manual then answer.strategy else ServerWins)
  {}

  // ----- Timestamps -----

  /** The value has a field of that name that does not count as nothing. */
  predicate Says(v: Value, name: string) {
    v.Object? && name in v.fields && !(v.fields[name].Leaf? && CountsAsNothing(v.fields[name].scalar))
  }

  lemma SaysIsTruthy(v: Value, name: string)
    ensures Truthy(Field(v, name)) <==> Says(v, name)
    ensures Says(v, name) ==> Field(v, name) == v.fields[name]
  {
    if v.Object? && name in v.fields && v.fields[name].Leaf? {
      MergeWithScalar(v.fields[name], Object(map[]));
      ScalarGivesWay(v.fields[name].scalar);
      assert Merge(Leaf(v.fields[name].scalar), Object(map[])) ==
        if CountsAsNothing(v.fields[name].scalar) then Object(map[]) else v.fields[name];
    }
  }

  const STAMPS: seq<string> := ["timestamp", "updatedAt", "createdAt", "lastModified"]

  /** The first of four fields that says something, or 0. */
  lemma TimestampIsFirst(v: Value)
    ensures forall i :: 0 <= i < 4 && Says(v, STAMPS[i]) && (forall j :: 0 <= j < i ==> !Says(v, STAMPS[j])) ==>
      ExtractTimestamp(v) == v.fields[STAMPS[i]]
    ensures (forall j :: 0 <= j < 4 ==> !Says(v, STAMPS[j])) ==> ExtractTimestamp(v) == Leaf(Number(0))
  {
    hide Says, Truthy, Field;
    SaysIsTruthy(v, "timestamp");
    SaysIsTruthy(v, "updatedAt");
    SaysIsTruthy(v, "createdAt");
    SaysIsTruthy(v, "lastModified");
    if !Truthy(v) { NothingSaysNothing(v); }
    assert STAMPS[0] == "timestamp" && STAMPS[1] == "updatedAt";
    assert STAMPS[2] == "createdAt" && STAMPS[3] == "lastModified";
  }

  lemma NothingSaysNothing(v: Value)
    requires !Truthy(v)
    ensures forall name :: !Says(v, name)
  {}

  // ----- The rules it starts with -----

  function DefaultRules(): seq<Rule> {
    [ Rule(100, (c: Conflict) => c.kind == MessageConflict
             && Truthy(Field(c.serverValue, "timestamp")) && Truthy(Field(c.clientValue, "timestamp")),
           NewerWins, "Newer message timestamp wins"),
      Rule(90, (c: Conflict) => c.kind == MessageConflict
             && (Truthy(Field(c.serverValue, "deleted")) || Truthy(Field(c.clientValue, "deleted"))),
           ServerWins, "Deleted messages take precedence"),
      Rule(80, (c: Conflict) => c.kind == MessageConflict
             && Truthy(Field(c.serverValue, "groupId")) && Truthy(Field(c.clientValue, "groupId")),
           ServerWins, "Group messages: server version wins"),
      Rule(70, (c: Conflict) => c.kind == MessageConflict
             && Field(c.clientValue, "status") == Leaf(Text("local_draft")),
           ClientWins, "Local drafts: client version wins"),
      Rule(60, (c: Conflict) => c.kind == OperationConflict && c.entityType == Some("user"),
           NewerWins, "User operations: newer wins") ]
  }

  datatype Verdict = ByRule(priority: int, strategy: Strategy, description: string) | NoRule

  /** Which default rule decides, from what the two values say. */
  function DefaultVerdict(c: Conflict): Verdict {
    var s, k := c.serverValue, c.clientValue;
    match c.kind
    case MessageConflict =>
      if Says(s, "timestamp") && Says(k, "timestamp") then ByRule(100, NewerWins, "Newer message timestamp wins")
      else if Says(s, "deleted") || Says(k, "deleted") then ByRule(90, ServerWins, "Deleted messages take precedence")
      else if Says(s, "groupId") && Says(k, "groupId") then
        ByRule(80, ServerWins, "Group messages: server version wins")
      else if k.Object? && "status" in k.fields && k.fields["status"] == Leaf(Text("local_draft")) then
        ByRule(70, ClientWins, "Local drafts: client version wins")
      else NoRule
    case OperationConflict =>
      if c.entityType == Some("user") then ByRule(60, NewerWins, "User operations: newer wins") else NoRule
    case DeviceConflict => NoRule
  }

  /** The five default rules as one decision. */
  lemma DefaultDecision(answer: ManualAnswer, c: Conflict)
    ensures var r := Resolve(DefaultRules(), answer, c);
      match DefaultVerdict(c)
      case ByRule(_, strategy, _) => Follows(r, strategy, c)
      case NoRule =>
        Follows(r, if answer.Answered? && answer.strategy != Manual then answer.strategy else ServerWins, c)
  {
    hide Follows;
    ResolveIsDecided(DefaultRules(), answer, c);
    DefaultRuleFound(c);
  }

  lemma DefaultRuleFound(c: Conflict)
    ensures match DefaultVerdict(c)
      case ByRule(p, s, d) =>
        FindRule(DefaultRules(), c).Some? && var r := FindRule(DefaultRules(), c).value;
        r.priority == p && r.resolution == s && r.description == d
      case NoRule => FindRule(DefaultRules(), c).None?
  {
    hide Says, Truthy, Field;
    var s, k := c.serverValue, c.clientValue;
    SaysIsTruthy(s, "timestamp");
    SaysIsTruthy(k, "timestamp");
    SaysIsTruthy(s, "deleted");
    SaysIsTruthy(k, "deleted");
    SaysIsTruthy(s, "groupId");
    SaysIsTruthy(k, "groupId");
    StatusField(k);
    var d := DefaultRules();
    assert d[0..] == d && FindRule(d[5..], c) == None;
    FindNext(d, 0, c);
    FindNext(d, 1, c);
    FindNext(d, 2, c);
    FindNext(d, 3, c);
    FindNext(d, 4, c);
  }

  lemma FindNext(rules: seq<Rule>, k: nat, c: Conflict)
    requires k < |rules|
    ensures FindRule(rules[k..], c) == if rules[k].condition(c) then Some(rules[k]) else FindRule(rules[k + 1..], c)
  {
    assert rules[k..][1..] == rules[k + 1..];
  }

  lemma StatusField(k: Value)
    ensures Field(k, "status") == Leaf(Text("local_draft")) <==>
      k.Object? && "status" in k.fields && k.fields["status"] == Leaf(Text("local_draft"))
  {}

  lemma DefaultsAreSorted()
    ensures SortRules(DefaultRules()) == DefaultRules()
  {
    var d := DefaultRules();
    SortedAndStable(d);
    assert Descending(d);
    forall p ensures WithPriority(SortRules(d), p) == WithPriority(d, p) {}
    SortedUnique(SortRules(d), d);
  }

  /** A rule added to the default ones decides exactly where it applies and no default rule of its priority does. */
  lemma AddedRuleDecides(r: Rule, c: Conflict)
    ensures var verdict := DefaultVerdict(c);
      FindRule(SortRules(DefaultRules() + [r]), c) ==
        if r.condition(c) && (verdict.NoRule? || verdict.priority < r.priority) then Some(r)
        else FindRule(DefaultRules(), c)
  {
    hide DefaultVerdict, FindRule, Insert, DefaultRules;
    var d := DefaultRules();
    DefaultsAreSorted();
    SortedAndStable(d);
    FindInserted(d, r, c);
    DefaultRuleFound(c);
    assert (d + [r])[..|d|] == d;
  }

  class SyncConflictResolver {
    var rules: seq<Rule>

    /** The rules in force, in the order they were added. */
    ghost var live: seq<Rule>

    ghost predicate Valid()
      reads this
    {
      rules == SortRules(live)
    }

    constructor ()
      ensures Valid() && live == DefaultRules()
    {
      rules, live := DefaultRules(), DefaultRules();
      new;
      DefaultsAreSorted();
    }

    method AddRule(rule: Rule)
      requires Valid()
      modifies this
      ensures Valid() && live == old(live) + [rule]
    {
      rules := rules + [rule];
      rules := SortRules(rules);
      SortThenAdd(live, rule);
      live := live + [rule];
    }

    method RemoveRule(description: string)
      requires Valid()
      modifies this
      ensures Valid() && live == Without(old(live), description)
    {
      SortThenRemove(live, description);
      rules := Without(rules, description);
      live := Without(live, description);
    }

    method ResolveConflict(answer: ManualAnswer, c: Conflict) returns (r: Resolution)
      requires Valid()
      ensures r == Resolve(SortRules(live), answer, c) && Follows(r, r.strategy, c)
      ensures forall i: nat :: Preferred(live, c, i) && live[i].resolution != Manual ==>
        r.strategy == live[i].resolution
      ensures (forall i: nat :: Preferred(live, c, i) ==> live[i].resolution == Manual) ==>
        r.strategy == if answer.Answered? && answer.strategy != Manual then answer.strategy else ServerWins
    {
      FindsPreferred(live, c);
      ResolveIsDecided(rules, answer, c);
      r := Resolve(rules, answer, c);
    }
  }

  // ----- Convergence -----

  /** A version of a message as it carries its timestamp. */
  ghost predicate Stamped(v: Value) {
    v.Object? && "timestamp" in v.fields && v.fields["timestamp"].Leaf? &&
    v.fields["timestamp"].scalar.Number? && v.fields["timestamp"].scalar.n != 0
  }

  ghost function Stamp(v: Value): int
    requires Stamped(v)
  {
    v.fields["timestamp"].scalar.n
  }

  function Settle(rules: seq<Rule>, answer: ManualAnswer, current: Value, incoming: Value): Value {
    Resolve(rules, answer, Conflict(MessageConflict, None, current, incoming)).resolvedValue
  }

  function SettleAll(rules: seq<Rule>, answer: ManualAnswer, current: Value, incoming: seq<Value>): Value
    decreases |incoming|
  {
    if incoming == [] then current
    else SettleAll(rules, answer, Settle(rules, answer, current, incoming[0]), incoming[1..])
  }

  /** The timestamp rule is still the first to apply. */
  ghost predicate NewestFirst(rules: seq<Rule>) {
    forall c: Conflict :: c.kind == MessageConflict && Stamped(c.serverValue) && Stamped(c.clientValue) ==>
      FindRule(rules, c).Some? && FindRule(rules, c).value.resolution == NewerWins
  }

  lemma DefaultsPreferNewest()
    ensures NewestFirst(DefaultRules())
  {}

  lemma SettleTakesNewer(rules: seq<Rule>, answer: ManualAnswer, a: Value, b: Value)
    requires NewestFirst(rules) && Stamped(a) && Stamped(b)
    ensures Settle(rules, answer, a, b) == if Stamp(b) > Stamp(a) then b else a
  {}

  lemma {:induction false} SettlesOnNewest(rules: seq<Rule>, answer: ManualAnswer, current: Value, incoming: seq<Value>)
    requires NewestFirst(rules)
    requires Stamped(current) && forall v :: v in incoming ==> Stamped(v)
    ensures var last := SettleAll(rules, answer, current, incoming);
      && (last == current || last in incoming) && Stamped(last)
      && Stamp(current) <= Stamp(last) && forall v :: v in incoming ==> Stamp(v) <= Stamp(last)
    decreases |incoming|
  {
    if incoming != [] {
      SettleTakesNewer(rules, answer, current, incoming[0]);
      SettlesOnNewest(rules, answer, Settle(rules, answer, current, incoming[0]), incoming[1..]);
    }
  }

  ghost predicate IsNewest(vs: seq<Value>, last: Value) {
    last in vs && Stamped(last) && forall v :: v in vs ==> Stamped(v) && Stamp(v) <= Stamp(last)
  }

  lemma SettlesOnNewestOf(rules: seq<Rule>, answer: ManualAnswer, vs: seq<Value>)
    requires NewestFirst(rules) && vs != [] && forall v :: v in vs ==> Stamped(v)
    ensures IsNewest(vs, SettleAll(rules, answer, vs[0], vs[1..]))
  {
    hide SettleAll, NewestFirst, Stamped;
    assert vs == [vs[0]] + vs[1..];
    SettlesOnNewest(rules, answer, vs[0], vs[1..]);
  }

  /** Only one version has the newest timestamp. */
  ghost predicate OneNewest(vs: seq<Value>) {
    forall v, w :: IsNewest(vs, v) && IsNewest(vs, w) ==> v == w
  }

  lemma SameVersions(vs: seq<Value>, ws: seq<Value>)
    requires multiset(vs) == multiset(ws)
    ensures |vs| == |ws| && forall v :: v in vs <==> v in ws
  {
    assert |multiset(vs)| == |vs| && |multiset(ws)| == |ws|;
    forall v ensures v in vs <==> v in ws {
      assert v in vs <==> v in multiset(vs);
      assert v in ws <==> v in multiset(ws);
    }
  }

  /**
   * Devices that see the same versions in different orders end with the same one, the newest, if
   * only one is newest.
   */
  lemma Converges(rules: seq<Rule>, answer: ManualAnswer, vs: seq<Value>, ws: seq<Value>)
    requires NewestFirst(rules)
    requires vs != [] && multiset(vs) == multiset(ws)
    requires forall v :: v in vs ==> Stamped(v)
    requires OneNewest(vs)
    ensures ws != [] && SettleAll(rules, answer, vs[0], vs[1..]) == SettleAll(rules, answer, ws[0], ws[1..])
    ensures IsNewest(vs, SettleAll(rules, answer, vs[0], vs[1..]))
  {
    hide SettleAll, NewestFirst, Stamped;
    SameVersions(vs, ws);
    SettlesOnNewestOf(rules, answer, vs);
    SettlesOnNewestOf(rules, answer, ws);
    assert IsNewest(vs, SettleAll(rules, answer, ws[0], ws[1..]));
  }

  /** A newest version that is already there is never replaced. */
  lemma {:induction false} NewestStays(rules: seq<Rule>, answer: ManualAnswer, current: Value, incoming: seq<Value>)
    requires NewestFirst(rules) && Stamped(current)
    requires forall v :: v in incoming ==> Stamped(v) && Stamp(v) <= Stamp(current)
    ensures SettleAll(rules, answer, current, incoming) == current
    decreases |incoming|
  {
    if incoming != [] {
      SettleTakesNewer(rules, answer, current, incoming[0]);
      NewestStays(rules, answer, current, incoming[1..]);
    }
  }

  function MovedToFront(vs: seq<Value>, i: nat): seq<Value>
    requires i < |vs|
  {
    [vs[i]] + (vs[..i] + vs[i + 1..])
  }

  lemma FrontFirst(vs: seq<Value>, i: nat)
    requires i < |vs|
    ensures multiset(MovedToFront(vs, i)) == multiset(vs)
    ensures MovedToFront(vs, i)[0] == vs[i] && MovedToFront(vs, i)[1..] == vs[..i] + vs[i + 1..]
  {
    assert vs == vs[..i] + [vs[i]] + vs[i + 1..];
  }

  /** A device that sees a newest version first keeps it. */
  lemma EachNewestCanWin(rules: seq<Rule>, answer: ManualAnswer, vs: seq<Value>, v: Value) returns (ws: seq<Value>)
    requires NewestFirst(rules) && IsNewest(vs, v)
    ensures multiset(ws) == multiset(vs) && ws != [] && SettleAll(rules, answer, ws[0], ws[1..]) == v
  {
    hide SettleAll, NewestFirst, Stamped;
    var i :| 0 <= i < |vs| && vs[i] == v;
    ws := MovedToFront(vs, i);
    FrontFirst(vs, i);
    assert forall w :: w in ws[1..] ==> w in vs;
    NewestStays(rules, answer, v, ws[1..]);
  }

  /** All orders of the same versions end alike. */
  ghost predicate OrderIrrelevant(rules: seq<Rule>, answer: ManualAnswer, vs: seq<Value>)
    requires vs != []
  {
    forall ws :: multiset(ws) == multiset(vs) ==> EndsAlike(rules, answer, vs, ws)
  }

  predicate EndsAlike(rules: seq<Rule>, answer: ManualAnswer, vs: seq<Value>, ws: seq<Value>)
    requires vs != []
  {
    ws != [] && SettleAll(rules, answer, ws[0], ws[1..]) == SettleAll(rules, answer, vs[0], vs[1..])
  }

  /** Main result: the order in which versions arrive is irrelevant exactly when only one of them is newest. */
  lemma ConvergesExactly(rules: seq<Rule>, answer: ManualAnswer, vs: seq<Value>)
    requires NewestFirst(rules) && vs != [] && forall v :: v in vs ==> Stamped(v)
    ensures OrderIrrelevant(rules, answer, vs) <==> OneNewest(vs)
  {
    hide SettleAll, NewestFirst, Stamped, IsNewest;
    if OneNewest(vs) {
      forall ws | multiset(ws) == multiset(vs) ensures EndsAlike(rules, answer, vs, ws) {
        Converges(rules, answer, vs, ws);
      }
    }
    if OrderIrrelevant(rules, answer, vs) {
      forall v, w | IsNewest(vs, v) && IsNewest(vs, w) ensures v == w {
        var xs := EachNewestCanWin(rules, answer, vs, v);
        var ys := EachNewestCanWin(rules, answer, vs, w);
        assert EndsAlike(rules, answer, vs, xs) && EndsAlike(rules, answer, vs, ys);
      }
    }
  }

  /** With equal timestamps each of two devices keeps what it has. */
  lemma TwoVersionsConverge(rules: seq<Rule>, answer: ManualAnswer, a: Value, b: Value)
    requires NewestFirst(rules) && Stamped(a) && Stamped(b)
    ensures Settle(rules, answer, a, b) == Settle(rules, answer, b, a) <==> a == b || Stamp(a) != Stamp(b)
  {
    SettleTakesNewer(rules, answer, a, b);
    SettleTakesNewer(rules, answer, b, a);
  }
}
