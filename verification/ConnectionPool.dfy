/**
 * The SQLite connection pool and the query statistics of server/src/database.c.
 *
 * Each operation runs under the pool mutex and is one step; waiting for a connection is two steps,
 * a failed search and a search after the wake-up, with other steps in between. A handle is an
 * address: a new connection may get any address that no open connection has, also one that was
 * closed while somebody still held it.
 */
module ConnectionPool {
  import opened Basics

  const DB_MAX_CONNECTIONS: nat := 10

  datatype Code =
    | Success | ConnectionError | QueryError | Timeout | Busy | PrepareError | ExecuteError
    | BindError | TransactionError

  function CountOpen(connections: seq<Option<nat>>): nat {
    if connections == [] then 0
    else CountOpen(connections[1..]) + (if connections[0].Some? then 1 else 0)
  }

  lemma {:induction false} CountOpenUpdate(cs: seq<Option<nat>>, i: nat, v: Option<nat>)
    requires i < |cs|
    ensures CountOpen(cs[i := v]) + (if cs[i].Some? then 1 else 0) == CountOpen(cs) + (if v.Some? then 1 else 0)
    decreases |cs|
  {
    if i == 0 {
      assert cs[i := v][1..] == cs[1..];
    } else {
      assert cs[i := v][1..] == cs[1..][i - 1 := v];
      CountOpenUpdate(cs[1..], i - 1, v);
    }
  }

  lemma {:induction false} CountOpenBound(cs: seq<Option<nat>>)
    ensures CountOpen(cs) <= |cs|
    ensures CountOpen(cs) == 0 <==> forall i :: 0 <= i < |cs| ==> cs[i].None?
    ensures CountOpen(cs) == |cs| <==> forall i :: 0 <= i < |cs| ==> cs[i].Some?
    decreases |cs|
  {
    if cs != [] {
      CountOpenBound(cs[1..]);
      assert forall i :: 0 <= i < |cs[1..]| ==> cs[1..][i] == cs[i + 1];
      assert forall i :: 0 < i < |cs| ==> cs[i] == cs[1..][i - 1];
    }
  }

  // ----- The slots and who holds what -----

  /**
   * The slots of the pool, with the handles of the callers that got one and have not given it back:
   * `live` while their connection is still the one they got, `stale` once it has been closed.
   */
  datatype Slots = Slots(connections: seq<Option<nat>>, inUse: seq<bool>, live: multiset<nat>, stale: multiset<nat>)

  /** What opening a connection brings, should it come to that. */
  datatype Opening = Opens(handle: nat) | CannotOpen

  datatype GetResult = Got(handle: nat) | Waits | Refused(code: Code)

  function FirstFalse(s: seq<bool>): (i: nat)
    ensures i <= |s| && (forall k :: 0 <= k < i ==> s[k]) && (i < |s| ==> !s[i])
  {
    if s == [] || !s[0] then 0 else 1 + FirstFalse(s[1..])
  }

  function SlotOf(connections: seq<Option<nat>>, h: nat): (i: nat)
    ensures i <= |connections| && (i < |connections| ==> connections[i] == Some(h))
    ensures forall k :: 0 <= k < i ==> connections[k] != Some(h)
  {
    if connections == [] || connections[0] == Some(h) then 0
    else
      var i := 1 + SlotOf(connections[1..], h);
      assert forall k :: 1 <= k < i ==> connections[k] == connections[1..][k - 1];
      i
  }

  /**
   * One attempt under the mutex: the first free slot, opened if it has no connection. When no slot
   * is free none is unopened either, so looking for one, as the program then does, finds nothing.
   */
  function Get(s: Slots, opening: Opening): (r: (Slots, GetResult))
    requires |s.connections| == |s.inUse|
    ensures |r.0.connections| == |r.0.inUse| == |s.inUse|
  {
    var f := FirstFalse(s.inUse);
    if f == |s.inUse| then (s, Waits)
    else if s.connections[f].None? && opening.CannotOpen? then (s, Refused(ConnectionError))
    else
      var h := if s.connections[f].Some? then s.connections[f].value else opening.handle;
      (s.(connections := s.connections[f := Some(h)], inUse := s.inUse[f := true], live := s.live + multiset{h}),
        Got(h))
  }

  /** The first slot with that address is freed, whoever asks. */
  function Release(s: Slots, h: nat, alive: bool): (r: (Slots, Code))
    requires |s.connections| == |s.inUse|
    ensures |r.0.connections| == |r.0.inUse| == |s.inUse|
  {
    var t := if alive then s.(live := s.live - multiset{h}) else s.(stale := s.stale - multiset{h});
    var i := SlotOf(s.connections, h);
    if i == |s.connections| then (t, ConnectionError) else (t.(inUse := s.inUse[i := false]), Success)
  }

  /** All open connections are closed; whoever held one holds it no longer. */
  function CloseAll(s: Slots): (t: Slots)
    requires |s.connections| == |s.inUse|
    ensures |t.connections| == |t.inUse| == |s.inUse|
  {
    Slots(
      seq(|s.connections|, _ => None),
      seq(|s.inUse|, i requires 0 <= i < |s.inUse| => s.inUse[i] && s.connections[i].None?),
      multiset{}, s.stale + s.live)
  }

  /** Every slot in use is open, and no address is open twice. */
  ghost predicate Sane(s: Slots) {
    |s.connections| == |s.inUse| &&
    (forall i :: 0 <= i < |s.inUse| && s.inUse[i] ==> s.connections[i].Some?) &&
    (forall i, j :: 0 <= i < j < |s.connections| && s.connections[i].Some? ==> s.connections[i] != s.connections[j])
  }

  /** Every open connection in use has exactly one holder, every other has none, and nobody holds anything else. */
  ghost predicate OneHolder(s: Slots)
    requires |s.connections| == |s.inUse|
  {
    (forall i :: 0 <= i < |s.connections| && s.connections[i].Some? ==>
      s.live[s.connections[i].value] == if s.inUse[i] then 1 else 0) &&
    (forall h :: h in s.live ==> Some(h) in s.connections)
  }

  /** If a connection gets opened, it is at no address that an open one has. */
  predicate FreshHandle(s: Slots, opening: Opening)
    requires |s.connections| == |s.inUse|
  {
    var f := FirstFalse(s.inUse);
    f < |s.inUse| && s.connections[f].None? && opening.Opens? ==> Some(opening.handle) !in s.connections
  }

  predicate AllInUse(s: Slots) {
    forall i :: 0 <= i < |s.inUse| ==> s.inUse[i]
  }

  /** Slot f is the first that is not in use. */
  predicate FirstFree(s: Slots, f: nat) {
    f < |s.inUse| && !s.inUse[f] && forall k :: 0 <= k < f ==> s.inUse[k]
  }

  /** A get waits exactly when all slots are in use; otherwise the first free one decides. */
  lemma GetMeaning(s: Slots, opening: Opening, f: nat)
    requires |s.connections| == |s.inUse|
    ensures Get(s, opening).1 == Waits <==> AllInUse(s)
    ensures !Get(s, opening).1.Got? ==> Get(s, opening).0 == s
    ensures FirstFree(s, f) ==>
      match (s.connections[f], opening)
      case (None, CannotOpen) => Get(s, opening) == (s, Refused(ConnectionError))
      case (None, Opens(h)) => Get(s, opening) == (Taken(s, f, h), Got(h))
      case (Some(h), _) => Get(s, opening) == (Taken(s, f, h), Got(h))
  {
    if FirstFree(s, f) { assert FirstFalse(s.inUse) == f; }
  }

  /** Slot f in use with this connection, and one more caller holding it. */
  function Taken(s: Slots, f: nat, h: nat): Slots
    requires f < |s.connections| == |s.inUse|
  {
    Slots(s.connections[f := Some(h)], s.inUse[f := true], s.live + multiset{h}, s.stale)
  }

  /** A release succeeds exactly for an open address, and then frees the first slot that has it. */
  lemma ReleaseMeaning(s: Slots, h: nat, alive: bool, i: nat)
    requires |s.connections| == |s.inUse|
    ensures var (t, code) := Release(s, h, alive);
      && code == (if Some(h) in s.connections then Success else ConnectionError)
      && t.connections == s.connections
      && (Some(h) !in s.connections ==> t.inUse == s.inUse)
      && (i < |s.connections| && s.connections[i] == Some(h) && Some(h) !in s.connections[..i] ==>
            t.inUse == s.inUse[i := false])
      && t.live == (if alive then s.live - multiset{h} else s.live)
      && t.stale == (if alive then s.stale else s.stale - multiset{h})
  {
    var k := SlotOf(s.connections, h);
    if i < |s.connections| && s.connections[i] == Some(h) && Some(h) !in s.connections[..i] {
      assert forall j :: 0 <= j < i ==> s.connections[..i][j] != Some(h);
      assert k == i;
    }
  }

  // ----- Any interleaving of steps -----

  /** A release says whether the connection the caller got is still open. */
  datatype Step = Getting(opening: Opening) | Releasing(handle: nat, alive: bool) | Closing

  /** The library opens no address twice at a time, and only holders release. */
  predicate Proper(s: Slots, step: Step)
    requires |s.connections| == |s.inUse|
  {
    match step
    case Getting(opening) => FreshHandle(s, opening)
    case Releasing(h, alive) => if alive then h in s.live else h in s.stale
    case Closing => true
  }

  function After(s: Slots, step: Step): (t: Slots)
    requires |s.connections| == |s.inUse|
    ensures |t.connections| == |t.inUse| == |s.inUse|
  {
    match step
    case Getting(opening) => Get(s, opening).0
    case Releasing(h, alive) => Release(s, h, alive).0
    case Closing => CloseAll(s)
  }

  /** A release of a connection that was closed meanwhile, when another caller has got its address. */
  predicate Harmful(s: Slots, step: Step)
    requires |s.connections| == |s.inUse|
  {
    step.Releasing? && !step.alive &&
    SlotOf(s.connections, step.handle) < |s.connections| && s.inUse[SlotOf(s.connections, step.handle)]
  }

  lemma GetKeepsSane(s: Slots, opening: Opening)
    requires Sane(s) && FreshHandle(s, opening)
    ensures Sane(Get(s, opening).0)
  {
    hide FirstFalse;
  }

  lemma ReleaseKeepsSane(s: Slots, h: nat, alive: bool)
    requires Sane(s)
    ensures Sane(Release(s, h, alive).0)
  {
    hide SlotOf;
  }

  lemma CloseKeepsSane(s: Slots)
    requires Sane(s)
    ensures Sane(CloseAll(s))
  {}

  lemma StepKeepsSane(s: Slots, step: Step)
    requires Sane(s) && Proper(s, step)
    ensures Sane(After(s, step)) && |After(s, step).connections| == |s.connections|
  {
    hide Get, Release, CloseAll;
    match step
    case Getting(opening) => GetKeepsSane(s, opening);
    case Releasing(h, alive) => ReleaseKeepsSane(s, h, alive);
    case Closing => CloseKeepsSane(s);
  }

  lemma GetKeepsOneHolder(s: Slots, opening: Opening)
    requires Sane(s) && OneHolder(s) && FreshHandle(s, opening)
    ensures OneHolder(Get(s, opening).0)
    ensures Get(s, opening).1.Got? ==> Get(s, opening).1.handle !in s.live
  {
    hide FirstFalse;
    var f := FirstFalse(s.inUse);
    var t, r := Get(s, opening).0, Get(s, opening).1;
    if r.Got? {
      assert r.handle !in s.live;
      forall h | h in t.live ensures Some(h) in t.connections {
        if h != r.handle {
          var i :| 0 <= i < |s.connections| && s.connections[i] == Some(h);
          assert i != f && t.connections[i] == Some(h);
        } else {
          assert t.connections[f] == Some(h);
        }
      }
    }
  }

  lemma ReleaseKeepsOneHolder(s: Slots, h: nat, alive: bool)
    requires Sane(s) && OneHolder(s) && Proper(s, Releasing(h, alive))
    ensures OneHolder(Release(s, h, alive).0) <==> !Harmful(s, Releasing(h, alive))
  {
    hide SlotOf;
    var i := SlotOf(s.connections, h);
    var t := Release(s, h, alive).0;
    if i < |s.connections| {
      assert forall k :: 0 <= k < |s.connections| && k != i ==> s.connections[k] != Some(h);
      if Harmful(s, Releasing(h, alive)) {
        assert t.live[h] == 1 && !t.inUse[i];
      }
    }
  }

  /** One step keeps a single holder for every connection in use if and only if it is not a harmful release. */
  lemma StepKeepsOneHolder(s: Slots, step: Step)
    requires Sane(s) && OneHolder(s) && Proper(s, step)
    ensures |After(s, step).connections| == |After(s, step).inUse|
    ensures OneHolder(After(s, step)) <==> !Harmful(s, step)
  {
    hide Sane, OneHolder, Get, Release, Harmful;
    StepKeepsSane(s, step);
    SaneShape(s);
    SaneShape(After(s, step));
    match step
    case Getting(opening) => GetKeepsOneHolder(s, opening); NotARelease(s, step);
    case Releasing(h, alive) => ReleaseKeepsOneHolder(s, h, alive);
    case Closing => CloseKeepsOneHolder(s); NotARelease(s, step);
  }

  lemma SaneShape(s: Slots)
    requires Sane(s)
    ensures |s.connections| == |s.inUse|
  {}

  lemma NotARelease(s: Slots, step: Step)
    requires |s.connections| == |s.inUse| && !step.Releasing?
    ensures !Harmful(s, step)
  {}

  lemma CloseKeepsOneHolder(s: Slots)
    requires Sane(s)
    ensures OneHolder(CloseAll(s))
  {}

  function Run(s: Slots, steps: seq<Step>): (t: Slots)
    requires |s.connections| == |s.inUse|
    ensures |t.connections| == |t.inUse| == |s.inUse|
    decreases |steps|
  {
    if steps == [] then s else After(Run(s, steps[..|steps| - 1]), steps[|steps| - 1])
  }

  function Empty(n: nat): (s: Slots)
    ensures |s.connections| == |s.inUse| == n
  {
    Slots(seq(n, _ => None), seq(n, _ => false), multiset{}, multiset{})
  }

  /** Each step is proper where it is taken. */
  ghost predicate ProperFrom(s: Slots, steps: seq<Step>)
    requires |s.connections| == |s.inUse|
  {
    forall k :: 0 <= k < |steps| ==> Proper(Run(s, steps[..k]), steps[k])
  }

  lemma RunNext(s: Slots, steps: seq<Step>, k: nat)
    requires |s.connections| == |s.inUse| && k < |steps|
    ensures Run(s, steps[..k + 1]) == After(Run(s, steps[..k]), steps[k])
  {
    assert steps[..k + 1][..k] == steps[..k];
  }

  lemma NoSteps(s: Slots, steps: seq<Step>)
    requires |s.connections| == |s.inUse|
    ensures Run(s, steps[..0]) == s
  {}

  /** Over any interleaving every slot in use is open and no address is open twice. */
  lemma {:induction false} RunIsSane(s: Slots, steps: seq<Step>, k: nat)
    requires Sane(s) && ProperFrom(s, steps) && k <= |steps|
    ensures Sane(Run(s, steps[..k]))
    decreases k
  {
    hide Run, Proper, After;
    if k == 0 {
      NoSteps(s, steps);
    } else {
      RunIsSane(s, steps, k - 1);
      RunNext(s, steps, k - 1);
      assert Proper(Run(s, steps[..k - 1]), steps[k - 1]);
      StepKeepsSane(Run(s, steps[..k - 1]), steps[k - 1]);
    }
  }

  lemma {:induction false} OneHolderUntilHarm(s: Slots, steps: seq<Step>, k: nat)
    requires Sane(s) && OneHolder(s) && ProperFrom(s, steps) && k <= |steps|
    requires forall i :: 0 <= i < k ==> !Harmful(Run(s, steps[..i]), steps[i])
    ensures OneHolder(Run(s, steps[..k]))
    decreases k
  {
    hide Run, Proper, Harmful, After, OneHolder;
    if k == 0 {
      NoSteps(s, steps);
    } else {
      OneHolderUntilHarm(s, steps, k - 1);
      RunIsSane(s, steps, k - 1);
      RunNext(s, steps, k - 1);
      assert Proper(Run(s, steps[..k - 1]), steps[k - 1]);
      StepKeepsOneHolder(Run(s, steps[..k - 1]), steps[k - 1]);
    }
  }

  lemma EmptyIsSane(n: nat)
    ensures Sane(Empty(n)) && OneHolder(Empty(n))
  {}

  /**
   * Main result: over any interleaving of gets, releases by holders and close-alls, every connection
   * in use has exactly one holder at all times if and only if nobody releases a connection that was
   * closed meanwhile while its address is in use again.
   */
  lemma OneHolderThroughout(n: nat, steps: seq<Step>)
    requires ProperFrom(Empty(n), steps)
    ensures (forall k :: 0 <= k <= |steps| ==> OneHolder(Run(Empty(n), steps[..k]))) <==>
      (forall k :: 0 <= k < |steps| ==> !Harmful(Run(Empty(n), steps[..k]), steps[k]))
  {
    hide Run, Proper, Harmful, After, OneHolder;
    EmptyIsSane(n);
    if forall k :: 0 <= k < |steps| ==> !Harmful(Run(Empty(n), steps[..k]), steps[k]) {
      forall k | 0 <= k <= |steps| ensures OneHolder(Run(Empty(n), steps[..k])) {
        OneHolderUntilHarm(Empty(n), steps, k);
      }
    }
    if forall k :: 0 <= k <= |steps| ==> OneHolder(Run(Empty(n), steps[..k])) {
      forall k | 0 <= k < |steps| ensures !Harmful(Run(Empty(n), steps[..k]), steps[k]) {
        RunIsSane(Empty(n), steps, k);
        RunNext(Empty(n), steps, k);
        assert Proper(Run(Empty(n), steps[..k]), steps[k]);
        assert OneHolder(Run(Empty(n), steps[..k])) && OneHolder(Run(Empty(n), steps[..k + 1]));
        StepKeepsOneHolder(Run(Empty(n), steps[..k]), steps[k]);
      }
    }
  }

  /** After a harmful release the next get of that slot hands the connection to a second holder. */
  lemma SecondHolder(s: Slots, h: nat, opening: Opening)
    requires Sane(s) && OneHolder(s) && h in s.stale && Harmful(s, Releasing(h, false))
    requires SlotOf(s.connections, h) <= FirstFalse(s.inUse)
    ensures var t := Release(s, h, false).0; Get(t, opening).1 == Got(h) && Get(t, opening).0.live[h] == 2
  {
    hide FirstFalse, SlotOf;
    var i := SlotOf(s.connections, h);
    var t := Release(s, h, false).0;
    assert t.inUse == s.inUse[i := false];
    assert t.inUse[i] == false && forall k :: 0 <= k < i ==> t.inUse[k];
    assert FirstFalse(t.inUse) == i;
    assert t.connections[i] == Some(h) && s.live[h] == 1;
  }

  /** Slot 0 holds address 7. */
  function WithSeven(n: nat, used: bool, live: multiset<nat>, stale: multiset<nat>): Slots
    requires n > 0
  {
    Slots(Empty(n).connections[0 := Some(7)], Empty(n).inUse[0 := used], live, stale)
  }

  lemma GetSeven(n: nat, stale: multiset<nat>)
    requires n > 0
    ensures After(Empty(n).(stale := stale), Getting(Opens(7))) == WithSeven(n, true, multiset{7}, stale)
    ensures Proper(Empty(n).(stale := stale), Getting(Opens(7)))
  {}

  lemma CloseSeven(n: nat)
    requires n > 0
    ensures After(WithSeven(n, true, multiset{7}, multiset{}), Closing) == Empty(n).(stale := multiset{7})
  {
    var s, t := WithSeven(n, true, multiset{7}, multiset{}), Empty(n);
    assert CloseAll(s).connections == t.connections;
    assert CloseAll(s).inUse == t.inUse;
  }

  lemma ReleaseSeven(n: nat)
    requires n > 0
    ensures var s := WithSeven(n, true, multiset{7}, multiset{7});
      Proper(s, Releasing(7, false)) && After(s, Releasing(7, false)) == WithSeven(n, false, multiset{7}, multiset{})
  {}

  lemma GetSevenAgain(n: nat)
    requires n > 0
    ensures var s := WithSeven(n, false, multiset{7}, multiset{});
      Proper(s, Getting(CannotOpen)) && After(s, Getting(CannotOpen)).live[7] == 2
  {}

  /** For example: got, closed, got again at the same address, released by the first holder, got once more. */
  lemma StaleReleaseRun(n: nat)
    requires n > 0
    ensures var steps := [Getting(Opens(7)), Closing, Getting(Opens(7)), Releasing(7, false), Getting(CannotOpen)];
      ProperFrom(Empty(n), steps) && Run(Empty(n), steps).live[7] == 2
  {
    hide Run, After, Proper, WithSeven, Empty;
    var steps := [Getting(Opens(7)), Closing, Getting(Opens(7)), Releasing(7, false), Getting(CannotOpen)];
    NoSteps(Empty(n), steps);
    assert Empty(n).(stale := multiset{}) == Empty(n) by { NoStale(n); }
    GetSeven(n, multiset{});
    RunNext(Empty(n), steps, 0);
    CloseSeven(n);
    RunNext(Empty(n), steps, 1);
    ClosingIsProper(Run(Empty(n), steps[..1]));
    GetSeven(n, multiset{7});
    RunNext(Empty(n), steps, 2);
    ReleaseSeven(n);
    RunNext(Empty(n), steps, 3);
    GetSevenAgain(n);
    RunNext(Empty(n), steps, 4);
    assert steps[..5] == steps;
  }

  lemma NoStale(n: nat)
    ensures Empty(n).(stale := multiset{}) == Empty(n)
  {}

  lemma ClosingIsProper(s: Slots)
    requires |s.connections| == |s.inUse|
    ensures Proper(s, Closing)
  {}

  // ----- Borrowing a connection while others act -----

  /** The handle of the connection in slot f, in use and held. */
  predicate HeldAt(s: Slots, f: nat, h: nat)
    requires |s.connections| == |s.inUse|
  {
    f < |s.inUse| && s.inUse[f] && s.connections[f] == Some(h) && h in s.live
  }

  lemma GotIsHeld(s: Slots, opening: Opening)
    requires |s.connections| == |s.inUse| && Get(s, opening).1.Got?
    ensures HeldAt(Get(s, opening).0, FirstFalse(s.inUse), Get(s, opening).1.handle)
  {}

  lemma StepLeavesHeld(s: Slots, step: Step, f: nat, h: nat)
    requires Sane(s) && Proper(s, step) && HeldAt(s, f, h)
    requires step != Closing && !(step.Releasing? && step.handle == h)
    ensures HeldAt(After(s, step), f, h)
  {
    hide FirstFalse, SlotOf;
  }

  /**
   * What others do without closing everything, and without releasing this handle, leaves a borrowed
   * connection alone.
   */
  lemma {:induction false} BorrowedStays(s: Slots, steps: seq<Step>, k: nat, f: nat, h: nat)
    requires Sane(s) && ProperFrom(s, steps) && HeldAt(s, f, h) && k <= |steps|
    requires Closing !in steps && Releasing(h, true) !in steps && Releasing(h, false) !in steps
    ensures HeldAt(Run(s, steps[..k]), f, h)
    decreases k
  {
    hide Run, Proper, After, HeldAt;
    if k == 0 {
      NoSteps(s, steps);
    } else {
      BorrowedStays(s, steps, k - 1, f, h);
      RunIsSane(s, steps, k - 1);
      RunNext(s, steps, k - 1);
      assert steps[k - 1] in steps && Proper(Run(s, steps[..k - 1]), steps[k - 1]);
      StepLeavesHeld(Run(s, steps[..k - 1]), steps[k - 1], f, h);
    }
  }

  lemma ReleaseHeld(s: Slots, f: nat, h: nat)
    requires Sane(s) && HeldAt(s, f, h)
    ensures Release(s, h, true) == (s.(inUse := s.inUse[f := false], live := s.live - multiset{h}), Success)
  {
    assert SlotOf(s.connections, h) == f;
  }

  lemma GetTakesFree(s: Slots, opening: Opening)
    requires |s.connections| == |s.inUse| && Get(s, opening).1.Got?
    ensures FirstFalse(s.inUse) < |s.inUse| && !s.inUse[FirstFalse(s.inUse)]
  {}

  /** With nobody else about, the slots in use and the holders are as they were. */
  lemma GetThenRelease(s: Slots, opening: Opening)
    requires Sane(s) && FreshHandle(s, opening) && Get(s, opening).1.Got?
    ensures var (t, r) := Get(s, opening);
      Release(t, r.handle, true) == (t.(inUse := s.inUse, live := s.live), Success)
  {
    hide FirstFalse, SlotOf;
    var f, t, h := FirstFalse(s.inUse), Get(s, opening).0, Get(s, opening).1.handle;
    GetKeepsSane(s, opening);
    GotIsHeld(s, opening);
    ReleaseHeld(t, f, h);
    assert t.inUse[f := false] == s.inUse;
    assert t.live - multiset{h} == s.live;
  }

  /** After a close-all in between, giving the connection back does harm exactly when its address is in use again. */
  lemma LateReleaseHarms(s: Slots, h: nat)
    requires Sane(s) && OneHolder(s) && h in s.stale
    ensures OneHolder(Release(s, h, false).0) <==>
      !exists i :: 0 <= i < |s.inUse| && s.inUse[i] && s.connections[i] == Some(h)
  {
    hide OneHolder, Release;
    ReleaseKeepsOneHolder(s, h, false);
    if i :| 0 <= i < |s.inUse| && s.inUse[i] && s.connections[i] == Some(h) {
      assert SlotOf(s.connections, h) == i;
    }
  }

  /** A query as the statistics see it. */
  datatype Query = Query(elapsed: nat, succeeded: bool)

  /**
   * Steps that others take, the connections that are in the middle of a transaction afterwards, and
   * the queries they record.
   */
  datatype Others = Others(steps: seq<Step>, pending: set<nat>, queries: seq<Query>)

  predicate AllOpen(handles: set<nat>, connections: seq<Option<nat>>) {
    forall h :: h in handles ==> Some(h) in connections
  }

  ghost predicate CanAct(s: Slots, others: Others)
    requires |s.connections| == |s.inUse|
  {
    ProperFrom(s, others.steps) && AllOpen(others.pending, Run(s, others.steps).connections)
  }

  /** A caller that finds no free slot waits five seconds, or until a release signals it after others have acted. */
  datatype Wake = TimesOut | Signalled(others: Others)

  function Waited(s: Slots, opening: Opening, wake: Wake): (r: (Slots, GetResult))
    requires |s.connections| == |s.inUse|
    ensures |r.0.connections| == |r.0.inUse| == |s.inUse| && !r.1.Waits?
  {
    var first := Get(s, opening);
    if !first.1.Waits? then first
    else if wake.TimesOut? then (s, Refused(Timeout))
    else
      var t := Run(s, wake.others.steps);
      var second := Get(t, opening);
      if second.1.Waits? then (t, Refused(Busy)) else second
  }

  /** The same for the transactions in progress. */
  function PendingAfterWait(s: Slots, opening: Opening, wake: Wake, pending: set<nat>): set<nat>
    requires |s.connections| == |s.inUse|
  {
    if Get(s, opening).1.Waits? && wake.Signalled? then wake.others.pending else pending
  }

  function QueriesWhileWaiting(s: Slots, opening: Opening, wake: Wake): seq<Query>
    requires |s.connections| == |s.inUse|
  {
    if Get(s, opening).1.Waits? && wake.Signalled? then wake.others.queries else []
  }

  ghost predicate CanWait(s: Slots, opening: Opening, wake: Wake)
    requires |s.connections| == |s.inUse|
  {
    FreshHandle(s, opening) &&
    (Get(s, opening).1.Waits? && wake.Signalled? ==>
      CanAct(s, wake.others) && FreshHandle(Run(s, wake.others.steps), opening))
  }

  /**
   * Others act while h is borrowed; they release what they hold themselves, so the borrower is
   * still among the holders.
   */
  ghost predicate CanActBeside(s: Slots, h: nat, others: Others)
    requires |s.connections| == |s.inUse|
  {
    CanAct(s, others) && Proper(Run(s, others.steps), Releasing(h, Closing !in others.steps))
  }

  function ReturnedBy(s: Slots, h: nat, others: Others): Slots
    requires |s.connections| == |s.inUse|
  {
    Release(Run(s, others.steps), h, Closing !in others.steps).0
  }

  /** Which way a wait ends, from whether all slots are in use before and after it. */
  lemma WaitMeaning(s: Slots, opening: Opening, wake: Wake)
    requires |s.connections| == |s.inUse|
    ensures var r := Waited(s, opening, wake);
      && (!AllInUse(s) ==> r == Get(s, opening))
      && (AllInUse(s) && wake.TimesOut? ==> r == (s, Refused(Timeout)))
      && (AllInUse(s) && wake.Signalled? ==> var t := Run(s, wake.others.steps);
            r == if AllInUse(t) then (t, Refused(Busy)) else Get(t, opening))
  {
    hide Get, AllInUse, Run;
    GetMeaning(s, opening, 0);
    if wake.Signalled? { GetMeaning(Run(s, wake.others.steps), opening, 0); }
  }

  /** The slots in which the borrower found a free one. */
  function FoundIn(s: Slots, opening: Opening, wake: Wake): (t: Slots)
    requires |s.connections| == |s.inUse|
    ensures |t.connections| == |t.inUse| == |s.inUse|
  {
    if Get(s, opening).1.Waits? && wake.Signalled? then Run(s, wake.others.steps) else s
  }

  /** Nobody else closes everything or releases this handle. */
  predicate LeavesAlone(others: Others, h: nat) {
    Closing !in others.steps && Releasing(h, true) !in others.steps && Releasing(h, false) !in others.steps
  }

  lemma FoundIsSane(s: Slots, opening: Opening, wake: Wake)
    requires Sane(s) && CanWait(s, opening, wake) && Waited(s, opening, wake).1.Got?
    ensures Sane(FoundIn(s, opening, wake)) && FreshHandle(FoundIn(s, opening, wake), opening)
    ensures Waited(s, opening, wake) == Get(FoundIn(s, opening, wake), opening)
  {
    hide Get, Run, Proper;
    if Get(s, opening).1.Waits? && wake.Signalled? {
      var steps := wake.others.steps;
      RunIsSane(s, steps, |steps|);
      assert steps[..|steps|] == steps;
    }
  }

  /**
   * Main result: a connection that is got, perhaps after waiting, used while others get and release
   * theirs, and given back, frees the slot it was taken from and changes nothing else.
   */
  lemma BorrowedComesBack(s: Slots, opening: Opening, wake: Wake, others: Others)
    requires Sane(s) && CanWait(s, opening, wake) && Waited(s, opening, wake).1.Got?
    requires var (t, r) := Waited(s, opening, wake); CanAct(t, others) && LeavesAlone(others, r.handle)
    ensures var (t, r) := Waited(s, opening, wake); var f := FirstFalse(FoundIn(s, opening, wake).inUse);
      var u := Run(t, others.steps);
      && f < |s.inUse| && !FoundIn(s, opening, wake).inUse[f] && u.inUse[f] && u.connections[f] == Some(r.handle)
      && CanActBeside(t, r.handle, others)
      && ReturnedBy(t, r.handle, others) == u.(inUse := u.inUse[f := false], live := u.live - multiset{r.handle})
  {
    hide Get, Waited, FoundIn, Run, Release, Proper, FreshHandle;
    var from := FoundIn(s, opening, wake);
    FoundIsSane(s, opening, wake);
    var t, h, f := Get(from, opening).0, Get(from, opening).1.handle, FirstFalse(from.inUse);
    GotIsHeld(from, opening);
    GetKeepsSane(from, opening);
    BorrowedStays(t, others.steps, |others.steps|, f, h);
    RunIsSane(t, others.steps, |others.steps|);
    assert others.steps[..|others.steps|] == others.steps;
    ReleaseHeld(Run(t, others.steps), f, h);
    HolderMayRelease(Run(t, others.steps), f, h);
    GetTakesFree(from, opening);
  }

  lemma HolderMayRelease(s: Slots, f: nat, h: nat)
    requires |s.connections| == |s.inUse| && HeldAt(s, f, h)
    ensures Proper(s, Releasing(h, true))
  {}

  lemma {:induction false} OpenStays(s: Slots, steps: seq<Step>, k: nat, h: nat)
    requires |s.connections| == |s.inUse| && Some(h) in s.connections && Closing !in steps && k <= |steps|
    ensures Some(h) in Run(s, steps[..k]).connections
    decreases k
  {
    hide Run;
    if k == 0 {
      NoSteps(s, steps);
    } else {
      OpenStays(s, steps, k - 1, h);
      RunNext(s, steps, k - 1);
      assert steps[k - 1] in steps;
      StepClosesNothing(Run(s, steps[..k - 1]), steps[k - 1], h);
    }
  }

  lemma StepClosesNothing(s: Slots, step: Step, h: nat)
    requires |s.connections| == |s.inUse| && Some(h) in s.connections && step != Closing
    ensures Some(h) in After(s, step).connections
  {
    var i :| 0 <= i < |s.connections| && s.connections[i] == Some(h);
    assert After(s, step).connections[i] == Some(h);
  }

  // ----- Batches -----

  /** A failed COMMIT may have undone the transaction or left it open; so may whatever made a ROLLBACK necessary. */
  datatype CommitAnswer = Committed | CommitUndone | CommitPending

  datatype RollbackAnswer = RolledBack | NothingToRollBack | RollbackPending

  /** What the library answers to the statements of one batch. */
  datatype Script = Script(
    begins: bool, prepares: bool, steps: seq<bool>, commit: CommitAnswer, rollback: RollbackAnswer)

  predicate AllExecuted(script: Script) {
    script.prepares && forall k :: 0 <= k < |script.steps| ==> script.steps[k]
  }

  function BatchCode(script: Script): Code {
    if !script.begins then TransactionError
    else if !script.prepares then PrepareError
    else if !AllExecuted(script) then ExecuteError
    else if script.commit != Committed then TransactionError
    else Success
  }

  /** A batch gives its connection back in the middle of a transaction if the last statement it sent leaves it open. */
  predicate LeavesOpen(script: Script) {
    script.begins && if AllExecuted(script) then script.commit == CommitPending else script.rollback == RollbackPending
  }

  /** Which code a batch returns, and when it leaves its transaction open. */
  lemma BatchMeaning(script: Script)
    ensures var code := BatchCode(script);
      && (code == Success <==> script.begins && AllExecuted(script) && script.commit == Committed)
      && (code == PrepareError <==> script.begins && !script.prepares)
      && (code == ExecuteError <==> script.begins && script.prepares && false in script.steps)
      && (code == TransactionError <==> !script.begins || (AllExecuted(script) && script.commit != Committed))
    ensures AllExecuted(script) <==> script.prepares && false !in script.steps
    ensures AllExecuted(script) ==> (LeavesOpen(script) <==> script.begins && script.commit == CommitPending)
    ensures !AllExecuted(script) ==> (LeavesOpen(script) <==> script.begins && script.rollback == RollbackPending)
  {}

  // ----- The pool -----

  class Pool {
    const maxConnections: nat
    const connections: array<Option<nat>>
    const inUse: array<bool>
    var activeCount: nat

    /** The library's share: open connections in the middle of a transaction. */
    var inTransaction: set<nat>

    ghost var live: multiset<nat>
    ghost var stale: multiset<nat>

    ghost function Now(): Slots
      reads this, connections, inUse
      requires maxConnections <= connections.Length && maxConnections <= inUse.Length
    {
      Slots(connections[..maxConnections], inUse[..maxConnections], live, stale)
    }

    ghost predicate Valid()
      reads this, connections, inUse
    {
      connections.Length == inUse.Length == DB_MAX_CONNECTIONS && 0 < maxConnections <= DB_MAX_CONNECTIONS &&
      activeCount == CountOpen(connections[..maxConnections]) && Sane(Now()) &&
      forall h :: h in inTransaction ==> Some(h) in connections[..maxConnections]
    }

    /** The number of open connections never exceeds the maximum, and reaches it when every slot is in use. */
    lemma ActiveWithinMaximum()
      requires Valid()
      ensures activeCount <= maxConnections
      ensures (forall i :: 0 <= i < maxConnections ==> inUse[i]) ==> activeCount == maxConnections
    {
      CountOpenBound(connections[..maxConnections]);
      assert forall i :: 0 <= i < maxConnections && inUse[i] ==> Now().inUse[i];
    }

    constructor (configured: int)
      ensures Valid() && fresh(connections) && fresh(inUse) && activeCount == 0 && inTransaction == {}
      ensures maxConnections ==
        if configured <= 0 || configured > DB_MAX_CONNECTIONS then DB_MAX_CONNECTIONS else configured
      ensures Now() == Empty(maxConnections)
    {
      maxConnections := if configured <= 0 || configured > DB_MAX_CONNECTIONS then DB_MAX_CONNECTIONS else configured;
      connections := new Option<nat>[DB_MAX_CONNECTIONS](_ => None);
      inUse := new bool[DB_MAX_CONNECTIONS](_ => false);
      activeCount, inTransaction, live, stale := 0, {}, multiset{}, multiset{};
      new;
      CountOpenBound(connections[..maxConnections]);
      assert Now() == Empty(maxConnections);
    }

    method FindFree() returns (index: nat)
      requires Valid()
      ensures index == FirstFalse(inUse[..maxConnections])
    {
      index := 0;
      while index < maxConnections && inUse[index]
        invariant index <= maxConnections && forall i :: 0 <= i < index ==> inUse[i]
      {
        index := index + 1;
      }
    }

    method TryGet(opening: Opening) returns (r: GetResult)
      requires Valid() && FreshHandle(Now(), opening)
      modifies this`activeCount, this`live, connections, inUse
      ensures Valid() && (Now(), r) == Get(old(Now()), opening)
    {
      hide CountOpen, FirstFalse;
      GetKeepsSane(Now(), opening);
      var index := FindFree();
      if index == maxConnections {
        return Waits;
      }
      ghost var before := connections[..maxConnections];
      if connections[index].None? {
        if opening.CannotOpen? {
          return Refused(ConnectionError);
        }
        CountOpenUpdate(before, index, Some(opening.handle));
        connections[index] := Some(opening.handle);
        activeCount := activeCount + 1;
      }
      var h := connections[index].value;
      assert connections[..maxConnections] == before[index := Some(h)];
      ghost var used := inUse[..maxConnections];
      inUse[index] := true;
      assert inUse[..maxConnections] == used[index := true];
      live := live + multiset{h};
      assert before[index].None? || before[index := Some(h)] == before;
      TransactionsStay(before, index, h, inTransaction);
      return Got(h);
    }

    /** What others do, step by step; some of them may be in the middle of a transaction afterwards. */
    method OthersAct(others: Others)
      requires Valid() && CanAct(Now(), others)
      modifies this, connections, inUse
      ensures Valid() && Now() == Run(old(Now()), others.steps) && inTransaction == others.pending
    {
      hide Run, CountOpen, Sane, Proper, After;
      ghost var before := Now();
      NoSteps(before, others.steps);
      for k := 0 to |others.steps|
        invariant Valid() && Now() == Run(before, others.steps[..k])
      {
        RunNext(before, others.steps, k);
        assert Proper(Run(before, others.steps[..k]), others.steps[k]);
        TakeStep(others.steps[k]);
      }
      assert others.steps[..|others.steps|] == others.steps;
      inTransaction := others.pending;
    }

    method TakeStep(step: Step)
      requires Valid() && Proper(Now(), step)
      modifies this, connections, inUse
      ensures Valid() && Now() == After(old(Now()), step)
    {
      hide CountOpen, Sane, Get, Release, CloseAll;
      match step
      case Getting(opening) => var _ := TryGet(opening);
      case Releasing(handle, alive) => var _ := ReleaseConnection(handle, alive);
      case Closing => CloseAllConnections();
    }

    /** A get, with the wait for a free slot while others act. */
    method GetConnection(opening: Opening, wake: Wake) returns (r: GetResult, woken: bool)
      requires Valid() && CanWait(Now(), opening, wake)
      modifies this, connections, inUse
      ensures Valid() && (Now(), r) == Waited(old(Now()), opening, wake)
      ensures inTransaction == PendingAfterWait(old(Now()), opening, wake, old(inTransaction))
      ensures woken == (Get(old(Now()), opening).1.Waits? && wake.Signalled?)
    {
      hide Get, Run, CountOpen, Sane;
      NoSlotNoChange(Now(), opening);
      r := TryGet(opening);
      woken := r.Waits? && wake.Signalled?;
      if !r.Waits? {
        return;
      }
      if wake.TimesOut? {
        r := Refused(Timeout);
        return;
      }
      OthersAct(wake.others);
      NoSlotNoChange(Now(), opening);
      r := TryGet(opening);
      if r.Waits? {
        r := Refused(Busy);
      }
    }

    method FindSlot(handle: nat) returns (index: nat)
      requires Valid()
      ensures index == SlotOf(connections[..maxConnections], handle)
    {
      index := 0;
      while index < maxConnections && connections[index] != Some(handle)
        invariant index <= maxConnections && forall i :: 0 <= i < index ==> connections[i] != Some(handle)
      {
        index := index + 1;
      }
    }

    /** By a holder; the caller says whether the connection it got is still open. */
    method ReleaseConnection(handle: nat, ghost alive: bool) returns (code: Code)
      requires Valid() && Proper(Now(), Releasing(handle, alive))
      modifies this`live, this`stale, inUse
      ensures Valid() && (Now(), code) == Release(old(Now()), handle, alive)
    {
      hide CountOpen, SlotOf, Sane;
      ReleaseKeepsSane(Now(), handle, alive);
      var index := FindSlot(handle);
      if alive { live := live - multiset{handle}; } else { stale := stale - multiset{handle}; }
      if index == maxConnections {
        return ConnectionError;
      }
      ghost var used := inUse[..maxConnections];
      inUse[index] := false;
      assert inUse[..maxConnections] == used[index := false];
      return Success;
    }

    method CloseAllConnections()
      requires Valid()
      modifies this`activeCount, this`inTransaction, this`live, this`stale, connections, inUse
      ensures Valid() && Now() == CloseAll(old(Now())) && activeCount == 0 && inTransaction == {}
      ensures forall i :: 0 <= i < maxConnections ==> connections[i].None? && !inUse[i]
    {
      hide CountOpen, CloseAll, Sane;
      ghost var before := Now();
      CloseKeepsSane(before);
      for i := 0 to maxConnections
        modifies connections, inUse
        invariant forall k :: 0 <= k < i ==>
          connections[k].None? && inUse[k] == (old(inUse[k]) && old(connections[k]).None?)
        invariant forall k :: i <= k < DB_MAX_CONNECTIONS ==>
          connections[k] == old(connections[k]) && inUse[k] == old(inUse[k])
      {
        if connections[i].Some? {
          connections[i] := None;
          inUse[i] := false;
        }
      }
      activeCount, inTransaction := 0, {};
      stale, live := stale + live, multiset{};
      ClosedSlots(before, connections[..maxConnections], inUse[..maxConnections]);
      assert forall i :: 0 <= i < maxConnections ==> inUse[i] == inUse[..maxConnections][i];
      CountOpenBound(connections[..maxConnections]);
    }

    // ----- Operations that borrow a connection -----

    /** While the statement runs others act; then the connection goes back, stale if all were closed meanwhile. */
    method GiveBackAfter(handle: nat, others: Others)
      requires Valid() && CanActBeside(Now(), handle, others)
      modifies this, connections, inUse
      ensures Valid() && Now() == ReturnedBy(old(Now()), handle, others) && inTransaction == others.pending
    {
      hide Run, Release, CountOpen, Sane, CanAct;
      OthersAct(others);
      var _ := ReleaseConnection(handle, Closing !in others.steps);
    }

    method Borrow(stats: Statistics, opening: Opening, wake: Wake) returns (r: GetResult)
      requires Valid() && CanWait(Now(), opening, wake) && stats.Valid()
      modifies this, connections, inUse, stats
      ensures Valid() && stats.Valid() && (Now(), r) == Waited(old(Now()), opening, wake)
      ensures stats.queries == old(stats.queries) + QueriesWhileWaiting(old(Now()), opening, wake)
    {
      hide Waited, Get, Run, CountOpen, Sane, StoredMean, StoredMaximum;
      var woken;
      r, woken := GetConnection(opening, wake);
      if woken {
        stats.RecordAll(wake.others.queries);
      }
    }

    method Execute(stats: Statistics, opening: Opening, wake: Wake, others: Others, result: Code, elapsed: nat)
      returns (code: Code)
      requires Valid() && CanWait(Now(), opening, wake) && stats.Valid()
      requires var (t, r) := Waited(Now(), opening, wake); r.Got? ==> CanActBeside(t, r.handle, others)
      modifies this, connections, inUse, stats
      ensures Valid() && stats.Valid()
      ensures var waiting := old(stats.queries) + QueriesWhileWaiting(old(Now()), opening, wake);
        match Waited(old(Now()), opening, wake)
        case (t, Got(h)) =>
          Now() == ReturnedBy(t, h, others) && code == result &&
          stats.queries == waiting + others.queries + [Query(elapsed, result == Success)]
        case (t, r) => Now() == t && r == Refused(code) && stats.queries == waiting
    {
      hide Waited, ReturnedBy, CanActBeside, QueriesWhileWaiting, Get, Run, CountOpen, Sane, StoredMean, StoredMaximum;
      var r := Borrow(stats, opening, wake);
      if r.Refused? {
        return r.code;
      }
      stats.RecordAll(others.queries);
      stats.Record(elapsed, result == Success);
      GiveBackAfter(r.handle, others);
      return result;
    }

    method ExecuteParams(stats: Statistics, opening: Opening, wake: Wake, others: Others,
                         prepares: bool, bind: Code, result: Code, elapsed: nat) returns (code: Code)
      requires Valid() && CanWait(Now(), opening, wake) && stats.Valid()
      requires var (t, r) := Waited(Now(), opening, wake); r.Got? ==> CanActBeside(t, r.handle, others)
      modifies this, connections, inUse, stats
      ensures Valid() && stats.Valid()
      ensures var waiting := old(stats.queries) + QueriesWhileWaiting(old(Now()), opening, wake);
        match Waited(old(Now()), opening, wake)
        case (t, Got(h)) =>
          Now() == ReturnedBy(t, h, others) &&
          if !prepares then code == PrepareError && stats.queries == waiting + others.queries
          else if bind != Success then code == bind && stats.queries == waiting + others.queries
          else code == result && stats.queries == waiting + others.queries + [Query(elapsed, result == Success)]
        case (t, r) => Now() == t && r == Refused(code) && stats.queries == waiting
    {
      hide Waited, ReturnedBy, CanActBeside, QueriesWhileWaiting, Get, Run, CountOpen, Sane, StoredMean, StoredMaximum;
      var r := Borrow(stats, opening, wake);
      if r.Refused? {
        return r.code;
      }
      stats.RecordAll(others.queries);
      if !prepares {
        GiveBackAfter(r.handle, others);
        return PrepareError;
      }
      if bind != Success {
        GiveBackAfter(r.handle, others);
        return bind;
      }
      stats.Record(elapsed, result == Success);
      GiveBackAfter(r.handle, others);
      return result;
    }

    method Rollback(handle: nat, answer: RollbackAnswer)
      modifies this`inTransaction
      ensures inTransaction == if answer == RollbackPending then old(inTransaction) else old(inTransaction) - {handle}
    {
      if answer != RollbackPending {
        inTransaction := inTransaction - {handle};
      }
    }

    /** The transaction both batch operations run on a borrowed connection; BEGIN fails inside another one. */
    method RunBatch(handle: nat, script: Script) returns (code: Code)
      modifies this`inTransaction
      ensures handle in old(inTransaction) ==> code == TransactionError && inTransaction == old(inTransaction)
      ensures handle !in old(inTransaction) ==>
        code == BatchCode(script) && inTransaction == old(inTransaction) + (if LeavesOpen(script) then {handle} else {})
    {
      if !script.begins || handle in inTransaction {
        return TransactionError;
      }
      inTransaction := inTransaction + {handle};
      if !script.prepares {
        Rollback(handle, script.rollback);
        return PrepareError;
      }
      for i := 0 to |script.steps|
        invariant inTransaction == old(inTransaction) + {handle}
        invariant forall k :: 0 <= k < i ==> script.steps[k]
      {
        if !script.steps[i] {
          Rollback(handle, script.rollback);
          return ExecuteError;
        }
      }
      if script.commit != CommitPending {
        inTransaction := inTransaction - {handle};
      }
      return if script.commit == Committed then Success else TransactionError;
    }

    /**
     * db_execute_batch and db_insert_batch differ only in how they build the statement. Others touch
     * other connections' transactions, unless they close everything; what the batch then does to
     * memory that has been freed is not described.
     */
    method ExecuteBatch(opening: Opening, wake: Wake, others: Others, script: Script) returns (code: Code)
      requires Valid() && CanWait(Now(), opening, wake)
      requires var (t, r) := Waited(Now(), opening, wake); r.Got? ==> CanActBeside(t, r.handle, others)
      requires var h, busy := Waited(Now(), opening, wake).1, PendingAfterWait(Now(), opening, wake, inTransaction);
        h.Got? && Closing !in others.steps ==> (h.handle in others.pending <==> h.handle in busy)
      modifies this, connections, inUse
      ensures Valid()
      ensures script.steps == [] ==> code == QueryError && Now() == old(Now()) && inTransaction == old(inTransaction)
      ensures script.steps != [] ==>
        var busy := PendingAfterWait(old(Now()), opening, wake, old(inTransaction));
        match Waited(old(Now()), opening, wake)
        case (t, Got(h)) =>
          var left := if !(h in busy) && LeavesOpen(script) then {h} else {};
          Now() == ReturnedBy(t, h, others) &&
          (Closing in others.steps ||
            (code == (if h in busy then TransactionError else BatchCode(script)) &&
              inTransaction == others.pending + left))
        case (t, r) => Now() == t && r == Refused(code) && inTransaction == busy
    {
      hide Waited, Run, Release, CountOpen, Sane, CanAct, BatchCode, LeavesOpen;
      if script.steps == [] {
        return QueryError;
      }
      WaitedIsOpen(Now(), opening, wake);
      var r, _ := GetConnection(opening, wake);
      if r.Refused? {
        return r.code;
      }
      ghost var t := Now();
      OthersAct(others);
      if Closing in others.steps {
        code := BatchCode(script);
      } else {
        OpenStays(t, others.steps, |others.steps|, r.handle);
        assert others.steps[..|others.steps|] == others.steps;
        code := RunBatch(r.handle, script);
      }
      var _ := ReleaseConnection(r.handle, Closing !in others.steps);
    }
  }

  lemma NoSlotNoChange(s: Slots, opening: Opening)
    requires |s.connections| == |s.inUse|
    ensures Get(s, opening).1.Waits? ==> Get(s, opening).0 == s
    ensures !Get(s, opening).1.Got? ==> Get(s, opening).0 == s && Get(s, opening).1 in {Waits, Refused(ConnectionError)}
  {}

  lemma GotIsOpen(s: Slots, opening: Opening)
    requires |s.connections| == |s.inUse| && Get(s, opening).1.Got?
    ensures Some(Get(s, opening).1.handle) in Get(s, opening).0.connections
  {
    var f := FirstFalse(s.inUse);
    assert Get(s, opening).0.connections[f] == Some(Get(s, opening).1.handle);
  }

  lemma WaitedIsOpen(s: Slots, opening: Opening, wake: Wake)
    requires |s.connections| == |s.inUse|
    ensures var (t, r) := Waited(s, opening, wake); r.Got? ==> Some(r.handle) in t.connections
  {
    hide Get, Run;
    if Get(s, opening).1.Got? { GotIsOpen(s, opening); }
    if wake.Signalled? && Get(Run(s, wake.others.steps), opening).1.Got? {
      GotIsOpen(Run(s, wake.others.steps), opening);
    }
  }

  lemma ClosedSlots(s: Slots, connections: seq<Option<nat>>, inUse: seq<bool>)
    requires Sane(s) && |connections| == |inUse| == |s.inUse|
    requires forall k :: 0 <= k < |inUse| ==> connections[k].None? && inUse[k] == (s.inUse[k] && s.connections[k].None?)
    ensures Slots(connections, inUse, multiset{}, s.stale + s.live) == CloseAll(s)
    ensures forall k :: 0 <= k < |inUse| ==> !inUse[k]
  {
    assert connections == CloseAll(s).connections;
    assert inUse == CloseAll(s).inUse;
  }

  /** Opening one more connection closes none. */
  lemma TransactionsStay(before: seq<Option<nat>>, index: nat, h: nat, inTransaction: set<nat>)
    requires index < |before| && (before[index].None? || before[index] == Some(h))
    requires forall x :: x in inTransaction ==> Some(x) in before
    ensures forall x :: x in inTransaction ==> Some(x) in before[index := Some(h)]
  {
    forall x | x in inTransaction ensures Some(x) in before[index := Some(h)] {
      var i :| 0 <= i < |before| && before[i] == Some(x);
      assert before[index := Some(h)][i] == Some(x);
    }
  }

  // ----- Query times -----

  function Sum(times: seq<nat>): nat {
    if times == [] then 0 else Sum(times[..|times| - 1]) + times[|times| - 1]
  }

  function Product(a: nat, b: nat): nat {
    a * b
  }

  /** The old average weighted by the old count, plus the new time, divided down. */
  function NextMean(a: nat, n: nat, t: nat): nat
    requires n > 0
  {
    var x: nat := Product(a, n - 1) + t;
    x / n
  }

  function StoredMean(times: seq<nat>): nat {
    if times == [] then 0 else NextMean(StoredMean(times[..|times| - 1]), |times|, times[|times| - 1])
  }

  function StoredMaximum(times: seq<nat>): nat {
    if times == [] then 0
    else
      var m := StoredMaximum(times[..|times| - 1]);
      if times[|times| - 1] > m then times[|times| - 1] else m
  }

  lemma QuotientBounds(x: nat, n: nat)
    requires n > 0
    ensures Product(x / n, n) <= x < Product(x / n, n) + n
  {}

  lemma ProductLess(a: nat, b: nat, n: nat)
    ensures a <= b ==> Product(a, n) <= Product(b, n)
    ensures Product(a, n + 1) == Product(a, n) + a && Product(a + 1, n) == Product(a, n) + n
  {}

  lemma MeanStep(a: nat, n: nat, t: nat)
    requires n > 0
    ensures Product(NextMean(a, n, t), n) <= Product(a, n - 1) + t < Product(NextMean(a, n, t), n) + n
  {}

  lemma MeanBelow(a: nat, n: nat, t: nat, m: nat)
    requires n > 0 && a <= m && t <= m
    ensures NextMean(a, n, t) <= m
  {
    hide Product, NextMean;
    MeanStep(a, n, t);
    ProductLess(a, m, n - 1);
    ProductLess(m, 0, n - 1);
    ProductLess(m, 0, n);
    ProductLess(m + 1, NextMean(a, n, t), n);
  }

  /** Truncation only ever loses: the stored average trails the true one by less than half the count. */
  lemma {:induction false} MeanDrift(times: seq<nat>)
    ensures var n := |times|; var lost := Sum(times) - Product(n, StoredMean(times));
      0 <= lost && 2 * lost <= n * (n - 1)
    ensures StoredMean(times) <= StoredMaximum(times)
    ensures forall k :: 0 <= k < |times| ==> times[k] <= StoredMaximum(times)
    decreases |times|
  {
    if times != [] {
      var front, n, t := times[..|times| - 1], |times|, times[|times| - 1];
      MeanDrift(front);
      MeanBelow(StoredMean(front), n, t, StoredMaximum(times));
      assert forall k :: 0 <= k < n - 1 ==> times[k] == front[k];
      LostStep(Sum(front), StoredMean(front), n, t);
    }
  }

  lemma LostStep(sum: nat, a: nat, n: nat, t: nat)
    requires n > 0 && var lost := sum - Product(n - 1, a); 0 <= lost && 2 * lost <= (n - 1) * (n - 2)
    ensures var lost := sum + t - Product(n, NextMean(a, n, t)); 0 <= lost && 2 * lost <= n * (n - 1)
  {
    MeanStep(a, n, t);
    assert Product(n - 1, a) == Product(a, n - 1);
    assert Product(n, NextMean(a, n, t)) == Product(NextMean(a, n, t), n);
    hide Product, NextMean;
    assert (n - 1) * (n - 2) + 2 * (n - 1) == n * (n - 1);
  }

  /** The maximum is one of the times. */
  lemma {:induction false} MaximumIsReached(times: seq<nat>)
    ensures times != [] ==> StoredMaximum(times) in times
    decreases |times|
  {
    if |times| > 1 { MaximumIsReached(times[..|times| - 1]); }
  }

  function Times(queries: seq<Query>): (times: seq<nat>)
    ensures |times| == |queries|
  {
    seq(|queries|, i requires 0 <= i < |queries| => queries[i].elapsed)
  }

  function FailureCount(queries: seq<Query>): (n: nat)
    ensures n <= |queries|
  {
    if queries == [] then 0
    else FailureCount(queries[..|queries| - 1]) + (if queries[|queries| - 1].succeeded then 0 else 1)
  }

  class Statistics {
    var totalQueries: nat
    var failedQueries: nat
    var average: nat
    var maximum: nat

    /** Every query recorded, in order. */
    ghost var queries: seq<Query>

    ghost predicate Valid()
      reads this
    {
      totalQueries == |queries| && failedQueries == FailureCount(queries) &&
      average == StoredMean(Times(queries)) && maximum == StoredMaximum(Times(queries))
    }

    constructor ()
      ensures Valid() && queries == []
    {
      totalQueries, failedQueries, average, maximum, queries := 0, 0, 0, 0, [];
    }

    /** Queries of other callers. */
    method RecordAll(more: seq<Query>)
      requires Valid()
      modifies this
      ensures Valid() && queries == old(queries) + more
    {
      for i := 0 to |more|
        invariant Valid() && queries == old(queries) + more[..i]
      {
        Record(more[i].elapsed, more[i].succeeded);
        assert more[..i + 1] == more[..i] + [more[i]];
      }
      assert more[..|more|] == more;
    }

    method Record(elapsed: nat, succeeded: bool)
      requires Valid()
      modifies this
      ensures Valid() && queries == old(queries) + [Query(elapsed, succeeded)]
    {
      totalQueries := totalQueries + 1;
      if !succeeded {
        failedQueries := failedQueries + 1;
      }
      average := NextMean(average, totalQueries, elapsed);
      if elapsed > maximum {
        maximum := elapsed;
      }
      ghost var all := queries + [Query(elapsed, succeeded)];
      assert Times(all) == Times(queries) + [elapsed];
      assert all[..|queries|] == queries && Times(all)[..|queries|] == Times(queries);
      queries := all;
    }
  }
}
