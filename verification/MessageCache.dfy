/**
 * The per-group message cache of web/group-manager.ts: arrivals are spliced in by timestamp, and
 * the list is cut to its last 1000 entries.
 */
module MessageCache {
  import opened Basics

  const CACHE_LIMIT: nat := 1000

  datatype GroupMessage = GroupMessage(messageId: Quad, groupId: Quad, timestamp: Quad, content: string)

  // ----- The order in which the cache keeps messages -----

  /** Position of the first later message, or the end. */
  function LaterIndex(ms: seq<GroupMessage>, m: GroupMessage): (i: nat)
    ensures i <= |ms|
    ensures forall k :: 0 <= k < i ==> ms[k].timestamp <= m.timestamp
    ensures i < |ms| ==> ms[i].timestamp > m.timestamp
  {
    if ms == [] || ms[0].timestamp > m.timestamp then 0 else 1 + LaterIndex(ms[1..], m)
  }

  function InsertByTime(ms: seq<GroupMessage>, m: GroupMessage): (inserted: seq<GroupMessage>)
    ensures |inserted| == |ms| + 1
  {
    var i := LaterIndex(ms, m);
    ms[..i] + [m] + ms[i..]
  }

  function Newest(ms: seq<GroupMessage>, n: nat): seq<GroupMessage> {
    if |ms| <= n then ms else ms[|ms| - n..]
  }

  /** Everything received, by timestamp, arrivals of one timestamp in the order they came. */
  function Timeline(received: seq<GroupMessage>): seq<GroupMessage> {
    if received == [] then []
    else InsertByTime(Timeline(received[..|received| - 1]), received[|received| - 1])
  }

  ghost predicate Ascending(ms: seq<GroupMessage>) {
    forall i, j :: 0 <= i < j < |ms| ==> ms[i].timestamp <= ms[j].timestamp
  }

  function At(ms: seq<GroupMessage>, t: Quad): seq<GroupMessage> {
    if ms == [] then []
    else (if ms[0].timestamp == t then [ms[0]] else []) + At(ms[1..], t)
  }

  lemma {:induction false} AtAppend(a: seq<GroupMessage>, b: seq<GroupMessage>, t: Quad)
    ensures At(a + b, t) == At(a, t) + At(b, t)
    decreases |a|
  {
    if a == [] {
      assert a + b == b;
    } else {
      assert (a + b)[1..] == a[1..] + b;
      AtAppend(a[1..], b, t);
      var x := if a[0].timestamp == t then [a[0]] else [];
      assert x + (At(a[1..], t) + At(b, t)) == x + At(a[1..], t) + At(b, t);
    }
  }

  lemma {:induction false} AtNone(ms: seq<GroupMessage>, t: Quad)
    requires forall k :: 0 <= k < |ms| ==> ms[k].timestamp != t
    ensures At(ms, t) == []
    decreases |ms|
  {
    if ms != [] { AtNone(ms[1..], t); }
  }

  lemma InsertAscending(ms: seq<GroupMessage>, m: GroupMessage)
    requires Ascending(ms)
    ensures Ascending(InsertByTime(ms, m))
  {}

  lemma AtOne(m: GroupMessage, t: Quad)
    ensures At([m], t) == if m.timestamp == t then [m] else []
  {}

  lemma InsertKeepsOrder(ms: seq<GroupMessage>, m: GroupMessage, t: Quad)
    requires Ascending(ms)
    ensures At(InsertByTime(ms, m), t) == At(ms, t) + (if m.timestamp == t then [m] else [])
  {
    hide At, LaterIndex;
    var i := LaterIndex(ms, m);
    var a, b := ms[..i], ms[i..];
    assert ms == a + b;
    AtAppend(a, b, t);
    AtAppend(a + [m], b, t);
    AtAppend(a, [m], t);
    AtOne(m, t);
    if m.timestamp == t { AtNone(b, t); }
  }

  /** The timeline is the stable sort of what was received: ascending, and unchanged within each timestamp. */
  lemma {:induction false} TimelineIsStableSort(received: seq<GroupMessage>)
    ensures Ascending(Timeline(received)) && |Timeline(received)| == |received|
    ensures forall t :: At(Timeline(received), t) == At(received, t)
    decreases |received|
  {
    if received != [] {
      var front, m := received[..|received| - 1], received[|received| - 1];
      TimelineIsStableSort(front);
      InsertAscending(Timeline(front), m);
      assert received == front + [m];
      forall t ensures At(Timeline(received), t) == At(received, t) {
        InsertKeepsOrder(Timeline(front), m, t);
        AtAppend(front, [m], t);
        assert At([m], t) == if m.timestamp == t then [m] else [];
      }
    }
  }

  /** A late arrival belongs to the part already cut off; the cut list drops it again at once. */
  lemma CutThenInsertLate(ms: seq<GroupMessage>, m: GroupMessage, d: nat)
    requires Ascending(ms) && LaterIndex(ms, m) < d < |ms|
    ensures InsertByTime(ms[d..], m) == [m] + ms[d..]
    ensures InsertByTime(ms, m)[d + 1..] == ms[d..]
  {
    hide LaterIndex;
    var i, j := LaterIndex(ms, m), LaterIndex(ms[d..], m);
    assert ms[i].timestamp <= ms[d].timestamp == ms[d..][0].timestamp;
    assert j == 0;
  }

  lemma CutThenInsertRecent(ms: seq<GroupMessage>, m: GroupMessage, d: nat)
    requires Ascending(ms) && d <= LaterIndex(ms, m)
    ensures InsertByTime(ms[d..], m) == InsertByTime(ms, m)[d..]
  {
    hide LaterIndex;
    var i, j := LaterIndex(ms, m), LaterIndex(ms[d..], m);
    assert i < |ms| ==> ms[d..][i - d].timestamp > m.timestamp;
    assert j < |ms[d..]| ==> ms[d + j].timestamp > m.timestamp;
    assert j == i - d;
  }

  /** Cutting before or after an arrival comes to the same, wherever the arrival belongs. */
  lemma CutThenInsert(ms: seq<GroupMessage>, m: GroupMessage, n: nat)
    requires Ascending(ms)
    ensures Newest(InsertByTime(Newest(ms, n), m), n) == Newest(InsertByTime(ms, m), n)
  {
    hide InsertByTime, LaterIndex, Ascending;
    if |ms| > n > 0 {
      var d := |ms| - n;
      var cut, whole := InsertByTime(ms[d..], m), InsertByTime(ms, m);
      if d <= LaterIndex(ms, m) {
        CutThenInsertRecent(ms, m, d);
        assert whole[d..][1..] == whole[d + 1..];
      } else {
        CutThenInsertLate(ms, m, d);
        assert ([m] + ms[d..])[1..] == ms[d..];
      }
    }
  }

  function OfGroup(ms: seq<GroupMessage>, g: Quad): seq<GroupMessage> {
    if ms == [] then []
    else OfGroup(ms[..|ms| - 1], g) + (if ms[|ms| - 1].groupId == g then [ms[|ms| - 1]] else [])
  }

  /** What one arrival does to every group's ideal cache. */
  lemma Arrival(received: seq<GroupMessage>, m: GroupMessage)
    ensures forall g :: (Ideal(received + [m], g) ==
      if g == m.groupId then Newest(InsertByTime(Ideal(received, g), m), CACHE_LIMIT) else Ideal(received, g))
  {
    hide Timeline, InsertByTime, Newest;
    forall g ensures Ideal(received + [m], g) ==
      (if g == m.groupId then Newest(InsertByTime(Ideal(received, g), m), CACHE_LIMIT) else Ideal(received, g))
    {
      var own := OfGroup(received, g);
      assert (received + [m])[..|received|] == received;
      if g == m.groupId {
        assert OfGroup(received + [m], g) == own + [m];
        TimelineLast(own, m);
        TimelineIsStableSort(own);
        CutThenInsert(Timeline(own), m, CACHE_LIMIT);
      } else {
        assert OfGroup(received + [m], g) == own + [] == own;
      }
    }
  }

  lemma TimelineLast(received: seq<GroupMessage>, m: GroupMessage)
    ensures Timeline(received + [m]) == InsertByTime(Timeline(received), m)
  {}

  /** The newest 1000 of all that one group ever received. */
  function Ideal(received: seq<GroupMessage>, g: Quad): seq<GroupMessage> {
    Newest(Timeline(OfGroup(received, g)), CACHE_LIMIT)
  }

  /** The kept messages are the last ones of the whole, as many as the limit allows. */
  predicate LastOf(whole: seq<GroupMessage>, kept: seq<GroupMessage>, limit: nat) {
    |kept| == (if |whole| <= limit then |whole| else limit) && kept == whole[|whole| - |kept|..]
  }

  lemma KeptAreLast(received: seq<GroupMessage>, g: Quad)
    ensures LastOf(Timeline(OfGroup(received, g)), Ideal(received, g), 1000)
  {
    hide Timeline, OfGroup;
  }

  /** So nothing that was dropped is later than anything kept. */
  lemma DroppedAreOldest(received: seq<GroupMessage>, g: Quad, d: nat, k: GroupMessage)
    requires d < |Timeline(OfGroup(received, g))| - |Ideal(received, g)| && k in Ideal(received, g)
    ensures Timeline(OfGroup(received, g))[d].timestamp <= k.timestamp
  {
    hide Timeline, OfGroup, Ideal;
    KeptAreLast(received, g);
    TimelineIsStableSort(OfGroup(received, g));
    var j :| 0 <= j < |Ideal(received, g)| && Ideal(received, g)[j] == k;
  }

  class GroupManager {
    var groupMessages: map<Quad, seq<GroupMessage>>

    /** Everything that ever arrived. */
    ghost var received: seq<GroupMessage>

    function Cached(g: Quad): seq<GroupMessage>
      reads this
    {
      if g in groupMessages then groupMessages[g] else []
    }

    /** Every group's cache is the newest 1000 of all it ever received, in stable time order. */
    ghost predicate Valid()
      reads this
    {
      forall g :: Cached(g) == Ideal(received, g)
    }

    constructor ()
      ensures Valid() && received == []
    {
      groupMessages, received := map[], [];
    }

    method HandleGroupMessage(message: GroupMessage)
      requires Valid()
      modifies this
      ensures Valid() && received == old(received) + [message]
      ensures forall g :: LastOf(Timeline(OfGroup(received, g)), Cached(g), 1000)
    {
      hide Ideal, LastOf, Timeline, OfGroup;
      var g := message.groupId;
      var messages := Cached(g);
      var index := 0;
      while index < |messages| && messages[index].timestamp <= message.timestamp
        invariant index <= |messages|
        invariant forall k :: 0 <= k < index ==> messages[k].timestamp <= message.timestamp
      {
        index := index + 1;
      }
      ghost var before := messages;
      messages := messages[..index] + [message] + messages[index..];
      if |messages| > CACHE_LIMIT {
        messages := messages[|messages| - CACHE_LIMIT..];
      }
      groupMessages := groupMessages[g := messages];

      assert index == LaterIndex(before, message);
      assert messages == Newest(InsertByTime(before, message), CACHE_LIMIT);
      Arrival(received, message);
      received := received + [message];
      assert forall h :: h != g ==> Cached(h) == old(Cached(h));
      CachesAreNewest();
    }

    lemma CachesAreNewest()
      requires Valid()
      ensures forall g :: LastOf(Timeline(OfGroup(received, g)), Cached(g), 1000)
    {
      hide Ideal, LastOf;
      forall g ensures LastOf(Timeline(OfGroup(received, g)), Cached(g), 1000) {
        assert Cached(g) == Ideal(received, g);
        KeptAreLast(received, g);
      }
    }

    /** The branch of getGroupMessages that answers from the cache; `before` 0 asks for the newest. */
    method GetCachedPage(g: Quad, limit: nat, before: Quad) returns (page: Option<seq<GroupMessage>>)
      ensures page == CachedPage(Cached(g), limit, before)
    {
      var cached := Cached(g);
      if |cached| < limit {
        return None;
      }
      if before != 0 {
        var index := 0;
        while index < |cached| && cached[index].messageId != before
          invariant index <= |cached|
          invariant IndexOf(cached, before) == index + IndexOf(cached[index..], before)
        {
          index := index + 1;
        }
        if index < |cached| {
          return Some(cached[(if index >= limit then index - limit else 0)..index]);
        }
      }
      return Some(if limit == 0 then cached else cached[|cached| - limit..]);
    }
  }

  // ----- Paging -----

  function IndexOf(ms: seq<GroupMessage>, id: Quad): (i: nat)
    ensures i <= |ms|
    ensures forall k :: 0 <= k < i ==> ms[k].messageId != id
    ensures i < |ms| ==> ms[i].messageId == id
  {
    if ms == [] || ms[0].messageId == id then 0 else 1 + IndexOf(ms[1..], id)
  }

  /** No page when the cache is shorter than the limit; a limit of 0 slices from -0, the whole cache. */
  function CachedPage(ms: seq<GroupMessage>, limit: nat, before: Quad): Option<seq<GroupMessage>> {
    if |ms| < limit then None
    else
      var i := IndexOf(ms, before);
      if before != 0 && i < |ms| then Some(ms[(if i >= limit then i - limit else 0)..i])
      else if limit == 0 then Some(ms)
      else Some(ms[|ms| - limit..])
  }

  /** Before a message that is cached: at most `limit` messages, those directly in front of it; else the last ones. */
  lemma PageMeaning(ms: seq<GroupMessage>, limit: nat, before: Quad)
    ensures CachedPage(ms, limit, before).None? <==> |ms| < limit
    ensures |ms| >= limit ==> var page, i := CachedPage(ms, limit, before).value, IndexOf(ms, before);
      if before != 0 && exists m :: m in ms && m.messageId == before
      then i < |ms| && ms[i].messageId == before && LastOf(ms[..i], page, limit)
      else LastOf(ms, page, if limit == 0 then |ms| else limit)
  {
    if before != 0 && exists m :: m in ms && m.messageId == before {
      var k :| 0 <= k < |ms| && ms[k].messageId == before;
      assert IndexOf(ms, before) <= k;
    }
  }

  /** Asking again and again for the page before the oldest message shown. */
  function PagesBack(ms: seq<GroupMessage>, limit: nat, before: Quad, times: nat): seq<GroupMessage>
    requires 0 < limit <= |ms|
    decreases times
  {
    if times == 0 then []
    else
      var page := CachedPage(ms, limit, before).value;
      if page == [] then [] else PagesBack(ms, limit, page[0].messageId, times - 1) + page
  }

  ghost predicate DistinctIds(ms: seq<GroupMessage>) {
    (forall i :: 0 <= i < |ms| ==> ms[i].messageId != 0) &&
    forall i, j :: 0 <= i < j < |ms| ==> ms[i].messageId != ms[j].messageId
  }

  function StartOfPages(i: nat, limit: nat, times: nat): nat
    decreases times
  {
    if times == 0 then i
    else StartOfPages(if i >= limit then i - limit else 0, limit, times - 1)
  }

  lemma {:induction false} StartIsReached(i: nat, limit: nat, times: nat)
    requires i <= times * limit
    ensures StartOfPages(i, limit, times) == 0
    decreases times
  {
    if times > 0 {
      assert times * limit == (times - 1) * limit + limit;
      StartIsReached(if i >= limit then i - limit else 0, limit, times - 1);
    }
  }

  lemma PageBefore(ms: seq<GroupMessage>, limit: nat, i: nat)
    requires 0 < limit <= |ms| && i < |ms| && DistinctIds(ms)
    ensures CachedPage(ms, limit, ms[i].messageId) == Some(ms[(if i >= limit then i - limit else 0)..i])
  {}

  lemma {:induction false} PagesBackFrom(ms: seq<GroupMessage>, limit: nat, i: nat, times: nat)
    requires 0 < limit <= |ms| && i < |ms| && DistinctIds(ms)
    ensures StartOfPages(i, limit, times) <= i
    ensures PagesBack(ms, limit, ms[i].messageId, times) == ms[StartOfPages(i, limit, times)..i]
    decreases times
  {
    hide CachedPage, DistinctIds;
    if times > 0 {
      PageBefore(ms, limit, i);
      var start := if i >= limit then i - limit else 0;
      var page := ms[start..i];
      assert page != [] ==> page[0] == ms[start];
      PagesBackFrom(ms, limit, start, times - 1);
      var first := StartOfPages(start, limit, times - 1);
      assert ms[first..start] + page == ms[first..i];
      if page == [] {
        assert start == i == first;
      } else {
        assert PagesBack(ms, limit, ms[i].messageId, times) ==
          PagesBack(ms, limit, ms[start].messageId, times - 1) + page;
      }
    }
  }

  /** Paging backwards shows every cached message once, in order, with no gap. */
  lemma PagingCoversCache(ms: seq<GroupMessage>, limit: nat, times: nat)
    requires 0 < limit <= |ms| && DistinctIds(ms) && |ms| <= times * limit
    ensures PagesBack(ms, limit, 0, times) == ms
  {
    hide DistinctIds;
    var i := |ms| - limit;
    var page := CachedPage(ms, limit, 0).value;
    assert page == ms[i..] && page[0] == ms[i];
    assert times * limit == (times - 1) * limit + limit;
    PagesBackFrom(ms, limit, i, times - 1);
    StartIsReached(i, limit, times - 1);
    assert ms[0..i] + ms[i..] == ms;
  }
}
