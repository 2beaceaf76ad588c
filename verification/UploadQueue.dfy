/**
 * The upload scheduler of web/file-transfer.ts: a queue, at most three active uploads, and a
 * continuation on every started upload that frees its place and looks at the queue again.
 *
 * Transfer identifiers are taken to be fresh. Cancelling an active upload frees its place at once,
 * but its promise is still outstanding and the queue is looked at only when it settles.
 */
module UploadQueue {
  import opened Basics

  const MAX_FILE_SIZE: nat := 1024 * 1024 * 1024
  const MAX_CONCURRENT_UPLOADS: nat := 3

  datatype QueueError = FileTooLarge

  ghost predicate Distinct(s: seq<nat>) {
    forall i, j :: 0 <= i < j < |s| ==> s[i] != s[j]
  }

  lemma DistinctParts(a: seq<nat>, b: seq<nat>)
    requires Distinct(a + b)
    ensures Distinct(a) && Distinct(b)
    ensures forall x :: !(x in a && x in b)
  {
    forall i, j | 0 <= i < j < |b| ensures b[i] != b[j] {
      assert (a + b)[|a| + i] == b[i] && (a + b)[|a| + j] == b[j];
    }
    forall i, j | 0 <= i < j < |a| ensures a[i] != a[j] {
      assert (a + b)[i] == a[i] && (a + b)[j] == a[j];
    }
    forall i, j | 0 <= i < |a| && 0 <= j < |b| ensures a[i] != b[j] {
      assert (a + b)[i] == a[i] && (a + b)[|a| + j] == b[j];
    }
  }

  lemma DistinctRemoval(s: seq<nat>, k: nat)
    requires k < |s| && Distinct(s)
    ensures Distinct(s[..k] + s[k + 1..]) && s[k] !in s[..k] + s[k + 1..]
  {}

  function Without(s: seq<nat>, dropped: set<nat>): seq<nat> {
    if s == [] then []
    else Without(s[..|s| - 1], dropped) + (if s[|s| - 1] in dropped then [] else [s[|s| - 1]])
  }

  lemma {:induction false} WithoutMembers(s: seq<nat>, dropped: set<nat>)
    ensures forall x :: x in Without(s, dropped) <==> x in s && x !in dropped
    decreases |s|
  {
    if s != [] {
      WithoutMembers(s[..|s| - 1], dropped);
      assert s == s[..|s| - 1] + [s[|s| - 1]];
    }
  }

  lemma {:induction false} WithoutNothing(s: seq<nat>, dropped: set<nat>)
    requires forall x :: x in s ==> x !in dropped
    ensures Without(s, dropped) == s
    decreases |s|
  {
    if s != [] {
      assert s[|s| - 1] in s;
      WithoutNothing(s[..|s| - 1], dropped);
    }
  }

  lemma {:induction false} WithoutMore(s: seq<nat>, dropped: set<nat>, x: nat)
    ensures Without(s, dropped + {x}) == Without(Without(s, dropped), {x})
    decreases |s|
  {
    if s != [] {
      var front, last := s[..|s| - 1], s[|s| - 1];
      WithoutMore(front, dropped, x);
      if last in dropped {
        assert Without(front, dropped) + [] == Without(front, dropped);
        assert Without(front, dropped + {x}) + [] == Without(front, dropped + {x});
      } else {
        var w := Without(front, dropped) + [last];
        assert w[..|w| - 1] == Without(front, dropped);
      }
    }
  }

  lemma WithoutLast(s: seq<nat>, dropped: set<nat>, x: nat)
    ensures Without(s + [x], dropped) == Without(s, dropped) + (if x in dropped then [] else [x])
  {}

  /** Leaving out one element of a sequence without repetitions closes the gap. */
  lemma {:induction false} WithoutOne(s: seq<nat>, k: nat)
    requires k < |s| && Distinct(s)
    ensures Without(s, {s[k]}) == s[..k] + s[k + 1..]
    decreases |s|
  {
    var n := |s| - 1;
    var front := s[..n];
    if k < n {
      WithoutOne(front, k);
      assert s[..k] + front[k + 1..] + [s[n]] == s[..k] + s[k + 1..];
    } else {
      assert forall x :: x in front ==> x != s[n];
      WithoutNothing(front, {s[n]});
      assert front + [] == s[..k] + s[k + 1..];
    }
  }

  /** What became of an upload that was started. */
  datatype Fate = Active | Aborted | Finished

  /**
   * Each started upload is active, aborted or finished; the active map holds the active ones; a
   * finished one has settled.
   */
  ghost predicate Accounts(active: set<nat>, started: seq<nat>, fate: map<nat, Fate>, outstanding: set<nat>) {
    (forall id :: id in fate <==> id in started) &&
    (forall id :: id in active <==> id in fate && fate[id] == Active) &&
    (forall id :: id in outstanding ==> id in fate && fate[id] != Finished) &&
    active <= outstanding
  }

  lemma AccountsStart(active: set<nat>, started: seq<nat>, fate: map<nat, Fate>, outstanding: set<nat>, id: nat)
    requires Accounts(active, started, fate, outstanding) && id !in started
    ensures Accounts(active + {id}, started + [id], fate[id := Active], outstanding + {id})
    ensures id !in active && id !in outstanding
  {}

  lemma AccountsSettle(active: set<nat>, started: seq<nat>, fate: map<nat, Fate>, outstanding: set<nat>, id: nat)
    requires Accounts(active, started, fate, outstanding) && id in outstanding
    ensures Accounts(active - {id}, started, if id in active then fate[id := Finished] else fate, outstanding - {id})
  {}

  class FileTransferManager {
    var uploadQueue: seq<nat>
    var activeUploads: set<nat>
    /** The runtime's share: started uploads whose promise has not settled. */
    var outstanding: set<nat>

    /** Every upload accepted, in order. */
    ghost var submitted: seq<nat>
    /** Uploads cancelled while they waited. */
    ghost var dropped: set<nat>
    /** Every upload started, in order, and what became of it. */
    ghost var started: seq<nat>
    ghost var fate: map<nat, Fate>

    /** Started and waiting uploads are the submitted ones in order, less those dropped while they waited. */
    ghost predicate Ordered()
      reads this
    {
      Distinct(started + uploadQueue) && started + uploadQueue == Without(submitted, dropped) &&
      forall id :: id in dropped ==> id in submitted
    }

    ghost predicate Accounted()
      reads this
    {
      Accounts(activeUploads, started, fate, outstanding)
    }

    ghost predicate Consistent()
      reads this
    {
      Ordered() && Accounted() && |activeUploads| <= MAX_CONCURRENT_UPLOADS
    }

    /** While anything waits, three started uploads have yet to settle: no wake-up is lost. */
    ghost predicate Valid()
      reads this
    {
      Consistent() && (uploadQueue != [] ==> |outstanding| >= MAX_CONCURRENT_UPLOADS)
    }

    /** Every submitted upload is in exactly one place: waiting, dropped, or started with one fate. */
    lemma OnePlaceEach(id: nat)
      requires Valid()
      ensures id in submitted <==> id in uploadQueue || id in dropped || id in fate
      ensures !(id in uploadQueue && id in fate) && !(id in uploadQueue && id in dropped) &&
        !(id in fate && id in dropped)
    {
      WithoutMembers(submitted, dropped);
      assert id in started + uploadQueue <==> id in started || id in uploadQueue;
      DistinctParts(started, uploadQueue);
    }

    constructor ()
      ensures Valid() && submitted == [] && uploadQueue == [] && activeUploads == {} && dropped == {} && fate == map[]
    {
      uploadQueue, activeUploads := [], {};
      submitted, dropped, started, fate, outstanding := [], {}, [], map[], {};
    }

    method UploadFile(id: nat, size: nat) returns (r: Result<nat, QueueError>)
      requires Valid() && id !in submitted
      modifies this
      ensures Valid() && dropped == old(dropped)
      ensures if size > MAX_FILE_SIZE then r == Err(FileTooLarge) && submitted == old(submitted)
              else r == Ok(id) && submitted == old(submitted) + [id]
      ensures old(started) <= started
    {
      hide Without;
      if size > MAX_FILE_SIZE {
        return Err(FileTooLarge);
      }
      WithoutLast(submitted, dropped, id);
      WithoutMembers(submitted, dropped);
      assert id !in started + uploadQueue;
      assert started + (uploadQueue + [id]) == started + uploadQueue + [id];
      submitted := submitted + [id];
      uploadQueue := uploadQueue + [id];
      assert Ordered();
      ProcessUploadQueue();
      return Ok(id);
    }

    /** shift() from the queue, and start. */
    method StartNext()
      requires Consistent() && uploadQueue != [] && |activeUploads| < MAX_CONCURRENT_UPLOADS
      modifies this
      ensures Consistent() && submitted == old(submitted) && dropped == old(dropped)
      ensures started == old(started + [uploadQueue[0]]) && uploadQueue == old(uploadQueue[1..])
      ensures fate == old(fate[uploadQueue[0] := Active]) && |outstanding| == old(|outstanding|) + 1
    {
      hide Without, Distinct, Accounts;
      var id := uploadQueue[0];
      DistinctParts(started, uploadQueue);
      AccountsStart(activeUploads, started, fate, outstanding, id);
      assert started + uploadQueue == started + [id] + uploadQueue[1..];
      uploadQueue := uploadQueue[1..];
      activeUploads := activeUploads + {id};
      outstanding, started, fate := outstanding + {id}, started + [id], fate[id := Active];
    }

    method ProcessUploadQueue()
      requires Consistent()
      modifies this
      ensures Valid() && submitted == old(submitted) && dropped == old(dropped)
      ensures uploadQueue == [] || |activeUploads| == MAX_CONCURRENT_UPLOADS
      ensures old(started) <= started && started + uploadQueue == old(started + uploadQueue)
      ensures old(uploadQueue) != [] && |old(activeUploads)| < MAX_CONCURRENT_UPLOADS ==>
        |uploadQueue| < |old(uploadQueue)|
      ensures forall id :: id in old(fate) ==> id in fate && fate[id] == old(fate[id])
      ensures 2 * |uploadQueue| + |outstanding| <= old(2 * |uploadQueue| + |outstanding|)
    {
      hide Ordered, Accounts;
      while |activeUploads| < MAX_CONCURRENT_UPLOADS && |uploadQueue| > 0
        invariant Consistent() && submitted == old(submitted) && dropped == old(dropped)
        invariant old(started) <= started && started + uploadQueue == old(started + uploadQueue)
        invariant |uploadQueue| < |old(uploadQueue)| ||
                  (uploadQueue == old(uploadQueue) && activeUploads == old(activeUploads))
        invariant forall id :: id in old(fate) ==> id in fate && fate[id] == old(fate[id])
        invariant 2 * |uploadQueue| + |outstanding| <= old(2 * |uploadQueue| + |outstanding|)
        decreases |uploadQueue|
      {
        NotStartedYet();
        StartNext();
      }
      ActiveAreOutstanding();
      SubsetSize(activeUploads, outstanding);
    }

    lemma NotStartedYet()
      requires Consistent() && uploadQueue != []
      ensures uploadQueue[0] !in fate
      ensures started + [uploadQueue[0]] + uploadQueue[1..] == started + uploadQueue
    {
      DistinctParts(started, uploadQueue);
    }

    lemma ActiveAreOutstanding()
      requires Consistent()
      ensures activeUploads <= outstanding
    {}

    /** The promise of a started upload settles, either way. */
    method UploadSettled(id: nat)
      requires Valid() && id in outstanding
      modifies this
      ensures Valid() && submitted == old(submitted) && dropped == old(dropped) && old(started) <= started
      ensures uploadQueue == [] || |activeUploads| == MAX_CONCURRENT_UPLOADS
      ensures old(uploadQueue) != [] && (id in old(activeUploads) || |old(activeUploads)| < MAX_CONCURRENT_UPLOADS) ==>
        |uploadQueue| < |old(uploadQueue)|
      ensures forall x :: x in old(fate) ==>
        x in fate && fate[x] == (if x == id && id in old(activeUploads) then Finished else old(fate[x]))
      ensures 2 * |uploadQueue| + |outstanding| < old(2 * |uploadQueue| + |outstanding|)
    {
      hide Without, Distinct, Accounts;
      AccountsSettle(activeUploads, started, fate, outstanding, id);
      outstanding := outstanding - {id};
      if id in activeUploads {
        fate := fate[id := Finished];
      }
      activeUploads := activeUploads - {id};
      assert Accounted();
      ProcessUploadQueue();
    }

    /**
     * If every started upload settles sooner or later, everything that was not cancelled while
     * waiting gets started.
     */
    method LetEverythingSettle()
      requires Valid()
      modifies this
      ensures Valid() && uploadQueue == [] && outstanding == {}
      ensures started == Without(submitted, dropped)
      ensures submitted == old(submitted) && dropped == old(dropped)
    {
      hide Accounts;
      while outstanding != {}
        invariant Valid() && submitted == old(submitted) && dropped == old(dropped)
        decreases 2 * |uploadQueue| + |outstanding|
      {
        var id :| id in outstanding;
        UploadSettled(id);
      }
      assert started + uploadQueue == started;
    }

    method CancelTransfer(id: nat) returns (found: bool)
      requires Valid()
      modifies this
      ensures Valid() && submitted == old(submitted) && started == old(started)
      ensures found <==> id in old(activeUploads) || id in old(uploadQueue)
      ensures if id in old(activeUploads) then
                fate == old(fate[id := Aborted]) && dropped == old(dropped) && uploadQueue == old(uploadQueue)
              else if id in old(uploadQueue) then
                fate == old(fate) && dropped == old(dropped) + {id} && id !in uploadQueue
              else fate == old(fate) && dropped == old(dropped) && uploadQueue == old(uploadQueue)
    {
      hide Without, Distinct;
      if id in activeUploads {
        activeUploads, fate := activeUploads - {id}, fate[id := Aborted];
        return true;
      }
      var index := 0;
      while index < |uploadQueue| && uploadQueue[index] != id
        invariant index <= |uploadQueue| && id !in uploadQueue[..index]
      {
        index := index + 1;
      }
      if index == |uploadQueue| {
        assert uploadQueue[..index] == uploadQueue;
        return false;
      }
      Drop(index);
      return true;
    }

    /** splice(index, 1) on the queue. */
    method Drop(index: nat)
      requires Valid() && index < |uploadQueue|
      modifies this`uploadQueue, this`dropped
      ensures Valid() && uploadQueue == old(uploadQueue[..index] + uploadQueue[index + 1..])
      ensures dropped == old(dropped) + {old(uploadQueue[index])} && old(uploadQueue[index]) !in uploadQueue
    {
      hide Without, Accounts, Distinct;
      var id := uploadQueue[index];
      var all, rest := started + uploadQueue, uploadQueue[..index] + uploadQueue[index + 1..];
      assert all[|started| + index] == id;
      WithoutMembers(submitted, dropped);
      assert id in all;
      WithoutMore(submitted, dropped, id);
      DistinctRemoval(all, |started| + index);
      WithoutOne(all, |started| + index);
      assert all[..|started| + index] + all[|started| + index + 1..] == started + rest;
      uploadQueue := rest;
      dropped := dropped + {id};
    }
  }
}
