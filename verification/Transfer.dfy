/**
 * File transfer in the browser (web/file-transfer.ts): an upload sliced into 16 KB chunks, and a
 * download reassembled from chunks that arrive in any order. A chunk frame is an index, a total and
 * a payload; its byte layout is not modelled.
 */
module Transfer {
  import opened Basics
  import opened Chunking
  import Protocol

  const CHUNK_SIZE: nat := 16384

  // ----- Slicing -----

  method UploadChunks(file: seq<Byte>) returns (sent: seq<seq<Byte>>)
    ensures |sent| == ChunkCount(|file|, CHUNK_SIZE)
    ensures forall i :: 0 <= i < |sent| ==> sent[i] == ChunkAt(file, CHUNK_SIZE, i)
  {
    sent := [];
    var totalChunks := ChunkCount(|file|, CHUNK_SIZE);
    for i := 0 to totalChunks
      invariant |sent| == i
      invariant forall k :: 0 <= k < i ==> sent[k] == ChunkAt(file, CHUNK_SIZE, k)
    {
      var start := i * CHUNK_SIZE;
      var end := if start + CHUNK_SIZE <= |file| then start + CHUNK_SIZE else |file|;
      CountMeaning(|file|, CHUNK_SIZE, i);
      sent := sent + [file[start..end]];
    }
  }

  // ----- Receiving -----

  datatype Chunk = Chunk(index: nat, totalChunks: nat, data: seq<Byte>)

  datatype TransferError = MissingChunk(index: nat) | RequestFailed(status: nat)

  /** What a download hears: the response that announces its total, and chunks, in any order. */
  datatype Event = Announced(total: nat) | Arrival(chunk: Chunk)

  /** Chunks 0 up to n joined, or the first that is not there. */
  function Assembled(chunks: map<nat, seq<Byte>>, n: nat): Result<seq<Byte>, TransferError> {
    if n == 0 then Ok([])
    else
      var before := Assembled(chunks, n - 1);
      if before.Err? then before
      else if n - 1 !in chunks then Err(MissingChunk(n - 1))
      else Ok(before.value + chunks[n - 1])
  }

  function Arrivals(events: seq<Event>): seq<Chunk> {
    if events == [] then []
    else
      var last := events[|events| - 1];
      Arrivals(events[..|events| - 1]) + (if last.Arrival? then [last.chunk] else [])
  }

  /** The total in force: the last one announced, or failing that (or if it was 0) the first a chunk brought since. */
  function Total(events: seq<Event>): nat {
    if events == [] then 0
    else
      var before := Total(events[..|events| - 1]);
      match events[|events| - 1]
      case Announced(total) => total
      case Arrival(chunk) => if before != 0 then before else chunk.totalChunks
  }

  function Latest(arrivals: seq<Chunk>): map<nat, seq<Byte>> {
    if arrivals == [] then map[]
    else Latest(arrivals[..|arrivals| - 1])[arrivals[|arrivals| - 1].index := arrivals[|arrivals| - 1].data]
  }

  class FileDownload {
    var chunks: map<nat, seq<Byte>>
    var receivedChunks: set<nat>
    var totalChunks: nat
    var bytesTransferred: nat

    /** What has been heard, in order. */
    ghost var events: seq<Event>

    ghost predicate Valid()
      reads this
    {
      chunks == Latest(Arrivals(events)) && receivedChunks == chunks.Keys && totalChunks == Total(events)
    }

    constructor ()
      ensures Valid() && events == []
    {
      chunks, receivedChunks, totalChunks, bytesTransferred := map[], {}, 0, 0;
      events := [];
    }

    /** The response to the request; whenever it comes, it sets the total. */
    method HandleDownloadResponse(status: nat, total: nat) returns (r: Result<nat, TransferError>)
      requires Valid()
      modifies this`totalChunks, this`events
      ensures Valid()
      ensures if status == 200 then r == Ok(total) && events == old(events) + [Announced(total)]
              else r == Err(RequestFailed(status)) && events == old(events)
    {
      if status != 200 {
        return Err(RequestFailed(status));
      }
      hide Latest, Total, Arrivals;
      totalChunks := total;
      OneMore(events, Announced(total));
      events := events + [Announced(total)];
      return Ok(total);
    }

    method HandleDownloadChunk(chunk: Chunk)
      requires Valid()
      modifies this
      ensures Valid() && events == old(events) + [Arrival(chunk)]
      ensures bytesTransferred == old(bytesTransferred) + |chunk.data|
    {
      hide Latest, Total, Arrivals;
      chunks := chunks[chunk.index := chunk.data];
      receivedChunks := receivedChunks + {chunk.index};
      bytesTransferred := bytesTransferred + |chunk.data|;
      if totalChunks == 0 {
        totalChunks := chunk.totalChunks;
      }
      OneMore(events, Arrival(chunk));
      events := events + [Arrival(chunk)];
    }

    /** The test that waitForCompletion repeats. */
    predicate Ready()
      reads this
    {
      |receivedChunks| == totalChunks && totalChunks > 0
    }

    method AssembleFile() returns (file: Result<seq<Byte>, TransferError>)
      ensures file == Assembled(chunks, totalChunks)
    {
      var parts: seq<seq<Byte>> := [];
      for i := 0 to totalChunks
        invariant |parts| == i
        invariant Assembled(chunks, i) == Ok(Flat(parts))
      {
        if i !in chunks {
          MissingStays(chunks, i + 1, totalChunks);
          return Err(MissingChunk(i));
        }
        FlatAppend(parts, chunks[i]);
        parts := parts + [chunks[i]];
      }
      var result := JoinParts(parts);
      return Ok(result);
    }
  }

  lemma OneMore(events: seq<Event>, e: Event)
    ensures Total(events + [e]) ==
      match e
      case Announced(total) => total
      case Arrival(chunk) => if Total(events) != 0 then Total(events) else chunk.totalChunks
    ensures Latest(Arrivals(events + [e])) ==
      match e
      case Announced(_) => Latest(Arrivals(events))
      case Arrival(chunk) => Latest(Arrivals(events))[chunk.index := chunk.data]
  {
    assert (events + [e])[..|events|] == events;
    var arrivals := Arrivals(events);
    match e
    case Announced(_) => assert arrivals + [] == arrivals;
    case Arrival(chunk) => assert (arrivals + [chunk])[..|arrivals|] == arrivals;
  }

  method TotalSize(parts: seq<seq<Byte>>) returns (total: nat)
    ensures total == |Flat(parts)|
  {
    total := 0;
    for i := 0 to |parts|
      invariant total == |Flat(parts[..i])|
    {
      FlatAppend(parts[..i], parts[i]);
      assert parts[..i + 1] == parts[..i] + [parts[i]];
      total := total + |parts[i]|;
    }
    assert parts[..|parts|] == parts;
  }

  method JoinParts(parts: seq<seq<Byte>>) returns (joined: seq<Byte>)
    ensures joined == Flat(parts)
  {
    var total := TotalSize(parts);
    var result := new Byte[total](_ => 0);
    var offset := 0;
    for i := 0 to |parts|
      invariant 0 <= offset <= total && result[..offset] == Flat(parts[..i])
    {
      FlatAppend(parts[..i], parts[i]);
      assert parts[..i + 1] == parts[..i] + [parts[i]];
      FlatPrefix(parts, i + 1);
      Protocol.Store(result, offset, parts[i]);
      offset := offset + |parts[i]|;
    }
    assert parts[..|parts|] == parts;
    joined := result[..];
  }

  function Flat(parts: seq<seq<Byte>>): seq<Byte> {
    if parts == [] then [] else Flat(parts[..|parts| - 1]) + parts[|parts| - 1]
  }

  lemma FlatAppend(parts: seq<seq<Byte>>, part: seq<Byte>)
    ensures Flat(parts + [part]) == Flat(parts) + part
  {}

  lemma {:induction false} FlatPrefix(parts: seq<seq<Byte>>, n: nat)
    requires n <= |parts|
    ensures |Flat(parts[..n])| <= |Flat(parts)|
    decreases |parts|
  {
    if n < |parts| {
      FlatPrefix(parts[..|parts| - 1], n);
      assert parts[..|parts| - 1][..n] == parts[..n];
    } else {
      assert parts[..n] == parts;
    }
  }

  lemma {:induction false} MissingStays(chunks: map<nat, seq<Byte>>, k: nat, n: nat)
    requires k <= n && Assembled(chunks, k).Err?
    ensures Assembled(chunks, n) == Assembled(chunks, k)
    decreases n
  {
    if k < n { MissingStays(chunks, k, n - 1); }
  }

  lemma {:induction false} AssembledMeaning(chunks: map<nat, seq<Byte>>, n: nat)
    ensures Assembled(chunks, n).Ok? <==> forall i :: 0 <= i < n ==> i in chunks
    ensures match Assembled(chunks, n)
      case Ok(_) => true
      case Err(e) =>
        e.MissingChunk? && e.index < n && e.index !in chunks && forall i :: 0 <= i < e.index ==> i in chunks
    decreases n
  {
    if n > 0 { AssembledMeaning(chunks, n - 1); }
  }

  // ----- Reassembly -----

  function Below(n: nat): (s: set<nat>)
    ensures forall i: nat :: i in s <==> i < n
    ensures |s| == n
  {
    if n == 0 then {}
    else
      var s := Below(n - 1);
      assert n - 1 !in s;
      s + {n - 1}
  }

  lemma {:induction false} SubsetOfSameSize(a: set<nat>, b: set<nat>)
    requires a <= b && |a| == |b|
    ensures a == b
  {
    if a != b {
      var x :| x in b && x !in a;
      assert a <= b - {x};
      SubsetSize(a, b - {x});
    }
  }

  /** Counting distinct indices is enough exactly when every index received is in range. */
  lemma ReadyMeansComplete(chunks: map<nat, seq<Byte>>, n: nat)
    requires |chunks.Keys| == n
    ensures Assembled(chunks, n).Ok? <==> forall i :: i in chunks ==> i < n
  {
    AssembledMeaning(chunks, n);
    if forall i :: i in chunks ==> i < n {
      SubsetOfSameSize(chunks.Keys, Below(n));
      assert forall i :: 0 <= i < n ==> i in Below(n);
    }
    if forall i :: 0 <= i < n ==> i in chunks {
      SubsetOfSameSize(Below(n), chunks.Keys);
      assert forall i :: i in chunks ==> i in Below(n);
    }
  }

  /** What is heard is about one file: its chunks, each any number of times and in any order, and its total. */
  ghost predicate About(events: seq<Event>, file: seq<Byte>) {
    ChunksOf(Arrivals(events), file) &&
    forall e :: e in events && e.Announced? ==> e.total == ChunkCount(|file|, CHUNK_SIZE)
  }

  ghost predicate ChunksOf(arrivals: seq<Chunk>, file: seq<Byte>) {
    forall a :: a in arrivals ==>
      a.totalChunks == ChunkCount(|file|, CHUNK_SIZE) && a.index < a.totalChunks &&
      a.data == ChunkAt(file, CHUNK_SIZE, a.index)
  }

  ghost predicate Arrived(arrivals: seq<Chunk>, i: nat) {
    exists a :: a in arrivals && a.index == i
  }

  ghost predicate AllArrived(arrivals: seq<Chunk>, n: nat) {
    forall i: nat :: i < n ==> Arrived(arrivals, i)
  }

  /** What is kept of an index is what came last under it, and only indices that came are kept. */
  lemma {:induction false} LatestMeaning(arrivals: seq<Chunk>, i: nat)
    ensures i in Latest(arrivals) <==> Arrived(arrivals, i)
    ensures forall k :: 0 <= k < |arrivals| && LastOf(arrivals, k, i) ==>
      i in Latest(arrivals) && Latest(arrivals)[i] == arrivals[k].data
    decreases |arrivals|
  {
    if arrivals != [] {
      var front, last := arrivals[..|arrivals| - 1], arrivals[|arrivals| - 1];
      assert arrivals == front + [last];
      LatestMeaning(front, i);
      assert Arrived(front, i) ==> Arrived(arrivals, i);
      if i == last.index { assert last in arrivals; }
      forall k | 0 <= k < |front| && LastOf(arrivals, k, i) ensures LastOf(front, k, i) {}
    }
  }

  /** Arrival k is the last with index i. */
  predicate LastOf(arrivals: seq<Chunk>, k: nat, i: nat)
    requires k < |arrivals|
  {
    arrivals[k].index == i && forall l :: k < l < |arrivals| ==> arrivals[l].index != i
  }

  /** The first total other than 0 that the chunks bring, or 0. */
  function FirstTotal(chunks: seq<Chunk>): nat {
    if chunks == [] then 0 else if chunks[0].totalChunks != 0 then chunks[0].totalChunks else FirstTotal(chunks[1..])
  }

  function AsArrivals(chunks: seq<Chunk>): (events: seq<Event>)
    ensures |events| == |chunks|
  {
    seq(|chunks|, i requires 0 <= i < |chunks| => Arrival(chunks[i]))
  }

  lemma {:induction false} FirstTotalLast(chunks: seq<Chunk>, last: Chunk)
    ensures FirstTotal(chunks + [last]) == if FirstTotal(chunks) != 0 then FirstTotal(chunks) else last.totalChunks
    decreases |chunks|
  {
    if chunks == [] {
      assert chunks + [last] == [last];
    } else {
      assert (chunks + [last])[1..] == chunks[1..] + [last];
      FirstTotalLast(chunks[1..], last);
    }
  }

  /**
   * Chunks only matter to the total until one is known: an announced total stands whatever chunks say
   * later, and without one, or after one of 0, the first chunk that says something decides.
   */
  lemma {:induction false} TotalMeaning(before: seq<Event>, later: seq<Chunk>)
    ensures Total(before + AsArrivals(later)) == if Total(before) != 0 then Total(before) else FirstTotal(later)
    ensures before != [] && before[|before| - 1].Announced? ==> Total(before) == before[|before| - 1].total
    ensures Total([]) == 0
    decreases |later|
  {
    if later == [] {
      assert before + AsArrivals(later) == before;
    } else {
      var front, last := later[..|later| - 1], later[|later| - 1];
      assert later == front + [last];
      assert before + AsArrivals(later) == before + AsArrivals(front) + [Arrival(last)];
      TotalMeaning(before, front);
      OneMore(before + AsArrivals(front), Arrival(last));
      FirstTotalLast(front, last);
    }
  }

  lemma {:induction false} LatestOfFile(arrivals: seq<Chunk>, file: seq<Byte>)
    requires ChunksOf(arrivals, file)
    ensures forall i :: i in Latest(arrivals) <==> Arrived(arrivals, i)
    ensures forall i :: i in Latest(arrivals) ==>
      i < ChunkCount(|file|, CHUNK_SIZE) && Latest(arrivals)[i] == ChunkAt(file, CHUNK_SIZE, i)
    decreases |arrivals|
  {
    if arrivals != [] {
      var front, last := arrivals[..|arrivals| - 1], arrivals[|arrivals| - 1];
      assert arrivals == front + [last];
      LatestOfFile(front, file);
      forall i ensures i in Latest(arrivals) <==> Arrived(arrivals, i) {
        assert Arrived(front, i) ==> Arrived(arrivals, i);
        if i == last.index { assert last in arrivals; }
      }
    }
  }

  lemma {:induction false} TotalOfFile(events: seq<Event>, file: seq<Byte>)
    requires About(events, file)
    ensures Total(events) == if events == [] then 0 else ChunkCount(|file|, CHUNK_SIZE)
    decreases |events|
  {
    hide ChunkCount, ChunkAt;
    if events != [] {
      var front, last := events[..|events| - 1], events[|events| - 1];
      assert last in events;
      if last.Arrival? { assert last.chunk in Arrivals(events); }
      assert forall a :: a in Arrivals(front) ==> a in Arrivals(events);
      TotalOfFile(front, file);
    }
  }

  lemma {:induction false} AssembledFromSlices(chunks: map<nat, seq<Byte>>, file: seq<Byte>, n: nat)
    requires n <= ChunkCount(|file|, CHUNK_SIZE)
    requires forall i :: 0 <= i < n ==> i in chunks && chunks[i] == ChunkAt(file, CHUNK_SIZE, i)
    ensures Assembled(chunks, n) == Ok(Joined(file, CHUNK_SIZE, n))
    decreases n
  {
    if n > 0 { AssembledFromSlices(chunks, file, n - 1); }
  }

  /**
   * Main result: whatever the order and the repetitions, and whenever the response comes, a download
   * of a non-empty file is ready exactly when every chunk has arrived, and then it assembles to the
   * file.
   */
  lemma Reassembly(d: FileDownload, file: seq<Byte>)
    requires d.Valid() && file != [] && About(d.events, file)
    ensures d.Ready() <==> AllArrived(Arrivals(d.events), ChunkCount(|file|, CHUNK_SIZE))
    ensures d.Ready() ==> Assembled(d.chunks, d.totalChunks) == Ok(file)
  {
    hide Latest, Assembled, ChunksOf, ChunkAt, Total;
    var n := ChunkCount(|file|, CHUNK_SIZE);
    CountMeaning(|file|, CHUNK_SIZE, 0);
    LatestOfFile(Arrivals(d.events), file);
    TotalOfFile(d.events, file);
    AllThere(d.chunks, n);
    var arrivals := Arrivals(d.events);
    if AllArrived(arrivals, n) {
      assert Arrived(arrivals, 0) && Arrivals([]) == [];
      assert d.events != [];
      assert forall i :: 0 <= i < n ==> i in d.chunks;
    }
    if d.Ready() {
      assert d.totalChunks == n;
      assert AllArrived(arrivals, n);
      AssembledFromSlices(d.chunks, file, n);
      JoinedWhole(file, CHUNK_SIZE);
    }
  }

  lemma AllThere(chunks: map<nat, seq<Byte>>, n: nat)
    requires forall i :: i in chunks ==> i < n
    ensures |chunks.Keys| == n <==> forall i :: 0 <= i < n ==> i in chunks
  {
    if |chunks.Keys| == n {
      ReadyMeansComplete(chunks, n);
      AssembledMeaning(chunks, n);
    }
    if forall i :: 0 <= i < n ==> i in chunks {
      assert chunks.Keys == Below(n);
    }
  }

  /** An empty file is announced with no chunks, and is never ready. */
  lemma EmptyNeverReady(d: FileDownload)
    requires d.Valid() && About(d.events, [])
    ensures !d.Ready()
  {
    TotalOfFile(d.events, []);
  }
}
