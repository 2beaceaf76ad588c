/**
 * The server side of an upload (server/src/file_transfer.c): chunks written at their offset into a
 * temporary file, completion by byte count, verification, and the final rename. Encryption and
 * compression are off. The outcome of each file operation is an argument.
 *
 * A prepared session is PREPARING, and the manager leaves it alone until all bytes are counted. The
 * program means to make a session TRANSFERRING as well, but only behind a lock it already holds, so
 * what is proved of TRANSFERRING sessions holds of the program without that second lock.
 */
module ServerUpload {
  import opened Basics
  import opened Chunking

  datatype Status =
    | Pending | Preparing | Transferring | Paused | Completed | Failed | Cancelled | Verifying | Cleanup

  datatype Code =
    | Success | InvalidParams | FileNotFound | ChecksumMismatch | InvalidState | IoError | InvalidChunk

  datatype Config = Config(chunkSize: nat, maxRetries: nat, verifyChecksum: bool)

  /** The checksum a session expects, and how it is computed. */
  datatype Expectation = Expectation(hash: seq<Byte> -> string, expected: string)

  const MAX_ERROR_CHUNKS: nat := 30

  datatype Session = Session(
    status: Status, totalBytes: nat, totalChunks: nat, bytesTransferred: nat, currentChunk: nat,
    retryCount: nat, errorChunks: seq<nat>,
    temp: Option<seq<Byte>>,    // the temporary file, if it exists
    local: Option<seq<Byte>>)   // the file at the local path

  datatype Disk =
    | AllWritten
    | CannotOpen
    | CannotSeek
    | ShortWrite(bytes: nat)

  // ----- One chunk -----

  /** Writing at an offset: a gap before it reads as zeros, bytes beyond the data stay. */
  function WriteAt(file: seq<Byte>, offset: nat, data: seq<Byte>): seq<Byte> {
    if data == [] then file
    else
      var before := if |file| < offset then file + seq(offset - |file|, _ => 0) else file[..offset];
      var after := if |file| <= offset + |data| then [] else file[offset + |data|..];
      before + data + after
  }

  function Furthest(a: nat, b: nat): nat {
    if a < b then b else a
  }

  /** The byte at p once the data has been written over the file. */
  function Overlaid(file: seq<Byte>, offset: nat, data: seq<Byte>, p: nat): Byte {
    if offset <= p < offset + |data| then data[p - offset] else if p < |file| then file[p] else 0
  }

  /** Byte by byte: the data where it goes, zeros in a gap before it, everything else as it was. */
  lemma WriteAtMeaning(file: seq<Byte>, offset: nat, data: seq<Byte>)
    ensures |WriteAt(file, offset, data)| == if data == [] then |file| else Furthest(|file|, offset + |data|)
    ensures forall p: nat :: p < |WriteAt(file, offset, data)| ==>
      WriteAt(file, offset, data)[p] == Overlaid(file, offset, data, p)
  {}

  /** What a write leaves in the temporary file; a missing file is created. */
  function Written(temp: Option<seq<Byte>>, offset: nat, data: seq<Byte>, disk: Disk): Option<seq<Byte>>
    requires disk.ShortWrite? ==> disk.bytes < |data|
  {
    var file := if temp.Some? then temp.value else [];
    match disk
    case AllWritten => Some(WriteAt(file, offset, data))
    case CannotOpen => temp
    case CannotSeek => Some(file)
    case ShortWrite(n) => Some(WriteAt(file, offset, data[..n]))
  }

  /** How much of the data the disk takes. */
  function Accepts(disk: Disk, data: seq<Byte>): nat {
    match disk
    case AllWritten => |data|
    case ShortWrite(n) => n
    case _ => 0
  }

  /** The file is there afterwards unless it could not be opened, with as much of the data as the disk took. */
  lemma FileAfter(temp: Option<seq<Byte>>, offset: nat, data: seq<Byte>, disk: Disk)
    requires disk.ShortWrite? ==> disk.bytes < |data|
    ensures var t := Written(temp, offset, data, disk); var file := if temp.Some? then temp.value else [];
      && (t.None? <==> temp.None? && disk == CannotOpen)
      && (t.Some? ==> t.value == WriteAt(file, offset, data[..Accepts(disk, data)]))
  {
    hide WriteAt;
    assert data[..|data|] == data && data[..0] == [];
    NothingOver(if temp.Some? then temp.value else [], offset);
  }

  lemma NothingOver(file: seq<Byte>, offset: nat)
    ensures WriteAt(file, offset, []) == file
  {}

  function UploadChunk(s: Session, cfg: Config, index: nat, data: seq<Byte>, disk: Disk): (Session, Code)
    requires disk.ShortWrite? ==> disk.bytes < |data|
  {
    if data == [] then (s, InvalidParams)
    else if s.status != Transferring && s.status != Preparing then (s, InvalidState)
    else if index >= s.totalChunks then (s, InvalidChunk)
    else
      var w := s.(temp := Written(s.temp, index * cfg.chunkSize, data, disk));
      if disk == AllWritten then
        var bytes := s.bytesTransferred + |data|;
        (w.(bytesTransferred := bytes, currentChunk := index + 1,
            status := if bytes >= s.totalBytes then Verifying else s.status), Success)
      else
        var noted := if |s.errorChunks| < MAX_ERROR_CHUNKS then s.errorChunks + [index] else s.errorChunks;
        var e := w.(errorChunks := noted);
        (if s.retryCount < cfg.maxRetries then e.(retryCount := s.retryCount + 1) else e.(status := Failed), IoError)
  }

  /** Which code a chunk is answered with; a chunk that is refused changes nothing. */
  lemma ChunkCode(s: Session, cfg: Config, index: nat, data: seq<Byte>, disk: Disk)
    requires disk.ShortWrite? ==> disk.bytes < |data|
    ensures var (t, code) := UploadChunk(s, cfg, index, data, disk);
      var taken := data != [] && s.status in {Preparing, Transferring} && index < s.totalChunks;
      && (code == InvalidParams <==> data == [])
      && (code == InvalidState <==> data != [] && s.status !in {Preparing, Transferring})
      && (code == InvalidChunk <==> data != [] && s.status in {Preparing, Transferring} && index >= s.totalChunks)
      && (code == Success <==> taken && disk == AllWritten)
      && (code == IoError <==> taken && disk != AllWritten)
      && (code in {InvalidParams, InvalidState, InvalidChunk} ==> t == s)
  {
    hide Written;
  }

  // ----- Preparing, and the manager's tick -----

  function PrepareUpload(s: Session, cfg: Config, tempOpens: bool): (Session, Code)
    requires cfg.chunkSize > 0
  {
    if !tempOpens then (s, IoError)
    else
      var t := s.(temp := Some([]));
      if s.local.None? then (t, FileNotFound)
      else
        var n := |s.local.value|;
        (t.(totalBytes := n, totalChunks := ChunkCount(n, cfg.chunkSize), status := Preparing), Success)
  }

  /** The manager's visit to a session, for an upload; a failed visit marks the session failed. */
  function Tick(s: Session, cfg: Config, e: Expectation, fileOpens: bool): (Session, Code)
    requires cfg.chunkSize > 0
  {
    var (t, code) :=
      match s.status
      case Pending =>
        var (p, c) := PrepareUpload(s, cfg, fileOpens);
        (if c == Success then p.(status := Transferring) else p, c)
      case Transferring =>
        (if s.temp.Some? then
           s.(bytesTransferred := |s.temp.value|, currentChunk := |s.temp.value| / cfg.chunkSize)
         else s, Success)
      case Verifying =>
        if cfg.verifyChecksum && e.expected != "" then
          if s.temp.None? || !fileOpens then (s.(status := Failed), IoError)
          else if e.hash(s.temp.value) != e.expected then (s.(status := Failed), ChecksumMismatch)
          else (s.(status := Completed), Success)
        else (s.(status := Completed), Success)
      case Completed =>
        if s.temp.Some? then (s.(local := s.temp, temp := None), Success)
        else (s.(status := Failed), IoError)
      case _ => (s, Success);
    (if code == Success then t else t.(status := Failed), code)
  }

  /** Closing an upload by hand: it looks at the checksum but not at the status. */
  function CompleteUpload(s: Session, cfg: Config, e: Expectation): (Session, Code) {
    if s.temp.None? then (s, IoError)
    else if cfg.verifyChecksum && e.expected != "" && e.hash(s.temp.value) != e.expected then (s, ChecksumMismatch)
    else (s.(local := s.temp, temp := None, status := Completed), Success)
  }

  /** The checksum is to be looked at, and is not that of the file. */
  predicate WrongChecksum(s: Session, cfg: Config, e: Expectation)
    requires s.temp.Some?
  {
    cfg.verifyChecksum && e.expected != "" && e.hash(s.temp.value) != e.expected
  }

  /** What a visit does, status by status: only a VERIFYING and a COMPLETED session move on. */
  lemma VisitMeaning(s: Session, cfg: Config, e: Expectation, fileOpens: bool)
    requires cfg.chunkSize > 0
    ensures var (t, code) := Tick(s, cfg, e, fileOpens);
      && (s.status in {Preparing, Paused, Failed, Cancelled, Cleanup} ==> t == s && code == Success)
      && (s.status == Verifying ==> t == s.(status := if code == Success then Completed else Failed))
      && (s.status == Verifying && !(cfg.verifyChecksum && e.expected != "") ==> code == Success)
      && (s.status == Verifying && cfg.verifyChecksum && e.expected != "" ==>
           (code == Success <==> fileOpens && s.temp.Some? && e.hash(s.temp.value) == e.expected) &&
           (code == ChecksumMismatch <==> fileOpens && s.temp.Some? && e.hash(s.temp.value) != e.expected))
      && (s.status == Completed && s.temp.Some? ==> t == s.(local := s.temp, temp := None) && code == Success)
      && (s.status == Completed && s.temp.None? ==> t == s.(status := Failed) && code == IoError)
      && (code != Success ==> t.status == Failed)
  {}

  /** The two statuses behind the second lock: a PENDING session is prepared, a TRANSFERRING one measured. */
  lemma LockedVisitMeaning(s: Session, cfg: Config, e: Expectation, fileOpens: bool)
    requires cfg.chunkSize > 0
    ensures var (t, code) := Tick(s, cfg, e, fileOpens); var (p, c) := PrepareUpload(s, cfg, fileOpens);
      && (s.status == Pending ==> code == c && t == p.(status := if c == Success then Transferring else Failed))
      && (s.status == Transferring ==> code == Success)
      && (s.status == Transferring && s.temp.None? ==> t == s)
      && (s.status == Transferring && s.temp.Some? ==>
            t == s.(bytesTransferred := |s.temp.value|, currentChunk := t.currentChunk))
      && (s.status == Transferring && s.temp.Some? ==>
            t.currentChunk * cfg.chunkSize <= |s.temp.value| < t.currentChunk * cfg.chunkSize + cfg.chunkSize)
  {
    if s.temp.Some? { QuotientBounds(|s.temp.value|, cfg.chunkSize); }
  }

  /** Closing by hand succeeds exactly with a file whose checksum is not wrong; else nothing changes. */
  lemma CompletionMeaning(s: Session, cfg: Config, e: Expectation)
    ensures var (t, code) := CompleteUpload(s, cfg, e);
      && (code == Success <==> s.temp.Some? && !WrongChecksum(s, cfg, e))
      && t == if code == Success then s.(local := s.temp, temp := None, status := Completed) else s
  {}

  /** Preparing empties the temporary file if it can be opened, and does the rest if the source is there. */
  lemma PreparationMeaning(s: Session, cfg: Config, tempOpens: bool)
    requires cfg.chunkSize > 0
    ensures var (t, code) := PrepareUpload(s, cfg, tempOpens);
      && (code == Success <==> tempOpens && s.local.Some?) && (code == IoError <==> !tempOpens)
      && (code == IoError ==> t == s) && (code == FileNotFound ==> t == s.(temp := Some([])))
      && (code == Success ==> t == s.(status := Preparing, temp := Some([]), totalBytes := |s.local.value|,
           totalChunks := t.totalChunks))
      && (code == Success ==> forall i: nat :: i < t.totalChunks <==> i * cfg.chunkSize < t.totalBytes)
  {
    if tempOpens && s.local.Some? {
      forall i: nat ensures i < ChunkCount(|s.local.value|, cfg.chunkSize) <==> i * cfg.chunkSize < |s.local.value| {
        CountMeaning(|s.local.value|, cfg.chunkSize, i);
      }
    }
  }

  // ----- How much of the source has been written -----

  /** Total length of the written chunks among the first k. */
  function Covered(n: nat, c: nat, written: set<nat>, k: nat): nat
    requires c > 0 && k <= ChunkCount(n, c)
  {
    if k == 0 then 0
    else Covered(n, c, written, k - 1) + (if k - 1 in written then ChunkLength(n, c, k - 1) else 0)
  }

  function ChunkLength(n: nat, c: nat, i: nat): (l: nat)
    requires c > 0 && i < ChunkCount(n, c)
    ensures l > 0 && l == ChunkEnd(n, c, i) - i * c
  {
    CountMeaning(n, c, i);
    ChunkEnd(n, c, i) - i * c
  }

  lemma {:induction false} CoveredBound(n: nat, c: nat, written: set<nat>, k: nat)
    requires c > 0 && k <= ChunkCount(n, c)
    ensures Covered(n, c, written, k) <= Through(n, c, k)
    ensures Covered(n, c, written, k) == Through(n, c, k) <==> forall i :: 0 <= i < k ==> i in written
    decreases k
  {
    if k > 0 {
      CoveredBound(n, c, written, k - 1);
      CountMeaning(n, c, k - 1);
      assert k * c == (k - 1) * c + c;
      assert Through(n, c, k) == Through(n, c, k - 1) + ChunkLength(n, c, k - 1);
    }
  }

  lemma {:induction false} CoveredAdd(n: nat, c: nat, written: set<nat>, i: nat, k: nat)
    requires c > 0 && k <= ChunkCount(n, c) && i !in written && i < ChunkCount(n, c)
    ensures Covered(n, c, written + {i}, k) == Covered(n, c, written, k) + (if i < k then ChunkLength(n, c, i) else 0)
    decreases k
  {
    if k > 0 {
      CoveredAdd(n, c, written, i, k - 1);
    }
  }

  /** Everything is covered exactly when every index is written. */
  lemma CoveredAll(n: nat, c: nat, written: set<nat>)
    requires c > 0
    ensures Covered(n, c, written, ChunkCount(n, c)) <= n
    ensures Covered(n, c, written, ChunkCount(n, c)) == n <==> forall i :: 0 <= i < ChunkCount(n, c) ==> i in written
  {
    var k := ChunkCount(n, c);
    CoveredBound(n, c, written, k);
    CountMeaning(n, c, k);
  }

  /** The file agrees with the source wherever a written chunk lies, and is no longer than it. */
  ghost predicate Agrees(file: seq<Byte>, source: seq<Byte>, c: nat, written: set<nat>)
    requires c > 0
  {
    |file| <= |source| &&
    forall p :: 0 <= p < |source| && p / c in written ==> p < |file| && file[p] == source[p]
  }

  /** Writing right bytes from a chunk's start, all of it or part, disturbs nothing. */
  lemma WriteAgrees(file: seq<Byte>, source: seq<Byte>, c: nat, written: set<nat>, i: nat, data: seq<Byte>)
    requires c > 0 && i < ChunkCount(|source|, c) && data <= ChunkAt(source, c, i)
    requires Agrees(file, source, c, written)
    ensures Agrees(WriteAt(file, i * c, data), source, c, written)
    ensures data == ChunkAt(source, c, i) ==> Agrees(WriteAt(file, i * c, data), source, c, written + {i})
  {
    var w := WriteAt(file, i * c, data);
    CountMeaning(|source|, c, i);
    forall p | 0 <= p < |source| && p / c in written ensures p < |w| && w[p] == source[p] {}
    if data == ChunkAt(source, c, i) {
      forall p | 0 <= p < |source| && p / c in written + {i} ensures p < |w| && w[p] == source[p] {
        QuotientUnique(p, c, i);
      }
    }
  }

  // ----- Whole uploads -----

  /** Where an upload of the source stands after the given chunks went in. */
  ghost predicate Progress(s: Session, cfg: Config, source: seq<Byte>, written: set<nat>) {
    cfg.chunkSize > 0 &&
    var c := cfg.chunkSize; var k := ChunkCount(|source|, c);
    s.totalBytes == |source| && s.totalChunks == k && (forall i :: i in written ==> i < k) &&
    s.temp.Some? && Agrees(s.temp.value, source, c, written) &&
    s.bytesTransferred == Covered(|source|, c, written, k) &&
    s.status == if forall i :: 0 <= i < k ==> i in written then Verifying else Preparing
  }

  /** A try to write one chunk of the source. */
  datatype Attempt = Attempt(index: nat, disk: Disk)

  ghost predicate Sensible(a: Attempt, source: seq<Byte>, c: nat)
    requires c > 0
  {
    a.index < ChunkCount(|source|, c) &&
    (a.disk.ShortWrite? ==> a.disk.bytes < |ChunkAt(source, c, a.index)|)
  }

  function Try(s: Session, cfg: Config, source: seq<Byte>, a: Attempt): (Session, Code)
    requires cfg.chunkSize > 0 && Sensible(a, source, cfg.chunkSize)
  {
    UploadChunk(s, cfg, a.index, ChunkAt(source, cfg.chunkSize, a.index), a.disk)
  }

  lemma StepProgress(s: Session, cfg: Config, source: seq<Byte>, written: set<nat>, a: Attempt)
    requires Progress(s, cfg, source, written) && Sensible(a, source, cfg.chunkSize)
    requires a.index !in written
    requires a.disk == AllWritten || s.retryCount < cfg.maxRetries
    ensures var (t, code) := Try(s, cfg, source, a);
      && Progress(t, cfg, source, if a.disk == AllWritten then written + {a.index} else written)
      && t.retryCount == s.retryCount + (if a.disk == AllWritten then 0 else 1)
      && code == if a.disk == AllWritten then Success else IoError
  {
    var c, n, k := cfg.chunkSize, |source|, ChunkCount(|source|, cfg.chunkSize);
    var data := ChunkAt(source, c, a.index);
    assert s.status == Preparing;
    match a.disk
    case AllWritten =>
      WriteAgrees(s.temp.value, source, c, written, a.index, data);
      CoveredAdd(n, c, written, a.index, k);
      CoveredAll(n, c, written + {a.index});
    case ShortWrite(m) =>
      WriteAgrees(s.temp.value, source, c, written, a.index, data[..m]);
    case _ =>
  }

  function Run(s: Session, cfg: Config, source: seq<Byte>, attempts: seq<Attempt>): Session
    requires cfg.chunkSize > 0 && forall a :: a in attempts ==> Sensible(a, source, cfg.chunkSize)
    decreases |attempts|
  {
    if attempts == [] then s
    else
      var front, last := attempts[..|attempts| - 1], attempts[|attempts| - 1];
      Try(Run(s, cfg, source, front), cfg, source, last).0
  }

  function Succeeded(attempts: seq<Attempt>): set<nat> {
    set a | a in attempts && a.disk == AllWritten :: a.index
  }

  function Failures(attempts: seq<Attempt>): nat {
    if attempts == [] then 0
    else Failures(attempts[..|attempts| - 1]) + (if attempts[|attempts| - 1].disk == AllWritten then 0 else 1)
  }

  /** No chunk is written again once it was written whole. */
  ghost predicate OnceEach(attempts: seq<Attempt>) {
    forall i, j :: 0 <= i < j < |attempts| && attempts[i].disk == AllWritten ==> attempts[j].index != attempts[i].index
  }

  /** A session that was just prepared for the source. */
  ghost predicate Prepared(s: Session, cfg: Config, source: seq<Byte>) {
    cfg.chunkSize > 0 && s.status == Preparing && s.temp == Some([]) && s.bytesTransferred == 0 &&
    s.retryCount == 0 && s.totalBytes == |source| && s.totalChunks == ChunkCount(|source|, cfg.chunkSize)
  }

  lemma {:induction false} NothingCovered(n: nat, c: nat, k: nat)
    requires c > 0 && k <= ChunkCount(n, c)
    ensures Covered(n, c, {}, k) == 0
    decreases k
  {
    if k > 0 { NothingCovered(n, c, k - 1); }
  }

  /**
   * Chunks in any order, each written whole at most once, with no more failed writes in between
   * than there are retries: at every point the session's state is what the set of written chunks says.
   */
  lemma {:induction false} TriesProgress(s: Session, cfg: Config, source: seq<Byte>, attempts: seq<Attempt>)
    requires Prepared(s, cfg, source) && source != []
    requires forall a :: a in attempts ==> Sensible(a, source, cfg.chunkSize)
    requires OnceEach(attempts) && Failures(attempts) <= cfg.maxRetries
    ensures Progress(Run(s, cfg, source, attempts), cfg, source, Succeeded(attempts))
    ensures Run(s, cfg, source, attempts).retryCount == Failures(attempts)
    decreases |attempts|
  {
    if attempts == [] {
      NothingCovered(|source|, cfg.chunkSize, ChunkCount(|source|, cfg.chunkSize));
      CountMeaning(|source|, cfg.chunkSize, 0);
      assert Succeeded(attempts) == {};
    } else {
      var n := |attempts| - 1;
      var front, last := attempts[..n], attempts[n];
      assert attempts == front + [last];
      TriesProgress(s, cfg, source, front);
      forall i | i in Succeeded(front) ensures i != last.index {
        var a :| a in front && a.disk == AllWritten && a.index == i;
        var j :| 0 <= j < n && attempts[j] == a;
      }
      assert Succeeded(attempts) ==
        if last.disk == AllWritten then Succeeded(front) + {last.index} else Succeeded(front);
      StepProgress(Run(s, cfg, source, front), cfg, source, Succeeded(front), last);
    }
  }

  // ----- With visits of the manager in between -----

  /** A chunk arrives, or the manager looks at the session. */
  datatype Event = Arrives(attempt: Attempt) | Looks(fileOpens: bool)

  function Tries(events: seq<Event>): seq<Attempt> {
    if events == [] then []
    else
      var last := events[|events| - 1];
      Tries(events[..|events| - 1]) + (if last.Arrives? then [last.attempt] else [])
  }

  ghost predicate AllSensible(attempts: seq<Attempt>, source: seq<Byte>, c: nat)
    requires c > 0
  {
    forall a :: a in attempts ==> Sensible(a, source, c)
  }

  ghost function RunEvents(s: Session, cfg: Config, e: Expectation, source: seq<Byte>, events: seq<Event>): Session
    requires cfg.chunkSize > 0 && AllSensible(Tries(events), source, cfg.chunkSize)
    decreases |events|
  {
    if events == [] then s
    else
      var before := RunEvents(s, cfg, e, source, events[..|events| - 1]);
      match events[|events| - 1]
      case Arrives(a) =>
        assert a in Tries(events);
        Try(before, cfg, source, a).0
      case Looks(fileOpens) => Tick(before, cfg, e, fileOpens).0
  }

  ghost predicate AllIn(source: seq<Byte>, c: nat, written: set<nat>)
    requires c > 0
  {
    forall i :: 0 <= i < ChunkCount(|source|, c) ==> i in written
  }

  /** The source is in the temporary file, or has been moved into place. */
  predicate Kept(t: Session, source: seq<Byte>) {
    match t.status
    case Verifying => t.temp == Some(source)
    case Completed => t.temp == Some(source) || (t.temp == None && t.local == Some(source))
    case Failed => t.temp == Some(source) || t.local == Some(source)
    case _ => false
  }

  /** An upload of the source as events: each chunk written whole at most once, no more failed writes than retries. */
  ghost predicate Upload(s: Session, cfg: Config, source: seq<Byte>, events: seq<Event>) {
    Prepared(s, cfg, source) && source != [] && AllSensible(Tries(events), source, cfg.chunkSize) &&
    OnceEach(Tries(events)) && Failures(Tries(events)) <= cfg.maxRetries
  }

  lemma UploadPrefix(s: Session, cfg: Config, source: seq<Byte>, events: seq<Event>)
    requires Upload(s, cfg, source, events) && events != []
    ensures Upload(s, cfg, source, events[..|events| - 1])
  {
    var front, last := events[..|events| - 1], events[|events| - 1];
    if last.Arrives? {
      assert Tries(events) == Tries(front) + [last.attempt];
      assert Tries(events)[..|Tries(front)|] == Tries(front);
      assert forall i :: 0 <= i < |Tries(front)| ==> Tries(events)[i] == Tries(front)[i];
    } else {
      assert Tries(events) == Tries(front) + [] == Tries(front);
    }
  }

  lemma NothingLeftToWrite(attempts: seq<Attempt>, a: Attempt, source: seq<Byte>, c: nat)
    requires c > 0 && Sensible(a, source, c) && AllIn(source, c, Succeeded(attempts))
    ensures !OnceEach(attempts + [a])
  {
    assert a.index in Succeeded(attempts);
    var b :| b in attempts && b.disk == AllWritten && b.index == a.index;
    var i :| 0 <= i < |attempts| && attempts[i] == b;
    var all := attempts + [a];
    assert all[i] == b && all[|attempts|] == a;
  }

  lemma TickLeavesPreparing(t: Session, cfg: Config, e: Expectation, fileOpens: bool)
    requires cfg.chunkSize > 0 && t.status == Preparing
    ensures Tick(t, cfg, e, fileOpens).0 == t
  {}

  lemma TickKeeps(t: Session, cfg: Config, e: Expectation, fileOpens: bool, source: seq<Byte>)
    requires cfg.chunkSize > 0 && Kept(t, source)
    ensures Kept(Tick(t, cfg, e, fileOpens).0, source)
  {}

  /** Visits change nothing while a chunk is outstanding, and lose nothing afterwards. */
  lemma {:induction false} VisitsAreHarmless(s: Session, cfg: Config, e: Expectation, source: seq<Byte>,
    events: seq<Event>)
    requires Upload(s, cfg, source, events)
    ensures var t := RunEvents(s, cfg, e, source, events); var r := Run(s, cfg, source, Tries(events));
      if !AllIn(source, cfg.chunkSize, Succeeded(Tries(events))) then t == r
      else Kept(t, source) && (events[|events| - 1].Arrives? ==> t == r)
    decreases |events|
  {
    hide Progress, Kept, Tick, UploadChunk, AllIn, OnceEach;
    if events == [] {
      NotAllIn(source, cfg.chunkSize);
    } else {
      var front, last := events[..|events| - 1], events[|events| - 1];
      var tries := Tries(events);
      UploadPrefix(s, cfg, source, events);
      VisitsAreHarmless(s, cfg, e, source, front);
      TriesProgress(s, cfg, source, Tries(front));
      ProgressStatus(Run(s, cfg, source, Tries(front)), cfg, source, Succeeded(Tries(front)));
      match last
      case Looks(fileOpens) =>
        assert tries == Tries(front) + [] == Tries(front);
        if AllIn(source, cfg.chunkSize, Succeeded(tries)) {
          TickKeeps(RunEvents(s, cfg, e, source, front), cfg, e, fileOpens, source);
        } else {
          TickLeavesPreparing(RunEvents(s, cfg, e, source, front), cfg, e, fileOpens);
        }
      case Arrives(a) =>
        assert tries[..|tries| - 1] == Tries(front) && tries[|tries| - 1] == a && a in tries;
        if AllIn(source, cfg.chunkSize, Succeeded(Tries(front))) {
          NothingLeftToWrite(Tries(front), a, source, cfg.chunkSize);
        }
        TriesProgress(s, cfg, source, tries);
        ProgressStatus(Run(s, cfg, source, tries), cfg, source, Succeeded(tries));
    }
  }

  lemma NotAllIn(source: seq<Byte>, c: nat)
    requires c > 0 && source != []
    ensures !AllIn(source, c, Succeeded(Tries([])))
  {
    CountMeaning(|source|, c, 0);
    assert 0 !in Succeeded(Tries([]));
  }

  lemma ProgressStatus(t: Session, cfg: Config, source: seq<Byte>, written: set<nat>)
    requires Progress(t, cfg, source, written)
    ensures AllIn(source, cfg.chunkSize, written) ==> t.status == Verifying && Kept(t, source)
    ensures !AllIn(source, cfg.chunkSize, written) ==> t.status == Preparing
  {
    hide Covered, Agrees, ChunkCount;
    if AllIn(source, cfg.chunkSize, written) { ProgressMeaning(t, cfg, source, written); }
  }

  /** So, until all is in, and right when it is, the session is what the set of written chunks says. */
  lemma RunProgress(s: Session, cfg: Config, e: Expectation, source: seq<Byte>, events: seq<Event>)
    requires Upload(s, cfg, source, events)
    requires !AllIn(source, cfg.chunkSize, Succeeded(Tries(events))) || (events != [] && events[|events| - 1].Arrives?)
    ensures Progress(RunEvents(s, cfg, e, source, events), cfg, source, Succeeded(Tries(events)))
  {
    hide Progress, RunEvents, AllIn;
    VisitsAreHarmless(s, cfg, e, source, events);
    TriesProgress(s, cfg, source, Tries(events));
  }

  /**
   * Main result: chunks in any order with retries, and visits of the manager anywhere. The session
   * stops PREPARING exactly when the last outstanding chunk is in; it is then VERIFYING with a file
   * that is the source, byte for byte, the next visit accepts it, and no visit ever loses it.
   */
  lemma UploadCompletes(s: Session, cfg: Config, e: Expectation, source: seq<Byte>, events: seq<Event>)
    requires Upload(s, cfg, source, events)
    ensures var t := RunEvents(s, cfg, e, source, events);
      var all := AllIn(source, cfg.chunkSize, Succeeded(Tries(events)));
      && (t.status == Preparing <==> !all)
      && (all ==> Kept(t, source))
      && (all && events[|events| - 1].Arrives? ==> t.status == Verifying && t.temp == Some(source))
      && (t.status == Verifying && e.expected == e.hash(source) ==> Tick(t, cfg, e, true).0 == t.(status := Completed))
  {
    hide Progress, RunEvents, AllIn;
    VisitsAreHarmless(s, cfg, e, source, events);
    TriesProgress(s, cfg, source, Tries(events));
    ProgressStatus(Run(s, cfg, source, Tries(events)), cfg, source, Succeeded(Tries(events)));
  }

  /** Anything the program does with a session once it exists. */
  datatype Operation =
    | Accepting(index: nat, data: seq<Byte>, disk: Disk)
    | Processing(fileOpens: bool)
    | Preparation(tempOpens: bool)
    | Completion

  function Operate(t: Session, cfg: Config, e: Expectation, op: Operation): Session
    requires cfg.chunkSize > 0
  {
    match op
    case Accepting(index, data, disk) =>
      if disk.ShortWrite? && disk.bytes >= |data| then t else UploadChunk(t, cfg, index, data, disk).0
    case Processing(fileOpens) => Tick(t, cfg, e, fileOpens).0
    case Preparation(tempOpens) => PrepareUpload(t, cfg, tempOpens).0
    case Completion => CompleteUpload(t, cfg, e).0
  }

  function OperateAll(t: Session, cfg: Config, e: Expectation, ops: seq<Operation>): Session
    requires cfg.chunkSize > 0
    decreases |ops|
  {
    if ops == [] then t else Operate(OperateAll(t, cfg, e, ops[..|ops| - 1]), cfg, e, ops[|ops| - 1])
  }

  /** A prepared session never becomes TRANSFERRING, whatever is done with it. */
  lemma {:induction false} NeverTransferring(t: Session, cfg: Config, e: Expectation, ops: seq<Operation>)
    requires cfg.chunkSize > 0 && t.status !in {Pending, Transferring}
    ensures OperateAll(t, cfg, e, ops).status !in {Pending, Transferring}
    decreases |ops|
  {
    if ops != [] { NeverTransferring(t, cfg, e, ops[..|ops| - 1]); }
  }

  lemma ProgressMeaning(t: Session, cfg: Config, source: seq<Byte>, written: set<nat>)
    requires Progress(t, cfg, source, written)
    ensures t.status == Verifying <==> forall i :: 0 <= i < ChunkCount(|source|, cfg.chunkSize) ==> i in written
    ensures t.status == Verifying ==> t.temp == Some(source)
  {
    hide Covered, Agrees, ChunkCount;
    if t.status == Verifying {
      EveryPositionWritten(|source|, cfg.chunkSize, written);
      AgreesEverywhere(t.temp.value, source, cfg.chunkSize, written);
    }
  }

  lemma EveryPositionWritten(n: nat, c: nat, written: set<nat>)
    requires c > 0 && forall i :: 0 <= i < ChunkCount(n, c) ==> i in written
    ensures forall p :: 0 <= p < n ==> p / c in written
  {}

  lemma AgreesEverywhere(file: seq<Byte>, source: seq<Byte>, c: nat, written: set<nat>)
    requires c > 0 && Agrees(file, source, c, written)
    requires forall p :: 0 <= p < |source| ==> p / c in written
    ensures file == source
  {
    if source != [] {
      assert (|source| - 1) / c in written;
    }
  }

  // ----- What the byte count does not see -----

  /** Accepting a chunk keeps the byte count exact if and only if that chunk was not written before. */
  lemma CountExactUnlessRepeated(s: Session, cfg: Config, source: seq<Byte>, written: set<nat>, i: nat)
    requires Progress(s, cfg, source, written) && s.status == Preparing && i < s.totalChunks
    ensures var t := UploadChunk(s, cfg, i, ChunkAt(source, cfg.chunkSize, i), AllWritten).0;
      Progress(t, cfg, source, written + {i}) <==> i !in written
  {
    var a := Attempt(i, AllWritten);
    if i in written {
      assert written + {i} == written;
    } else {
      StepProgress(s, cfg, source, written, a);
    }
  }

  /** Attempt k got a chunk written whole while the session took chunks. */
  ghost predicate Accepted(s: Session, cfg: Config, source: seq<Byte>, attempts: seq<Attempt>, k: nat)
    requires cfg.chunkSize > 0 && AllSensible(attempts, source, cfg.chunkSize) && k < |attempts|
  {
    Run(s, cfg, source, attempts[..k]).status == Preparing && attempts[k].disk == AllWritten
  }

  /** The chunks accepted so far. */
  ghost function WrittenBy(s: Session, cfg: Config, source: seq<Byte>, attempts: seq<Attempt>): set<nat>
    requires cfg.chunkSize > 0 && AllSensible(attempts, source, cfg.chunkSize)
    decreases |attempts|
  {
    if attempts == [] then {}
    else
      var n := |attempts| - 1;
      WrittenBy(s, cfg, source, attempts[..n]) +
        (if Accepted(s, cfg, source, attempts, n) then {attempts[n].index} else {})
  }

  ghost predicate Repeats(s: Session, cfg: Config, source: seq<Byte>, attempts: seq<Attempt>, k: nat)
    requires cfg.chunkSize > 0 && AllSensible(attempts, source, cfg.chunkSize) && k < |attempts|
  {
    Accepted(s, cfg, source, attempts, k) && attempts[k].index in WrittenBy(s, cfg, source, attempts[..k])
  }

  predicate AllBelow(written: set<nat>, n: nat) {
    forall i :: i in written ==> i < n
  }

  /** Bytes counted beyond those of the chunks accepted. */
  ghost function Excess(s: Session, cfg: Config, source: seq<Byte>, attempts: seq<Attempt>): int
    requires cfg.chunkSize > 0 && AllSensible(attempts, source, cfg.chunkSize)
    requires AllBelow(WrittenBy(s, cfg, source, attempts), ChunkCount(|source|, cfg.chunkSize))
  {
    Run(s, cfg, source, attempts).bytesTransferred
      - Covered(|source|, cfg.chunkSize, WrittenBy(s, cfg, source, attempts), ChunkCount(|source|, cfg.chunkSize))
  }

  /** The sizes never change, and only chunks of the source are written. */
  lemma {:induction false} SizesStay(s: Session, cfg: Config, source: seq<Byte>, attempts: seq<Attempt>)
    requires Prepared(s, cfg, source) && AllSensible(attempts, source, cfg.chunkSize)
    ensures Run(s, cfg, source, attempts).totalChunks == s.totalChunks
    ensures AllBelow(WrittenBy(s, cfg, source, attempts), s.totalChunks)
    ensures Run(s, cfg, source, attempts).status != Transferring
    decreases |attempts|
  {
    hide ChunkAt, ChunkCount, Written;
    if attempts != [] {
      SizesStay(s, cfg, source, attempts[..|attempts| - 1]);
      assert attempts[|attempts| - 1] in attempts;
    }
  }

  /** An accepted repeat adds its bytes to the excess; nothing else changes it. */
  lemma ExcessStep(s: Session, cfg: Config, source: seq<Byte>, attempts: seq<Attempt>)
    requires Prepared(s, cfg, source) && AllSensible(attempts, source, cfg.chunkSize) && attempts != []
    ensures AllBelow(WrittenBy(s, cfg, source, attempts), ChunkCount(|source|, cfg.chunkSize))
    ensures AllBelow(WrittenBy(s, cfg, source, attempts[..|attempts| - 1]), ChunkCount(|source|, cfg.chunkSize))
    ensures Excess(s, cfg, source, attempts) == Excess(s, cfg, source, attempts[..|attempts| - 1]) +
      (if Repeats(s, cfg, source, attempts, |attempts| - 1)
       then |ChunkAt(source, cfg.chunkSize, attempts[|attempts| - 1].index)| else 0)
  {
    hide Covered, ChunkCount, Written, Run;
    var n, c, front, a := |attempts| - 1, cfg.chunkSize, attempts[..|attempts| - 1], attempts[|attempts| - 1];
    var before, w := Run(s, cfg, source, front), WrittenBy(s, cfg, source, front);
    SizesStay(s, cfg, source, attempts);
    SizesStay(s, cfg, source, front);
    assert a in attempts;
    RunLast(s, cfg, source, attempts);
    if Accepted(s, cfg, source, attempts, n) {
      if a.index in w {
        assert w + {a.index} == w;
      } else {
        CoveredAdd(|source|, c, w, a.index, ChunkCount(|source|, c));
      }
    } else {
      assert w + {} == w;
    }
  }

  lemma RunLast(s: Session, cfg: Config, source: seq<Byte>, attempts: seq<Attempt>)
    requires cfg.chunkSize > 0 && AllSensible(attempts, source, cfg.chunkSize) && attempts != []
    ensures attempts[|attempts| - 1] in attempts
    ensures Run(s, cfg, source, attempts) ==
      Try(Run(s, cfg, source, attempts[..|attempts| - 1]), cfg, source, attempts[|attempts| - 1]).0
  {}

  ghost predicate ExactAt(s: Session, cfg: Config, source: seq<Byte>, attempts: seq<Attempt>, k: nat)
    requires Prepared(s, cfg, source) && AllSensible(attempts, source, cfg.chunkSize) && k <= |attempts|
  {
    SizesStay(s, cfg, source, attempts[..k]);
    Excess(s, cfg, source, attempts[..k]) == 0
  }

  lemma {:induction false} ExcessUntil(s: Session, cfg: Config, source: seq<Byte>, attempts: seq<Attempt>, k: nat)
    requires Prepared(s, cfg, source) && AllSensible(attempts, source, cfg.chunkSize) && k <= |attempts|
    ensures AllBelow(WrittenBy(s, cfg, source, attempts[..k]), ChunkCount(|source|, cfg.chunkSize))
    ensures Excess(s, cfg, source, attempts[..k]) >= 0
    ensures Excess(s, cfg, source, attempts[..k]) == 0 <==>
      forall i :: 0 <= i < k ==> !Repeats(s, cfg, source, attempts, i)
    decreases k
  {
    hide Excess, Covered, ChunkCount, Run, WrittenBy;
    if k == 0 {
      NoExcess(s, cfg, source);
      assert attempts[..0] == [];
    } else {
      var upTo := attempts[..k];
      ExcessUntil(s, cfg, source, attempts, k - 1);
      ExcessStep(s, cfg, source, upTo);
      assert upTo[..k - 1] == attempts[..k - 1];
      assert Repeats(s, cfg, source, upTo, k - 1) == Repeats(s, cfg, source, attempts, k - 1);
    }
  }

  lemma NoExcess(s: Session, cfg: Config, source: seq<Byte>)
    requires Prepared(s, cfg, source)
    ensures WrittenBy(s, cfg, source, []) == {} && Excess(s, cfg, source, []) == 0
  {
    NothingCovered(|source|, cfg.chunkSize, ChunkCount(|source|, cfg.chunkSize));
  }

  /**
   * Main result: over any attempts at all, the byte count is that of the chunks accepted, at all
   * times, if and only if no chunk is accepted again.
   */
  lemma CountExactThroughout(s: Session, cfg: Config, source: seq<Byte>, attempts: seq<Attempt>)
    requires Prepared(s, cfg, source) && AllSensible(attempts, source, cfg.chunkSize)
    ensures (forall k :: 0 <= k <= |attempts| ==> ExactAt(s, cfg, source, attempts, k)) <==>
      (forall k :: 0 <= k < |attempts| ==> !Repeats(s, cfg, source, attempts, k))
  {
    hide Repeats, Excess;
    forall k | 0 <= k <= |attempts|
      ensures ExactAt(s, cfg, source, attempts, k) <==> forall i :: 0 <= i < k ==> !Repeats(s, cfg, source, attempts, i)
    {
      ExcessUntil(s, cfg, source, attempts, k);
    }
    if forall k :: 0 <= k <= |attempts| ==> ExactAt(s, cfg, source, attempts, k) {
      assert ExactAt(s, cfg, source, attempts, |attempts|);
    }
  }

  // ----- Failed writes -----

  /** The chunks whose writes failed while the session took chunks, in order. */
  ghost function Missed(s: Session, cfg: Config, source: seq<Byte>, attempts: seq<Attempt>): seq<nat>
    requires cfg.chunkSize > 0 && AllSensible(attempts, source, cfg.chunkSize)
    decreases |attempts|
  {
    if attempts == [] then []
    else
      var front, last := attempts[..|attempts| - 1], attempts[|attempts| - 1];
      Missed(s, cfg, source, front) +
        (if Run(s, cfg, source, front).status == Preparing && last.disk != AllWritten then [last.index] else [])
  }

  /** One more than the chunk that went in last, or what it was. */
  ghost function LastIn(s: Session, cfg: Config, source: seq<Byte>, attempts: seq<Attempt>): nat
    requires cfg.chunkSize > 0 && AllSensible(attempts, source, cfg.chunkSize)
    decreases |attempts|
  {
    if attempts == [] then s.currentChunk
    else if Accepted(s, cfg, source, attempts, |attempts| - 1) then attempts[|attempts| - 1].index + 1
    else LastIn(s, cfg, source, attempts[..|attempts| - 1])
  }

  /**
   * Main result: over any attempts at all, a session fails exactly with the failed write that comes
   * after all retries are used up; it remembers the first thirty chunks that failed, and the last that
   * went in.
   */
  lemma {:induction false} FailsExactly(s: Session, cfg: Config, source: seq<Byte>, attempts: seq<Attempt>)
    requires Prepared(s, cfg, source) && s.errorChunks == [] && AllSensible(attempts, source, cfg.chunkSize)
    ensures var t, missed := Run(s, cfg, source, attempts), Missed(s, cfg, source, attempts);
      && (t.status == Failed <==> |missed| > cfg.maxRetries) && |missed| <= cfg.maxRetries + 1
      && t.retryCount == (if |missed| <= cfg.maxRetries then |missed| else cfg.maxRetries)
      && t.errorChunks == (if |missed| <= 30 then missed else missed[..30])
      && t.currentChunk == LastIn(s, cfg, source, attempts)
      && t.status in {Preparing, Verifying, Failed}
    decreases |attempts|
  {
    hide ChunkAt, ChunkCount, Written, Run;
    if attempts == [] {
      NothingTried(s, cfg, source);
    } else {
      var front, last := attempts[..|attempts| - 1], attempts[|attempts| - 1];
      FailsExactly(s, cfg, source, front);
      RunLast(s, cfg, source, attempts);
      SizesStay(s, cfg, source, front);
      IndexInRange(s, cfg, source, last);
    }
  }

  lemma NothingTried(s: Session, cfg: Config, source: seq<Byte>)
    requires Prepared(s, cfg, source)
    ensures Run(s, cfg, source, []) == s && s.status == Preparing && s.retryCount == 0
  {}

  lemma IndexInRange(s: Session, cfg: Config, source: seq<Byte>, a: Attempt)
    requires Prepared(s, cfg, source) && Sensible(a, source, cfg.chunkSize)
    ensures a.index < s.totalChunks && ChunkAt(source, cfg.chunkSize, a.index) != []
  {}

  /** A chunk written twice is counted twice: verification is asked for while a chunk is missing. */
  lemma DuplicateCountsTwice(s: Session, cfg: Config)
    requires Prepared(s, cfg, [7, 8]) && cfg.chunkSize == 1
    ensures var once := UploadChunk(s, cfg, 0, [7], AllWritten).0;
      var twice := UploadChunk(once, cfg, 0, [7], AllWritten).0;
      once.status == Preparing && twice.status == Verifying && twice.temp == Some([7])
  {
    assert WriteAt([], 0, [7]) == [7] && WriteAt([7], 0, [7]) == [7];
  }

  // ----- What a tick makes of a TRANSFERRING session -----

  /**
   * While PREPARING a tick changes nothing. A TRANSFERRING session takes the file's length for its
   * byte count, which a gap makes too large: writing 2, ticking, then writing 0 of three one-byte
   * chunks asks for verification of a file without chunk 1.
   */
  lemma TickMiscountsGaps(s: Session, cfg: Config, e: Expectation)
    requires Prepared(s, cfg, [7, 8, 9]) && cfg.chunkSize == 1
    ensures Tick(s, cfg, e, true) == (s, Success)
    ensures var t0 := s.(status := Transferring);
      var t1 := UploadChunk(t0, cfg, 2, [9], AllWritten).0;
      var t2 := Tick(t1, cfg, e, true).0;
      var t3 := UploadChunk(t2, cfg, 0, [7], AllWritten).0;
      t3.status == Verifying && t3.temp == Some([7, 0, 9])
  {
    assert WriteAt([], 2, [9]) == [0, 0, 9];
    assert WriteAt([0, 0, 9], 0, [7]) == [7, 0, 9];
  }

  lemma {:induction false} NothingBeyond(n: nat, c: nat, written: set<nat>, m: nat, k: nat)
    requires c > 0 && m <= k <= ChunkCount(n, c) && forall i :: i in written ==> i < m
    ensures Covered(n, c, written, k) == Covered(n, c, written, m)
    decreases k
  {
    if m < k { NothingBeyond(n, c, written, m, k - 1); }
  }

  /** One past the greatest index written. */
  lemma {:induction false} Frontier(written: set<nat>, k: nat) returns (m: nat)
    requires forall i :: i in written ==> i < k
    ensures m <= k && (forall i :: i in written ==> i < m) && (m > 0 ==> m - 1 in written)
    decreases k
  {
    if k == 0 || k - 1 in written {
      m := k;
    } else {
      m := Frontier(written, k - 1);
    }
  }

  /** The file ends where a chunk ends, and the chunks written are exactly those before that end. */
  ghost predicate CleanEnd(file: seq<Byte>, n: nat, c: nat, written: set<nat>, m: nat) {
    c > 0 && m <= ChunkCount(n, c) && |file| == Through(n, c, m) && forall i: nat :: i in written <==> i < m
  }

  /** A file that agrees with the source reaches at least to the end of its last written chunk. */
  lemma ReachesFrontier(file: seq<Byte>, source: seq<Byte>, c: nat, written: set<nat>, m: nat)
    requires c > 0 && m <= ChunkCount(|source|, c) && Agrees(file, source, c, written)
    requires m > 0 ==> m - 1 in written
    ensures |file| >= Through(|source|, c, m)
  {
    if m > 0 {
      CountMeaning(|source|, c, m - 1);
      assert m * c == (m - 1) * c + c;
      var last := Through(|source|, c, m) - 1;
      QuotientUnique(last, c, m - 1);
      assert last / c in written;
    }
  }

  /**
   * Whatever has been written, a tick leaves the exact byte count if and only if the file ends where
   * a chunk ends and the chunks written are exactly those before that end: no gap, and no part of a
   * chunk that a short write left behind.
   */
  lemma TickCountsExactly(s: Session, cfg: Config, e: Expectation, source: seq<Byte>, written: set<nat>)
    requires cfg.chunkSize > 0 && s.status == Transferring && s.temp.Some?
    requires Agrees(s.temp.value, source, cfg.chunkSize, written)
    requires forall i :: i in written ==> i < ChunkCount(|source|, cfg.chunkSize)
    ensures var exact := Covered(|source|, cfg.chunkSize, written, ChunkCount(|source|, cfg.chunkSize));
      Tick(s, cfg, e, true).0.bytesTransferred == exact <==>
      exists m: nat :: CleanEnd(s.temp.value, |source|, cfg.chunkSize, written, m)
  {
    hide Agrees, Covered, ChunkCount, Through;
    var n, c, file := |source|, cfg.chunkSize, s.temp.value;
    var k := ChunkCount(n, c);
    if m: nat :| CleanEnd(file, n, c, written, m) {
      NothingBeyond(n, c, written, m, k);
      CoveredBound(n, c, written, m);
    }
    var m := Frontier(written, k);
    NothingBeyond(n, c, written, m, k);
    CoveredBound(n, c, written, m);
    ReachesFrontier(file, source, c, written, m);
    if |file| == Covered(n, c, written, k) {
      assert CleanEnd(file, n, c, written, m);
    }
  }

  /**
   * A short write of chunk 0 of seven bytes in chunks of five, a tick, and the retry: the four bytes
   * are counted again, and verification is asked for while chunk 1 is missing, without any gap.
   */
  lemma ShortWriteThenTick(s: Session, cfg: Config, e: Expectation)
    requires Prepared(s, cfg, [1, 2, 3, 4, 5, 6, 7]) && cfg.chunkSize == 5 && cfg.maxRetries > 0
    ensures var t0 := s.(status := Transferring);
      var t1 := UploadChunk(t0, cfg, 0, [1, 2, 3, 4, 5], ShortWrite(4)).0;
      var t2 := Tick(t1, cfg, e, true).0;
      var t3 := UploadChunk(t2, cfg, 0, [1, 2, 3, 4, 5], AllWritten).0;
      t2.bytesTransferred == 4 && t3.status == Verifying && t3.temp == Some([1, 2, 3, 4, 5])
  {
    var chunk := [1, 2, 3, 4, 5];
    assert chunk[..4] == [1, 2, 3, 4];
    assert WriteAt([], 0, [1, 2, 3, 4]) == [1, 2, 3, 4];
    assert WriteAt([1, 2, 3, 4], 0, chunk) == chunk;
  }

  // ----- Uploads in order, with failed writes and ticks -----

  /** In order, the chunk to write is the first that is not in; the manager looks in between. */
  datatype Move = Write(disk: Disk) | Visit

  /** Chunks in, bytes in the file, and bytes counted that belong to no chunk that is in. */
  datatype Position = Position(done: nat, reach: nat, surplus: nat)

  function Advance(n: nat, c: nat, p: Position, move: Move): Position {
    match move
    case Write(AllWritten) => Position(p.done + 1, Through(n, c, p.done + 1), p.surplus)
    case Write(ShortWrite(bytes)) => p.(reach := Furthest(p.reach, p.done * c + bytes))
    case Write(_) => p
    case Visit => p.(surplus := if p.reach >= Through(n, c, p.done) then p.reach - Through(n, c, p.done) else 0)
  }

  /** The session is where the position says, and still takes chunks. */
  ghost predicate Stands(t: Session, cfg: Config, source: seq<Byte>, p: Position) {
    cfg.chunkSize > 0 &&
    var c := cfg.chunkSize; var n := |source|;
    p.done <= ChunkCount(n, c) && Through(n, c, p.done) <= p.reach <= n &&
    (p.done < ChunkCount(n, c) ==> p.reach < Through(n, c, p.done + 1)) &&
    t.temp == Some(source[..p.reach]) && t.bytesTransferred == Through(n, c, p.done) + p.surplus &&
    t.totalBytes == n && t.totalChunks == ChunkCount(n, c) &&
    (p.done == ChunkCount(n, c) ==> p.reach == n) &&
    t.status in {Transferring, Verifying}
  }

  ghost predicate Possible(move: Move, source: seq<Byte>, c: nat, done: nat)
    requires c > 0 && done < ChunkCount(|source|, c)
  {
    move.Write? && move.disk.ShortWrite? ==> move.disk.bytes < |ChunkAt(source, c, done)|
  }

  function Make(t: Session, cfg: Config, e: Expectation, source: seq<Byte>, done: nat, move: Move): Session
    requires cfg.chunkSize > 0 && done < ChunkCount(|source|, cfg.chunkSize) &&
      Possible(move, source, cfg.chunkSize, done)
  {
    match move
    case Write(disk) => UploadChunk(t, cfg, done, ChunkAt(source, cfg.chunkSize, done), disk).0
    case Visit => Tick(t, cfg, e, true).0
  }

  predicate Fails(move: Move) {
    move.Write? && move.disk != AllWritten
  }

  /** Writing the whole of the next chunk, or the start of it, over what is there. */
  lemma NextChunkWritten(source: seq<Byte>, c: nat, done: nat, reach: nat, bytes: nat)
    requires c > 0 && done < ChunkCount(|source|, c)
    requires Through(|source|, c, done) <= reach <= Through(|source|, c, done + 1)
    requires bytes <= |ChunkAt(source, c, done)|
    ensures done * c + bytes <= Through(|source|, c, done + 1)
    ensures WriteAt(source[..reach], done * c, ChunkAt(source, c, done)[..bytes]) ==
      source[..Furthest(reach, done * c + bytes)]
    ensures Through(|source|, c, done) == done * c &&
      done * c + |ChunkAt(source, c, done)| == Through(|source|, c, done + 1)
  {
    CountMeaning(|source|, c, done);
    assert (done + 1) * c == done * c + c;
    var chunk := ChunkAt(source, c, done);
    var w, t := WriteAt(source[..reach], done * c, chunk[..bytes]), source[..Furthest(reach, done * c + bytes)];
    if bytes > 0 {
      assert |w| == |t|;
      forall p | 0 <= p < |t| ensures w[p] == t[p] {}
    }
  }

  lemma MoveStands(t: Session, cfg: Config, e: Expectation, source: seq<Byte>, p: Position, move: Move)
    requires Stands(t, cfg, source, p) && t.status == Transferring && p.done < ChunkCount(|source|, cfg.chunkSize)
    requires Possible(move, source, cfg.chunkSize, p.done) && (Fails(move) ==> t.retryCount < cfg.maxRetries)
    ensures var u := Make(t, cfg, e, source, p.done, move); var q := Advance(|source|, cfg.chunkSize, p, move);
      Stands(u, cfg, source, q) && u.retryCount == t.retryCount + (if Fails(move) then 1 else 0) &&
      (u.status == Verifying <==> move == Write(AllWritten) && u.bytesTransferred >= |source|)
  {
    hide ChunkCount, Through, WriteAt;
    var c, n := cfg.chunkSize, |source|;
    var chunk := ChunkAt(source, c, p.done);
    BoundsOfNext(n, c, p.done);
    match move
    case Visit =>
    case Write(AllWritten) =>
      NextChunkWritten(source, c, p.done, p.reach, |chunk|);
      assert chunk[..|chunk|] == chunk;
    case Write(ShortWrite(bytes)) =>
      NextChunkWritten(source, c, p.done, p.reach, bytes);
    case Write(_) =>
  }

  lemma BoundsOfNext(n: nat, c: nat, done: nat)
    requires c > 0 && done < ChunkCount(n, c)
    ensures Through(n, c, done) < Through(n, c, done + 1)
    ensures done + 1 < ChunkCount(n, c) ==> Through(n, c, done + 1) < Through(n, c, done + 2)
    ensures done + 1 == ChunkCount(n, c) ==> Through(n, c, done + 1) == n
  {
    CountMeaning(n, c, done);
    CountMeaning(n, c, done + 1);
    assert (done + 1) * c == done * c + c && (done + 2) * c == (done + 1) * c + c;
  }

  datatype Outcome = Outcome(session: Session, position: Position)

  /** The moves one after another, as long as the session takes chunks. */
  ghost function RunInOrder(t: Session, cfg: Config, e: Expectation, source: seq<Byte>, moves: seq<Move>): Outcome
    requires cfg.chunkSize > 0
    decreases |moves|
  {
    if moves == [] then Outcome(t, Position(0, 0, 0))
    else
      var o := RunInOrder(t, cfg, e, source, moves[..|moves| - 1]);
      var move, done := moves[|moves| - 1], o.position.done;
      if o.session.status != Transferring || done >= ChunkCount(|source|, cfg.chunkSize) ||
         !Possible(move, source, cfg.chunkSize, done) then o
      else Outcome(Make(o.session, cfg, e, source, done, move), Advance(|source|, cfg.chunkSize, o.position, move))
  }

  function FailedWrites(moves: seq<Move>): nat {
    if moves == [] then 0 else FailedWrites(moves[..|moves| - 1]) + (if Fails(moves[|moves| - 1]) then 1 else 0)
  }

  ghost predicate Started(t: Session, cfg: Config, source: seq<Byte>) {
    cfg.chunkSize > 0 && source != [] && t.status == Transferring && t.temp == Some([]) && t.bytesTransferred == 0 &&
    t.retryCount == 0 && t.totalBytes == |source| && t.totalChunks == ChunkCount(|source|, cfg.chunkSize)
  }

  /**
   * Uploads in order with ticks and failed writes anywhere: the file is always a beginning of the
   * source, the count is what is in plus the surplus, and verification is asked for as soon as that
   * reaches the size of the source.
   */
  lemma {:induction false} InOrderSurvivesTicks(t: Session, cfg: Config, e: Expectation, source: seq<Byte>,
    moves: seq<Move>)
    requires Started(t, cfg, source) && FailedWrites(moves) <= cfg.maxRetries
    ensures var o := RunInOrder(t, cfg, e, source, moves);
      Stands(o.session, cfg, source, o.position) && o.session.retryCount <= FailedWrites(moves) &&
      (o.session.status == Verifying ==> o.session.bytesTransferred >= |source|) &&
      (o.session.status == Transferring ==> o.position.done < ChunkCount(|source|, cfg.chunkSize))
    decreases |moves|
  {
    hide Make, Advance, ChunkCount, Through;
    if moves == [] {
      NothingIn(source, cfg.chunkSize);
    } else {
      InOrderSurvivesTicks(t, cfg, e, source, moves[..|moves| - 1]);
      var o := RunInOrder(t, cfg, e, source, moves[..|moves| - 1]);
      var move := moves[|moves| - 1];
      if o.session.status == Transferring && Possible(move, source, cfg.chunkSize, o.position.done) {
        MoveStands(o.session, cfg, e, source, o.position, move);
        LastChunkVerifies(o.session, cfg, e, source, o.position, move);
      }
    }
  }

  lemma NothingIn(source: seq<Byte>, c: nat)
    requires c > 0 && source != []
    ensures Through(|source|, c, 0) == 0 < Through(|source|, c, 1) && 0 < ChunkCount(|source|, c)
    ensures source[..0] == []
  {
    CountMeaning(|source|, c, 0);
  }

  lemma LastChunkVerifies(t: Session, cfg: Config, e: Expectation, source: seq<Byte>, p: Position, move: Move)
    requires Stands(t, cfg, source, p) && t.status == Transferring && p.done < ChunkCount(|source|, cfg.chunkSize)
    requires Possible(move, source, cfg.chunkSize, p.done) && (Fails(move) ==> t.retryCount < cfg.maxRetries)
    ensures Make(t, cfg, e, source, p.done, move).status == Transferring ==>
      Advance(|source|, cfg.chunkSize, p, move).done < ChunkCount(|source|, cfg.chunkSize)
  {
    MoveStands(t, cfg, e, source, p, move);
    BoundsOfNext(|source|, cfg.chunkSize, p.done);
  }

  /** A tick counted a part of a chunk: the file reached beyond the last chunk that was in. */
  ghost predicate CountsPart(n: nat, c: nat, p: Position, move: Move) {
    move == Visit && p.reach > Through(n, c, p.done)
  }

  /**
   * So verification is asked for with the whole source in the file exactly when the last chunk is in,
   * and it is asked for too early exactly when a surplus makes up for what is missing.
   */
  lemma InOrderVerdict(t: Session, cfg: Config, e: Expectation, source: seq<Byte>, moves: seq<Move>)
    requires Started(t, cfg, source) && FailedWrites(moves) <= cfg.maxRetries
    requires RunInOrder(t, cfg, e, source, moves).session.status == Verifying
    ensures var o := RunInOrder(t, cfg, e, source, moves);
      && (o.session.temp == Some(source) <==> o.position.done == ChunkCount(|source|, cfg.chunkSize))
      && (o.position.surplus == 0 ==> o.session.temp == Some(source))
  {
    hide ChunkCount;
    InOrderSurvivesTicks(t, cfg, e, source, moves);
    var o := RunInOrder(t, cfg, e, source, moves);
    assert source[..|source|] == source;
    if o.position.done < ChunkCount(|source|, cfg.chunkSize) {
      BoundsOfNext(|source|, cfg.chunkSize, o.position.done);
      assert |source[..o.position.reach]| < |source|;
    }
  }

  /** Move k of the run was a tick that counted a part of a chunk. */
  ghost predicate CountedPartAt(t: Session, cfg: Config, e: Expectation, source: seq<Byte>, moves: seq<Move>, k: nat)
    requires cfg.chunkSize > 0 && k < |moves|
  {
    var o := RunInOrder(t, cfg, e, source, moves[..k]);
    o.session.status == Transferring && CountsPart(|source|, cfg.chunkSize, o.position, moves[k])
  }

  ghost predicate CountExactAt(t: Session, cfg: Config, e: Expectation, source: seq<Byte>, moves: seq<Move>, k: nat)
    requires cfg.chunkSize > 0 && k <= |moves|
  {
    var o := RunInOrder(t, cfg, e, source, moves[..k]);
    o.session.bytesTransferred == Through(|source|, cfg.chunkSize, o.position.done)
  }

  lemma SurplusStep(t: Session, cfg: Config, e: Expectation, source: seq<Byte>, moves: seq<Move>, k: nat)
    requires Started(t, cfg, source) && k < |moves| && FailedWrites(moves[..k + 1]) <= cfg.maxRetries
    ensures var p := RunInOrder(t, cfg, e, source, moves[..k]).position;
      var q := RunInOrder(t, cfg, e, source, moves[..k + 1]).position;
      (CountedPartAt(t, cfg, e, source, moves, k) ==> q.surplus > 0) &&
      (!CountedPartAt(t, cfg, e, source, moves, k) && p.surplus == 0 ==> q.surplus == 0)
  {
    hide ChunkCount, Through, Make;
    assert moves[..k + 1][..k] == moves[..k];
    InOrderSurvivesTicks(t, cfg, e, source, moves[..k]);
  }

  lemma {:induction false} FailuresGrow(moves: seq<Move>, k: nat)
    requires k <= |moves|
    ensures FailedWrites(moves[..k]) <= FailedWrites(moves)
    decreases |moves|
  {
    if k < |moves| {
      FailuresGrow(moves[..|moves| - 1], k);
      assert moves[..|moves| - 1][..k] == moves[..k];
    } else {
      assert moves[..k] == moves;
    }
  }

  lemma {:induction false} NoSurplus(t: Session, cfg: Config, e: Expectation, source: seq<Byte>, moves: seq<Move>,
    k: nat)
    requires Started(t, cfg, source) && FailedWrites(moves) <= cfg.maxRetries && k <= |moves|
    requires forall i: nat :: i < k ==> !CountedPartAt(t, cfg, e, source, moves, i)
    ensures RunInOrder(t, cfg, e, source, moves[..k]).position.surplus == 0
    decreases k
  {
    hide CountedPartAt;
    if k > 0 {
      NoSurplus(t, cfg, e, source, moves, k - 1);
      FailuresGrow(moves, k);
      SurplusStep(t, cfg, e, source, moves, k - 1);
    } else {
      assert moves[..0] == [];
    }
  }

  /**
   * Main result: in order, the byte count is exact after every move if and only if no tick counts a
   * part of a chunk.
   */
  lemma ExactThroughout(t: Session, cfg: Config, e: Expectation, source: seq<Byte>, moves: seq<Move>)
    requires Started(t, cfg, source) && FailedWrites(moves) <= cfg.maxRetries
    ensures (forall k: nat :: k <= |moves| ==> CountExactAt(t, cfg, e, source, moves, k)) <==>
      (forall k: nat :: k < |moves| ==> !CountedPartAt(t, cfg, e, source, moves, k))
  {
    hide CountedPartAt, RunInOrder;
    forall k: nat | k <= |moves|
      ensures CountExactAt(t, cfg, e, source, moves, k) <==>
        RunInOrder(t, cfg, e, source, moves[..k]).position.surplus == 0
    {
      FailuresGrow(moves, k);
      InOrderSurvivesTicks(t, cfg, e, source, moves[..k]);
    }
    if forall k: nat :: k < |moves| ==> !CountedPartAt(t, cfg, e, source, moves, k) {
      forall k: nat | k <= |moves| ensures CountExactAt(t, cfg, e, source, moves, k) {
        NoSurplus(t, cfg, e, source, moves, k);
      }
    } else {
      var k: nat :| k < |moves| && CountedPartAt(t, cfg, e, source, moves, k);
      FailuresGrow(moves, k + 1);
      SurplusStep(t, cfg, e, source, moves, k);
      assert !CountExactAt(t, cfg, e, source, moves, k + 1);
    }
  }

  /** And then verification is asked for exactly when the last chunk is in, with the source in the file. */
  lemma OrderlyUpload(t: Session, cfg: Config, e: Expectation, source: seq<Byte>, moves: seq<Move>)
    requires Started(t, cfg, source) && FailedWrites(moves) <= cfg.maxRetries
    requires forall k: nat :: k < |moves| ==> !CountedPartAt(t, cfg, e, source, moves, k)
    ensures var o := RunInOrder(t, cfg, e, source, moves);
      && (o.session.status == Verifying <==> o.position.done == ChunkCount(|source|, cfg.chunkSize))
      && (o.session.status == Verifying ==> o.session.temp == Some(source))
  {
    hide CountedPartAt, RunInOrder, ChunkCount, Through;
    NoSurplus(t, cfg, e, source, moves, |moves|);
    assert moves[..|moves|] == moves;
    InOrderSurvivesTicks(t, cfg, e, source, moves);
    if RunInOrder(t, cfg, e, source, moves).session.status == Verifying {
      InOrderVerdict(t, cfg, e, source, moves);
    }
  }

  /**
   * COMPLETED is not final. Its tick moves the file into place; the next tick finds no temporary
   * file to move and marks the session failed, with the file still in place.
   */
  lemma CompletedDecays(s: Session, cfg: Config, e: Expectation)
    requires cfg.chunkSize > 0 && s.status == Completed && s.temp.Some?
    ensures var t := Tick(s, cfg, e, true).0; var u := Tick(t, cfg, e, true).0;
      && t == s.(local := s.temp, temp := None)
      && u == t.(status := Failed)
  {}

  /** With verification on, a session is completed only with a file of the expected checksum. */
  lemma CompletionIsVerified(s: Session, cfg: Config, e: Expectation, fileOpens: bool)
    requires cfg.chunkSize > 0 && cfg.verifyChecksum && e.expected != "" && s.status != Completed
    ensures Tick(s, cfg, e, fileOpens).0.status == Completed ==>
      s.temp.Some? && e.hash(s.temp.value) == e.expected
    ensures CompleteUpload(s, cfg, e).0.status == Completed ==>
      s.temp.Some? && e.hash(s.temp.value) == e.expected
  {}

  // ----- The session object -----

  class UploadSession {
    const cfg: Config
    const expectation: Expectation
    var status: Status
    var totalBytes: nat
    var totalChunks: nat
    var bytesTransferred: nat
    var currentChunk: nat
    var retryCount: nat
    var errorChunks: seq<nat>
    var temp: Option<seq<Byte>>
    var local: Option<seq<Byte>>

    function State(): Session
      reads this
    {
      Session(status, totalBytes, totalChunks, bytesTransferred, currentChunk, retryCount, errorChunks, temp, local)
    }

    /** A session as ft_create_session leaves it, then prepared. */
    constructor (cfg: Config, expectation: Expectation, source: seq<Byte>)
      requires cfg.chunkSize > 0
      ensures this.cfg == cfg && this.expectation == expectation
      ensures Prepared(State(), cfg, source) && local == Some(source)
    {
      this.cfg, this.expectation := cfg, expectation;
      status, totalBytes, totalChunks, bytesTransferred, currentChunk := Pending, 0, 0, 0, 0;
      retryCount, errorChunks, temp, local := 0, [], None, Some(source);
      new;
      var _ := Prepare(true);
    }

    method Prepare(tempOpens: bool) returns (code: Code)
      requires cfg.chunkSize > 0
      modifies this
      ensures (State(), code) == PrepareUpload(old(State()), cfg, tempOpens)
    {
      if !tempOpens {
        return IoError;
      }
      temp := Some([]);
      if local.None? {
        return FileNotFound;
      }
      totalBytes := |local.value|;
      totalChunks := (totalBytes + cfg.chunkSize - 1) / cfg.chunkSize;
      status := Preparing;
      return Success;
    }

    method WriteChunk(index: nat, data: seq<Byte>, disk: Disk) returns (code: Code)
      requires data != [] && (disk.ShortWrite? ==> disk.bytes < |data|)
      modifies this`temp
      ensures temp == Written(old(temp), index * cfg.chunkSize, data, disk)
      ensures code == if disk == AllWritten then Success else IoError
    {
      if disk == CannotOpen {
        return IoError;
      }
      if temp.None? {
        temp := Some([]);
      }
      var offset := index * cfg.chunkSize;
      if disk == CannotSeek {
        return IoError;
      }
      var accepted := if disk.ShortWrite? then disk.bytes else |data|;
      assert data[..|data|] == data;
      temp := Some(WriteAt(temp.value, offset, data[..accepted]));
      return if accepted != |data| then IoError else Success;
    }

    method AcceptChunk(index: nat, data: seq<Byte>, disk: Disk) returns (code: Code)
      requires disk.ShortWrite? ==> disk.bytes < |data|
      modifies this
      ensures (State(), code) == UploadChunk(old(State()), cfg, index, data, disk)
    {
      hide Written;
      if data == [] {
        return InvalidParams;
      }
      if status != Transferring && status != Preparing {
        return InvalidState;
      }
      if index >= totalChunks {
        return InvalidChunk;
      }
      code := WriteChunk(index, data, disk);
      if code == Success {
        bytesTransferred := bytesTransferred + |data|;
        currentChunk := index + 1;
        if bytesTransferred >= totalBytes {
          status := Verifying;
        }
      } else {
        if |errorChunks| < MAX_ERROR_CHUNKS {
          errorChunks := errorChunks + [index];
        }
        if retryCount < cfg.maxRetries {
          retryCount := retryCount + 1;
        } else {
          status := Failed;
        }
      }
    }

    method Process(fileOpens: bool) returns (code: Code)
      requires cfg.chunkSize > 0
      modifies this
      ensures (State(), code) == Tick(old(State()), cfg, expectation, fileOpens)
    {
      code := Success;
      match status {
        case Pending =>
          code := Prepare(fileOpens);
          if code == Success {
            status := Transferring;
          }
        case Transferring =>
          if temp.Some? {
            bytesTransferred := |temp.value|;
            currentChunk := bytesTransferred / cfg.chunkSize;
          }
        case Verifying =>
          if cfg.verifyChecksum && expectation.expected != "" {
            if temp.None? || !fileOpens {
              code := IoError;
            } else if expectation.hash(temp.value) != expectation.expected {
              code := ChecksumMismatch;
            }
          }
          status := if code == Success then Completed else Failed;
        case Completed =>
          if temp.Some? {
            local, temp := temp, None;
          } else {
            code, status := IoError, Failed;
          }
        case _ =>
      }
      if code != Success {
        status := Failed;
      }
    }
  }
}
