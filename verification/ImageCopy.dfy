/**
  The copy of one software image on the SD card over the other, bsp_sam9g20/core/ImageCopyingEngine.cpp.
  A copy is spread over many calls, since a call ends when its period is over or when a read
  fails.  Every call reopens the files, seeks, and appends to the target.

  `Job` and `Call` are the copy on values, `ImageCopyingEngine` is the code.  What the card and the
  clock do (short, failed and missing transfers, deadlines) are parameters, so that every theorem is
  about all of it.
 */
module ImageCopy {

  const STEP_COUNTER_SIZE: nat := 0x1_0000   // stepCounter is a uint16_t
  const ERROR_COUNT_SIZE: nat := 0x100       // errorCount is a uint8_t

  datatype ImageSlot = NONE | SDC_SLOT_0 | SDC_SLOT_1

  /** What happens when a call opens its files. */
  datatype Opening = Opened | DirectoryFails | SourceFails | SeekFails | TargetFails

  /** What f_read and f_write answer in one iteration, and whether the time is up after it. */
  datatype Transfer = Transfer(read: int, written: nat, timedOut: bool)

  datatype Verdict = Continue | TaskPeriodOverSoon | Failed | NotFound | OperationFinished

  /** The state of a copy: the target file if there is one, the bytes and chunks read so far, the size
      that was cached, and the failed reads.
      lost: how many of the bytes read so far are not in the target. */
  datatype Job = Job(source: seq<bv8>, target: seq<bv8>, index: nat, chunks: nat, size: nat, errors: nat, lost: nat)

  function Wrapped(chunks: nat): nat {
    chunks % STEP_COUNTER_SIZE
  }

  function StepCounter(j: Job): nat {
    Wrapped(j.chunks)
  }

  /** How much a chunk asks for: the whole buffer also if the index is beyond the size, since then the
      difference of the unsigned numbers wraps around to more than any buffer. */
  function Wanted(size: nat, index: nat, buffer: nat): nat {
    if size < index || size - index > buffer then buffer else size - index
  }

  /** How much of it a file has. */
  function Available(length: nat, position: nat, wanted: nat): nat {
    if position + wanted <= length then wanted else if position <= length then length - position else 0
  }

  function ToRead(j: Job, buffer: nat): nat {
    Available(|j.source|, j.index, Wanted(j.size, j.index, buffer))
  }

  function BytesRead(t: Transfer, toRead: nat): nat {
    if t.read <= 0 then 0 else if t.read < toRead then t.read else toRead
  }

  function BytesWritten(t: Transfer, bytesRead: nat): nat {
    if t.written < bytesRead then t.written else bytesRead
  }

  /** prepareGenericFileInformation, and the rest up to the loop. */
  function Begin(j: Job, o: Opening): (Job, Verdict) {
    if o == DirectoryFails then (j, Failed) else
    var k := if StepCounter(j) == 0 then j.(size := |j.source|) else j;
    if o == SourceFails then (k, NotFound) else if o == SeekFails then (k, Failed) else
    var l := if StepCounter(j) == 0 then k.(target := [], lost := j.index) else k;
    (l, if o == TargetFails then Failed else Continue)
  }

  function AtEndOfChunk(j: Job, t: Transfer): Verdict {
    if j.index >= j.size then OperationFinished else if t.timedOut then TaskPeriodOverSoon else Continue
  }

  /** One iteration of the loop. */
  function Chunk(j: Job, buffer: nat, t: Transfer): (Job, Verdict) {
    var read := BytesRead(t, ToRead(j, buffer));
    if read == 0 then
      var errors := (j.errors + 1) % ERROR_COUNT_SIZE;
      (j.(errors := errors), if errors >= 3 then Failed else TaskPeriodOverSoon)
    else
      var written := BytesWritten(t, read);
      var k := j.(target := j.target + j.source[j.index..j.index + written], index := j.index + read,
                  chunks := j.chunks + 1, lost := j.lost + (read - written));
      (k, AtEndOfChunk(k, t))
  }

  /** The loop: it takes its answers from the list; behind its end, reads fail. */
  function Loop(j: Job, buffer: nat, ts: seq<Transfer>): (Job, Verdict)
    decreases |ts|
  {
    if ts == [] then Chunk(j, buffer, Transfer(0, 0, true)) else
    var (k, v) := Chunk(j, buffer, ts[0]);
    if v == Continue then Loop(k, buffer, ts[1..]) else (k, v)
  }

  ghost predicate InRange(j: Job) {
    j.index <= |j.source| && (StepCounter(j) != 0 ==> j.size == |j.source|)
  }

  /** A call of copySdcImgToSdc. */
  function Call(j: Job, buffer: nat, o: Opening, ts: seq<Transfer>): (Job, Verdict) {
    var (k, v) := Begin(j, o);
    if v == Continue then Loop(k, buffer, ts) else (k, v)
  }

  // ---------- what a call keeps ----------

  /** Between calls: whatever was read is in the target or was lost, and if nothing was lost, the target
      is what was read so far of the source. */
  ghost predicate Kept(j: Job) {
    && InRange(j) && j.index == |j.target| + j.lost
    && (j.lost == 0 ==> j.target == j.source[..j.index])
    && j.chunks <= j.index && (j.index > 0 ==> j.chunks > 0)
    && (j.index > 0 ==> j.size == |j.source|)
  }

  lemma BeginKeeps(j: Job, o: Opening)
    requires InRange(j) && (Kept(j) || j.index == j.chunks == 0)
    ensures var (k, v) := Begin(j, o);
            && (v == Continue ==>
              Kept(k) && k.index == j.index && k.size == |k.source| && k.source == j.source && k.errors == j.errors)
            && v != TaskPeriodOverSoon && v != OperationFinished && k.source == j.source
  {
  }

  lemma ChunkKeeps(j: Job, buffer: nat, t: Transfer)
    requires Kept(j) && j.size == |j.source|
    ensures var (k, v) := Chunk(j, buffer, t);
            && Kept(k) && k.size == |k.source| && k.source == j.source
            && k.index >= j.index && k.lost >= j.lost && k.chunks >= j.chunks
            && (v == OperationFinished ==> k.index == |k.source|)
  {
    var read := BytesRead(t, ToRead(j, buffer));
    var written := BytesWritten(t, read);
    assert j.source[..j.index] + j.source[j.index..j.index + written] == j.source[..j.index + written];
  }

  lemma {:induction false} LoopKeeps(j: Job, buffer: nat, ts: seq<Transfer>)
    requires Kept(j) && j.size == |j.source|
    ensures var (k, v) := Loop(j, buffer, ts);
            && Kept(k) && k.source == j.source && k.lost >= j.lost && k.chunks >= j.chunks && k.index >= j.index &&
              v != Continue
            && (v == OperationFinished ==> k.index == |k.source|)
    decreases |ts|
  {
    if ts == [] {
      ChunkKeeps(j, buffer, Transfer(0, 0, true));
    } else {
      ChunkKeeps(j, buffer, ts[0]);
      var (k, v) := Chunk(j, buffer, ts[0]);
      if v == Continue { LoopKeeps(k, buffer, ts[1..]); }
    }
  }

  ghost predicate Fresh(j: Job) {
    j.index == j.chunks == j.lost == 0
  }

  ghost predicate Underway(j: Job) {
    (Kept(j) || Fresh(j)) && j.errors < 3 && (j.index < |j.source| || j.source == [])
  }

  lemma CallKeeps(j: Job, buffer: nat, o: Opening, ts: seq<Transfer>)
    requires Underway(j)
    ensures var (k, v) := Call(j, buffer, o, ts);
            && v != Continue && k.source == j.source
            && (v == TaskPeriodOverSoon ==> Kept(k) && k.chunks >= j.chunks)
            && (v == OperationFinished ==> Kept(k) && k.index == |k.source| && k.chunks >= j.chunks)
  {
    BeginKeeps(j, o);
    var (k, v) := Begin(j, o);
    if v == Continue { LoopKeeps(k, buffer, ts); }
  }

  // ---------- progress ----------

  /** What is left to read, and then the failed reads left, get less with every call that is to be
      continued; there have been at most two failed reads then. */
  ghost predicate Progress(j: Job, k: Job) {
    && k.source == j.source && k.errors < 3
    && (k.index < |k.source| || k.source == [])
    && j.index <= k.index
    && (if j.index < k.index then j.errors <= k.errors else j.errors < k.errors)
  }

  lemma {:induction false} LoopProgress(j: Job, buffer: nat, ts: seq<Transfer>)
    requires Kept(j) && j.size == |j.source| && j.errors < 3
    requires j.index < |j.source| || |j.source| == 0
    ensures var (k, v) := Loop(j, buffer, ts);
            && (v == TaskPeriodOverSoon ==> Progress(j, k))
            && (v == Failed ==> k.errors == 3)
            && (v == OperationFinished ==> |j.source| > 0)
            && v != NotFound
    decreases |ts|
  {
    if ts != [] {
      ChunkKeeps(j, buffer, ts[0]);
      var (k, v) := Chunk(j, buffer, ts[0]);
      if v == Continue { LoopProgress(k, buffer, ts[1..]); }
    }
  }

  lemma CallProgress(j: Job, buffer: nat, o: Opening, ts: seq<Transfer>)
    requires Underway(j)
    ensures var (k, v) := Call(j, buffer, o, ts);
            && (v == TaskPeriodOverSoon ==> Progress(j, k))
            && (o == Opened ==> (v == Failed ==> k.errors == 3) && v != NotFound)
            && (v == OperationFinished ==> |j.source| > 0)
  {
    BeginKeeps(j, o);
    var (k, v) := Begin(j, o);
    if v == Continue { LoopProgress(k, buffer, ts); }
  }

  // ---------- whole copies ----------

  datatype CallInput = CallInput(opening: Opening, transfers: seq<Transfer>)

  function Start(source: seq<bv8>, oldTarget: seq<bv8>): Job {
    Job(source, oldTarget, 0, 0, 0, 0, 0)
  }

  /** Calls, as long as the copy asks to be continued. */
  function Copy(j: Job, buffer: nat, calls: seq<CallInput>): (Job, Verdict)
    decreases |calls|
  {
    if calls == [] then (j, TaskPeriodOverSoon) else
    var (k, v) := Call(j, buffer, calls[0].opening, calls[0].transfers);
    if v == TaskPeriodOverSoon then Copy(k, buffer, calls[1..]) else (k, v)
  }

  /** Every chunk that the loop reads is written in full. */
  ghost predicate WritesInFull(j: Job, buffer: nat, ts: seq<Transfer>)
    decreases |ts|
  {
    ts == [] ||
    (var read := BytesRead(ts[0], ToRead(j, buffer));
     BytesWritten(ts[0], read) == read
     && (var (k, v) := Chunk(j, buffer, ts[0]);
         v == Continue ==> WritesInFull(k, buffer, ts[1..])))
  }

  /** No call starts with bytes read but the step counter back at zero, and all writes are full. */
  ghost predicate Harmless(j: Job, buffer: nat, calls: seq<CallInput>)
    decreases |calls|
  {
    calls == [] ||
    (var (b, w) := Begin(j, calls[0].opening);
     var (k, v) := Call(j, buffer, calls[0].opening, calls[0].transfers);
     && (StepCounter(j) == 0 ==> j.index == 0)
     && (w == Continue ==> WritesInFull(b, buffer, calls[0].transfers))
     && (v == TaskPeriodOverSoon ==> Harmless(k, buffer, calls[1..])))
  }

  lemma {:induction false} LossOfLoop(j: Job, buffer: nat, ts: seq<Transfer>)
    requires Kept(j) && j.size == |j.source|
    ensures Loop(j, buffer, ts).0.lost >= j.lost
    ensures Loop(j, buffer, ts).0.lost == j.lost <==> WritesInFull(j, buffer, ts)
    decreases |ts|
  {
    if ts != [] {
      ChunkKeeps(j, buffer, ts[0]);
      var (k, v) := Chunk(j, buffer, ts[0]);
      if v == Continue { LossOfLoop(k, buffer, ts[1..]); }
    }
  }

  lemma LossOfCall(j: Job, buffer: nat, o: Opening, ts: seq<Transfer>)
    requires Underway(j)
    ensures var (b, w) := Begin(j, o);
            var (k, v) := Call(j, buffer, o, ts);
            w == Continue ==> InRange(b) && b.size == |b.source| && (k.lost == 0 <==>
              b.lost == 0 && WritesInFull(b, buffer, ts))
  {
    BeginKeeps(j, o);
    var (b, w) := Begin(j, o);
    if w == Continue { LossOfLoop(b, buffer, ts); }
  }

  lemma {:induction false} OnceLost(j: Job, buffer: nat, calls: seq<CallInput>)
    requires Underway(j) && j.lost > 0
    ensures Copy(j, buffer, calls).0.lost > 0
    decreases |calls|
  {
    if calls != [] {
      var o, ts := calls[0].opening, calls[0].transfers;
      var (k, v) := Call(j, buffer, o, ts);
      LossOfCall(j, buffer, o, ts);
      CallKeeps(j, buffer, o, ts);
      CallProgress(j, buffer, o, ts);
      BeginKeeps(j, o);
      if v == TaskPeriodOverSoon { OnceLost(k, buffer, calls[1..]); }
    }
  }

  lemma {:induction false} NothingLostExactly(j: Job, buffer: nat, calls: seq<CallInput>)
    requires Underway(j)
    ensures var (k, v) := Copy(j, buffer, calls);
            && k.source == j.source
            && (v == OperationFinished ==> Kept(k) && k.index == |k.source| && k.source != [])
            && (v == TaskPeriodOverSoon && calls != [] ==> Kept(k) && Underway(k))
            && (v == OperationFinished || v == TaskPeriodOverSoon ==>
              (k.lost == 0 <==> j.lost == 0 && Harmless(j, buffer, calls)))
    decreases |calls|
  {
    if calls != [] {
      var o, ts := calls[0].opening, calls[0].transfers;
      var (k, v) := Call(j, buffer, o, ts);
      LossOfCall(j, buffer, o, ts);
      CallKeeps(j, buffer, o, ts);
      CallProgress(j, buffer, o, ts);
      BeginKeeps(j, o);
      if v == TaskPeriodOverSoon {
        NothingLostExactly(k, buffer, calls[1..]);
        if k.lost > 0 { OnceLost(k, buffer, calls[1..]); }
      }
    }
  }

  /** The main result: whatever short reads, failed reads and deadlines there are, a copy that finishes
      has made the target equal to the source if and only if all writes were full and no call started
      with the step counter wrapped around to zero; until then the target is the part of the source
      read so far, under the same condition. */
  lemma FinishedCopyIsFaithfulExactly(source: seq<bv8>, oldTarget: seq<bv8>, buffer: nat, calls: seq<CallInput>)
    requires calls != []
    ensures var j := Start(source, oldTarget);
            var (k, v) := Copy(j, buffer, calls);
            && (v == OperationFinished ==> (k.target == source <==> Harmless(j, buffer, calls)))
            && (v == TaskPeriodOverSoon ==>
              k.index <= |source| && (k.target == source[..k.index] <==> Harmless(j, buffer, calls)))
  {
    var j := Start(source, oldTarget);
    NothingLostExactly(j, buffer, calls);
    var (k, v) := Copy(j, buffer, calls);
    assert source[..|source|] == source;
    hide Copy, Harmless;
  }

  lemma {:induction false} FullWrites(j: Job, buffer: nat, ts: seq<Transfer>)
    requires j.index <= j.size <= |j.source| && forall i :: 0 <= i < |ts| ==> ts[i].written >= buffer
    ensures WritesInFull(j, buffer, ts)
    decreases |ts|
  {
    if ts != [] {
      var (k, v) := Chunk(j, buffer, ts[0]);
      if v == Continue { FullWrites(k, buffer, ts[1..]); }
    }
  }

  ghost predicate AllWritesFull(buffer: nat, calls: seq<CallInput>) {
    forall c, i :: 0 <= c < |calls| && 0 <= i < |calls[c].transfers| ==> calls[c].transfers[i].written >= buffer
  }

  lemma {:induction false} ChunksOnlyGrow(j: Job, buffer: nat, calls: seq<CallInput>)
    requires Underway(j) && Copy(j, buffer, calls).1 in {OperationFinished, TaskPeriodOverSoon}
    ensures Copy(j, buffer, calls).0.chunks >= j.chunks
    decreases |calls|
  {
    if calls != [] {
      var o, ts := calls[0].opening, calls[0].transfers;
      CallKeeps(j, buffer, o, ts);
      CallProgress(j, buffer, o, ts);
      var (k, v) := Call(j, buffer, o, ts);
      if v == TaskPeriodOverSoon { ChunksOnlyGrow(k, buffer, calls[1..]); }
    }
  }

  lemma {:induction false} FewChunksAreHarmless(j: Job, buffer: nat, calls: seq<CallInput>)
    requires Underway(j) && AllWritesFull(buffer, calls)
    requires var (k, v) := Copy(j, buffer, calls);
             || (v == OperationFinished && k.chunks <= STEP_COUNTER_SIZE)
             || (v == TaskPeriodOverSoon && k.chunks < STEP_COUNTER_SIZE)
    ensures Harmless(j, buffer, calls)
    decreases |calls|
  {
    hide Loop, Chunk;
    if calls != [] {
      var o, ts := calls[0].opening, calls[0].transfers;
      var (b, w) := Begin(j, o);
      var (k, v) := Call(j, buffer, o, ts);
      CallKeeps(j, buffer, o, ts);
      CallProgress(j, buffer, o, ts);
      BeginKeeps(j, o);
      FullWrites(b, buffer, ts);
      FewBefore(j, buffer, calls);
      if v == TaskPeriodOverSoon { FewChunksAreHarmless(k, buffer, calls[1..]); }
    }
  }

  lemma FewBefore(j: Job, buffer: nat, calls: seq<CallInput>)
    requires Underway(j) && calls != []
    requires var (k, v) := Copy(j, buffer, calls);
             || (v == OperationFinished && k.chunks <= STEP_COUNTER_SIZE)
             || (v == TaskPeriodOverSoon && k.chunks < STEP_COUNTER_SIZE)
    ensures j.chunks < STEP_COUNTER_SIZE
  {
    var o, ts := calls[0].opening, calls[0].transfers;
    var (k, v) := Call(j, buffer, o, ts);
    CallKeeps(j, buffer, o, ts);
    CallProgress(j, buffer, o, ts);
    BeginKeeps(j, o);
    if v == OperationFinished {
      LastChunk(Begin(j, o).0, buffer, ts);
    } else {
      ChunksOnlyGrow(k, buffer, calls[1..]);
      if Copy(j, buffer, calls).1 == OperationFinished { FinishingTakesAChunk(k, buffer, calls[1..]); }
    }
  }

  lemma {:induction false} FinishingTakesAChunk(j: Job, buffer: nat, calls: seq<CallInput>)
    requires Underway(j) && Copy(j, buffer, calls).1 == OperationFinished
    ensures Copy(j, buffer, calls).0.chunks > j.chunks
    decreases |calls|
  {
    var o, ts := calls[0].opening, calls[0].transfers;
    var (k, v) := Call(j, buffer, o, ts);
    CallKeeps(j, buffer, o, ts);
    CallProgress(j, buffer, o, ts);
    BeginKeeps(j, o);
    if v == OperationFinished {
      LastChunk(Begin(j, o).0, buffer, ts);
    } else {
      FinishingTakesAChunk(k, buffer, calls[1..]);
    }
  }

  lemma {:induction false} LastChunk(j: Job, buffer: nat, ts: seq<Transfer>)
    requires Kept(j) && j.size == |j.source| && Loop(j, buffer, ts).1 == OperationFinished
    ensures Loop(j, buffer, ts).0.chunks > j.chunks
    decreases |ts|
  {
    ChunkKeeps(j, buffer, ts[0]);
    var (k, v) := Chunk(j, buffer, ts[0]);
    if v == Continue { LastChunk(k, buffer, ts[1..]); }
  }

  /** With full writes, a copy of at most 65536 chunks that finishes is faithful, and one that has read
      fewer has written what it read. */
  lemma CopyOfFewChunksIsFaithful(source: seq<bv8>, oldTarget: seq<bv8>, buffer: nat, calls: seq<CallInput>)
    requires AllWritesFull(buffer, calls) && calls != []
    ensures var (k, v) := Copy(Start(source, oldTarget), buffer, calls);
            && (v == OperationFinished && k.chunks <= 65536 ==> k.target == source)
            && (v == TaskPeriodOverSoon && k.chunks < 65536 ==>
                  k.index <= |source| && k.target == source[..k.index])
  {
    var j := Start(source, oldTarget);
    var (k, v) := Copy(j, buffer, calls);
    FinishedCopyIsFaithfulExactly(source, oldTarget, buffer, calls);
    if (v == OperationFinished && k.chunks <= 65536) ||
      (v == TaskPeriodOverSoon && k.chunks < 65536) {
      FewChunksAreHarmless(j, buffer, calls);
    }
    hide Copy, Harmless;
  }

  /** In particular, with full writes the copy of an image of at most 65536 bytes is faithful at every
      point, whatever the buffer and the calls. */
  lemma CopyOfSmallImageIsFaithful(source: seq<bv8>, oldTarget: seq<bv8>, buffer: nat, calls: seq<CallInput>)
    requires AllWritesFull(buffer, calls) && calls != [] && |source| <= 65536
    ensures var (k, v) := Copy(Start(source, oldTarget), buffer, calls);
            && (v == OperationFinished ==> k.target == source)
            && (v == TaskPeriodOverSoon ==> k.index <= |source| && k.target == source[..k.index])
  {
    hide Copy, Harmless, AllWritesFull;
    CopyOfFewChunksIsFaithful(source, oldTarget, buffer, calls);
    NothingLostExactly(Start(source, oldTarget), buffer, calls);
  }

  /** Every copy ends: after as many calls as there are bytes, and two more (three in all if there are
      none), it does not ask to be continued. */
  lemma {:induction false} CopyEnds(j: Job, buffer: nat, calls: seq<CallInput>)
    requires Underway(j)
    requires |calls| + j.index + j.errors >= (if j.source == [] then 3 else |j.source| + 2)
    ensures Copy(j, buffer, calls).1 != TaskPeriodOverSoon
    decreases |calls|
  {
    hide Call;
    var o, ts := calls[0].opening, calls[0].transfers;
    CallKeeps(j, buffer, o, ts);
    CallProgress(j, buffer, o, ts);
    var (k, v) := Call(j, buffer, o, ts);
    if v == TaskPeriodOverSoon { CopyEnds(k, buffer, calls[1..]); }
  }

  /** If the files can always be opened, a copy fails only at its third failed read; an empty image is
      never copied. */
  lemma {:induction false} FailsOnlyAtThirdError(j: Job, buffer: nat, calls: seq<CallInput>)
    requires Underway(j) && forall c :: 0 <= c < |calls| ==> calls[c].opening == Opened
    ensures var (k, v) := Copy(j, buffer, calls);
            && v != NotFound && (v == Failed ==> k.errors == 3)
            && (v == OperationFinished ==> j.source != [])
    decreases |calls|
  {
    hide Call;
    if calls != [] {
      var o, ts := calls[0].opening, calls[0].transfers;
      CallKeeps(j, buffer, o, ts);
      CallProgress(j, buffer, o, ts);
      var (k, v) := Call(j, buffer, o, ts);
      if v == TaskPeriodOverSoon { FailsOnlyAtThirdError(k, buffer, calls[1..]); }
    }
  }

  /** n bytes, read and written one by one, until the time is up. */
  function OneByOne(n: nat): seq<Transfer> {
    if n == 0 then [] else [Transfer(1, 1, n == 1)] + OneByOne(n - 1)
  }

  /** The job after n more bytes, with nothing lost. */
  function Further(j: Job, n: nat): Job
    requires j.index + n <= |j.source|
  {
    j.(target := j.target + j.source[j.index..j.index + n], index := j.index + n, chunks := j.chunks + n)
  }

  lemma FurtherTwice(j: Job, m: nat, n: nat)
    requires j.index + m + n <= |j.source|
    ensures Further(Further(j, m), n) == Further(j, m + n)
  {
    assert j.source[j.index..j.index + m] + j.source[j.index + m..j.index + m + n] ==
      j.source[j.index..j.index + m + n];
  }

  lemma ChunkOfOneByte(j: Job, buffer: nat, last: bool)
    requires j.index < j.size == |j.source| && buffer > 0
    ensures Chunk(j, buffer, Transfer(1, 1, last))
            == (Further(j, 1), AtEndOfChunk(Further(j, 1), Transfer(1, 1, last)))
  {
  }

  lemma {:induction false} LoopOneByOne(j: Job, buffer: nat, n: nat)
    requires 0 < n && j.index + n <= j.size == |j.source| && buffer > 0
    ensures Loop(j, buffer, OneByOne(n)) ==
            (Further(j, n), if j.index + n == |j.source| then OperationFinished else TaskPeriodOverSoon)
    decreases n
  {
    hide Chunk;
    ChunkOfOneByte(j, buffer, n == 1);
    assert OneByOne(n) == [Transfer(1, 1, n == 1)] + OneByOne(n - 1) && OneByOne(n)[1..] == OneByOne(n - 1);
    if n > 1 {
      FurtherTwice(j, 1, n - 1);
      assert Further(j, 1).index == j.index + 1 && Further(j, 1).source == j.source && Further(j, 1).size == j.size;
      hide Further;
      LoopOneByOne(Further(j, 1), buffer, n - 1);
    }
  }

  /** What happens to an image of more than 65536 chunks if the time is up after chunk 65536: the next
      call takes itself for the first, deletes the target, and the copy finishes without its beginning. */
  lemma WrappedCounterLosesTheBeginning(source: seq<bv8>, oldTarget: seq<bv8>, buffer: nat)
    requires |source| > 65536 && buffer > 0
    ensures var calls := [CallInput(Opened, OneByOne(65536)),
                          CallInput(Opened, OneByOne(|source| - 65536))];
            var (k, v) := Copy(Start(source, oldTarget), buffer, calls);
            v == OperationFinished && k.target == source[65536..] != source
  {
    hide Loop, OneByOne;
    var n := 65536;
    var calls := [CallInput(Opened, OneByOne(n)), CallInput(Opened, OneByOne(|source| - n))];
    var j := Start(source, oldTarget);
    var (b, w) := Begin(j, Opened);
    LoopOneByOne(b, buffer, n);
    var (k, v) := Call(j, buffer, Opened, OneByOne(n));
    assert StepCounter(k) == 0;
    var (b', w') := Begin(k, Opened);
    LoopOneByOne(b', buffer, |source| - n);
    assert calls[1..] == [calls[1]];
    assert Copy(j, buffer, calls) == Copy(k, buffer, [calls[1]]) == Call(k, buffer, Opened, OneByOne(|source| - n));
    assert [] + source[n..|source|] == source[n..];
  }

  /** Already at 65536 chunks an unfinished copy can have lost everything: the call after chunk 65536
      deletes the target before its first read fails. */
  lemma WrappedCounterLosesAll(source: seq<bv8>, oldTarget: seq<bv8>, buffer: nat)
    requires |source| > 65536 && buffer > 0
    ensures var calls := [CallInput(Opened, OneByOne(65536)), CallInput(Opened, [])];
            var (k, v) := Copy(Start(source, oldTarget), buffer, calls);
            v == TaskPeriodOverSoon && k.chunks == k.index == 65536 && k.target == []
  {
    hide OneByOne, Loop;
    var n := 65536;
    var calls := [CallInput(Opened, OneByOne(n)), CallInput(Opened, [])];
    var j := Start(source, oldTarget);
    var (b, w) := Begin(j, Opened);
    LoopOneByOne(b, buffer, n);
    var (k, v) := Call(j, buffer, Opened, OneByOne(n));
    assert StepCounter(k) == 0;
    assert calls[1..] == [calls[1]] && calls[1..][1..] == [];
    FailingCallDeletes(k, buffer);
    var (m, x) := Call(k, buffer, Opened, []);
    assert Copy(k, buffer, calls[1..]) == Copy(m, buffer, []);
    assert Copy(j, buffer, calls) == Copy(k, buffer, calls[1..]);
  }

  lemma FailingCallDeletes(j: Job, buffer: nat)
    requires StepCounter(j) == 0 && j.errors < 2
    ensures var (k, v) := Call(j, buffer, Opened, []);
            k.target == [] && v == TaskPeriodOverSoon && k.chunks == j.chunks && k.index == j.index
  {
  }

  // ---------- how much a chunk moves ----------

  /** A chunk reads as much as there is left, up to a buffer, or less if the card gives less; it writes
      what it read, or less if the card takes less. */
  lemma ChunkMoves(j: Job, buffer: nat, t: Transfer)
    requires Kept(j) && j.size == |j.source|
    ensures var (k, v) := Chunk(j, buffer, t);
            var left := |j.source| - j.index;
            var most := if left < buffer then left else buffer;
            var read := if t.read <= 0 then 0 else if t.read < most then t.read else most;
            var written := if t.written < read then t.written else read;
            && k.index == j.index + read && k.target == j.target + j.source[j.index..j.index + written]
            && k.source == j.source && k.size == j.size && k.lost == j.lost + (read - written)
            && (read == 0 ==> k.errors == j.errors + 1 || j.errors >= 3)
            && (read > 0 ==> k.errors == j.errors && k.chunks == j.chunks + 1)
            && (v == OperationFinished <==> read > 0 && read == left)
            && (v == Continue <==> read > 0 && read < left && !t.timedOut)
            && (v == TaskPeriodOverSoon && read > 0 <==> read > 0 && read < left && t.timedOut)
  {
  }

  /** What a call does that cannot open its files: it says so, reads nothing, and leaves the target as it
      is unless it got as far as the target file, with the step counter at zero. */
  lemma CallWithoutFiles(j: Job, buffer: nat, o: Opening, ts: seq<Transfer>)
    requires o != Opened
    ensures var (k, v) := Call(j, buffer, o, ts);
            && v == (if o == SourceFails then NotFound else Failed)
            && k.source == j.source && k.index == j.index && k.chunks == j.chunks && k.errors == j.errors
            && k.target == (if o == TargetFails && j.chunks % 65536 == 0 then [] else j.target)
            && (k.size != j.size ==> j.chunks % 65536 == 0 && o != DirectoryFails && k.size == |j.source|)
  {
  }

  /** Nothing is transferred in a call after a deadline or a failed read. */
  lemma {:induction false} CallStops(j: Job, buffer: nat, ts: seq<Transfer>, i: nat)
    requires i < |ts| && (ts[i].timedOut || ts[i].read <= 0)
    ensures Loop(j, buffer, ts) == Loop(j, buffer, ts[..i+1])
    decreases i
  {
    var (k, v) := Chunk(j, buffer, ts[0]);
    assert ts[..i+1][0] == ts[0] && ts[..i+1][1..] == ts[1..][..i];
    if i > 0 && v == Continue { CallStops(k, buffer, ts[1..], i - 1); }
  }

  /** Every read fails or fills the buffer, unless the file ends. */
  ghost predicate FullOrFailed(buffer: nat, calls: seq<CallInput>) {
    forall c, i :: 0 <= c < |calls| && 0 <= i < |calls[c].transfers| ==> FullOrFails(buffer, calls[c].transfers[i])
  }

  ghost predicate FullOrFails(buffer: nat, t: Transfer) {
    t.read <= 0 || t.read >= buffer
  }

  /** All chunks so far were full, but for the last one if the file has ended. */
  ghost predicate InSteps(j: Job, buffer: nat) {
    var covered := j.chunks * buffer;
    && j.index == (if covered < |j.source| then covered else |j.source|)
    && (j.chunks > 0 ==> covered - buffer < |j.source|)
  }

  lemma ChunkInSteps(j: Job, buffer: nat, t: Transfer)
    requires Kept(j) && j.size == |j.source| && InSteps(j, buffer) && FullOrFails(buffer, t)
    ensures InSteps(Chunk(j, buffer, t).0, buffer)
  {
    hide Kept, Chunk;
    ChunkMoves(j, buffer, t);
    NothingOrOne(j, buffer, t);
    assert (j.chunks + 1) * buffer == j.chunks * buffer + buffer;
  }

  lemma NothingOrOne(j: Job, buffer: nat, t: Transfer)
    requires Kept(j)
    ensures var k := Chunk(j, buffer, t).0;
            k.chunks == (if k.index == j.index then j.chunks else j.chunks + 1) && j.index <= |j.source|
  {
  }

  lemma {:induction false} LoopInSteps(j: Job, buffer: nat, ts: seq<Transfer>)
    requires Kept(j) && j.size == |j.source| && InSteps(j, buffer)
    requires forall i :: 0 <= i < |ts| ==> FullOrFails(buffer, ts[i])
    ensures InSteps(Loop(j, buffer, ts).0, buffer)
    decreases |ts|
  {
    hide Kept, Chunk, InSteps;
    var t := if ts == [] then Transfer(0, 0, true) else ts[0];
    ChunkKeeps(j, buffer, t);
    ChunkInSteps(j, buffer, t);
    if ts != [] {
      var (k, v) := Chunk(j, buffer, t);
      if v == Continue { LoopInSteps(k, buffer, ts[1..]); }
    }
  }

  lemma {:induction false} CopyInSteps(j: Job, buffer: nat, calls: seq<CallInput>)
    requires Underway(j) && InSteps(j, buffer) && FullOrFailed(buffer, calls)
    ensures InSteps(Copy(j, buffer, calls).0, buffer)
    decreases |calls|
  {
    hide Loop;
    if calls != [] {
      var o, ts := calls[0].opening, calls[0].transfers;
      var (b, w) := Begin(j, o);
      BeginKeeps(j, o);
      BeginInSteps(j, o, buffer);
      if w == Continue { LoopInSteps(b, buffer, ts); }
      CallKeeps(j, buffer, o, ts);
      CallProgress(j, buffer, o, ts);
      var (k, v) := Call(j, buffer, o, ts);
      if v == TaskPeriodOverSoon { CopyInSteps(k, buffer, calls[1..]); }
    }
  }

  lemma BeginInSteps(j: Job, o: Opening, buffer: nat)
    ensures InSteps(Begin(j, o).0, buffer) <==> InSteps(j, buffer)
  {
  }

  /** If no read comes up short, a copy takes exactly as many chunks as there are buffers in the image,
      the last one counted as a whole. */
  lemma ChunksOfFullReads(source: seq<bv8>, oldTarget: seq<bv8>, buffer: nat, calls: seq<CallInput>)
    requires FullOrFailed(buffer, calls) && calls != []
    ensures var (k, v) := Copy(Start(source, oldTarget), buffer, calls);
            && (v == OperationFinished ==> k.chunks > 0 && (k.chunks - 1) * buffer < |source| <= k.chunks * buffer)
            && (v == TaskPeriodOverSoon && source != [] ==> k.index == k.chunks * buffer < |source|)
  {
    hide Copy, FullOrFailed, Harmless;
    var j := Start(source, oldTarget);
    CopyInSteps(j, buffer, calls);
    NothingLostExactly(j, buffer, calls);
    var (k, v) := Copy(j, buffer, calls);
    assert (k.chunks - 1) * buffer == k.chunks * buffer - buffer;
  }

  /** So an image of at most 65536 buffers is copied faithfully, whatever the deadlines and the failed
      reads, if all writes are full. */
  lemma CopyOfFewBuffersIsFaithful(source: seq<bv8>, oldTarget: seq<bv8>, buffer: nat, calls: seq<CallInput>)
    requires FullOrFailed(buffer, calls) && AllWritesFull(buffer, calls) && calls != []
    requires |source| <= 65536 * buffer
    ensures var (k, v) := Copy(Start(source, oldTarget), buffer, calls);
            && (v == OperationFinished ==> k.target == source)
            && (v == TaskPeriodOverSoon ==> k.index <= |source| && k.target == source[..k.index])
  {
    hide Copy, FullOrFailed, AllWritesFull, Harmless;
    ChunksOfFullReads(source, oldTarget, buffer, calls);
    CopyOfFewChunksIsFaithful(source, oldTarget, buffer, calls);
    NothingLostExactly(Start(source, oldTarget), buffer, calls);
    var (k, v) := Copy(Start(source, oldTarget), buffer, calls);
    if v == OperationFinished { FewerFactors(k.chunks - 1, 65536, buffer); }
    if v == TaskPeriodOverSoon && source != [] { FewerFactors(k.chunks, 65536, buffer); }
  }

  lemma FewerFactors(a: nat, b: nat, c: nat)
    requires a * c < b * c
    ensures a < b
  {
    assert a * c == b * c + (a - b) * c;
    assert a >= b ==> (a - b) * c >= 0;
  }

  /** A call that opens its files and reads and writes full chunks until its time is up. */
  ghost predicate FullCall(buffer: nat, c: CallInput) {
    && c.opening == Opened && c.transfers != [] && c.transfers[|c.transfers|-1].timedOut
    && forall i :: 0 <= i < |c.transfers| ==> c.transfers[i].read >= buffer && c.transfers[i].written >= buffer
  }

  lemma {:induction false} FullLoopMoves(j: Job, buffer: nat, ts: seq<Transfer>)
    requires Kept(j) && j.size == |j.source| && j.index < |j.source| && buffer > 0
    requires FullCall(buffer, CallInput(Opened, ts))
    ensures var (k, v) := Loop(j, buffer, ts);
            v == OperationFinished || (v == TaskPeriodOverSoon && k.index >= j.index + buffer && k.errors == j.errors)
    decreases |ts|
  {
    hide Chunk, Kept;
    ChunkKeeps(j, buffer, ts[0]);
    ChunkMoves(j, buffer, ts[0]);
    var (k, v) := Chunk(j, buffer, ts[0]);
    if v == Continue { FullLoopMoves(k, buffer, ts[1..]); }
  }

  /** Every copy finishes whose calls are full, and as many as there are buffers left in the image. */
  lemma {:induction false} FullCallsFinish(j: Job, buffer: nat, calls: seq<CallInput>)
    requires Underway(j) && j.source != [] && buffer > 0
    requires forall c :: 0 <= c < |calls| ==> FullCall(buffer, calls[c])
    requires |j.source| - j.index <= |calls| * buffer
    ensures Copy(j, buffer, calls).1 == OperationFinished
    decreases |calls|
  {
    hide Loop, FullCall;
    assert |calls| == 0 ==> |calls| * buffer == 0;
    var o, ts := calls[0].opening, calls[0].transfers;
    var (b, w) := Begin(j, o);
    BeginKeeps(j, o);
    OpeningOfFull(buffer, calls[0]);
    FullLoopMoves(b, buffer, ts);
    CallKeeps(j, buffer, o, ts);
    CallProgress(j, buffer, o, ts);
    var (k, v) := Call(j, buffer, o, ts);
    assert |calls| * buffer == (|calls| - 1) * buffer + buffer;
    if v == TaskPeriodOverSoon { FullCallsFinish(k, buffer, calls[1..]); }
  }

  lemma OpeningOfFull(buffer: nat, c: CallInput)
    requires FullCall(buffer, c)
    ensures c.opening == Opened && FullCall(buffer, CallInput(Opened, c.transfers))
  {
  }

  // ---------- a copy that is started again ----------

  /** Starting a copy that is under way resets nothing.  With the same slot nothing changes at all; with
      the other slot the two files change their parts. */
  function Restarted(j: Job): Job {
    j.(source := j.target, target := j.source)
  }

  lemma {:induction false} NothingLeftToRead(j: Job, buffer: nat, calls: seq<CallInput>)
    requires j.index >= |j.source| && (StepCounter(j) == 0 ==> j.target == [])
    ensures var (k, v) := Copy(j, buffer, calls);
            v != OperationFinished && k.source == j.source && k.target == j.target && k.index == j.index
    decreases |calls|
  {
    if calls != [] {
      var (k, v) := Call(j, buffer, calls[0].opening, calls[0].transfers);
      assert k.source == j.source && k.target == j.target && k.index == j.index && k.chunks == j.chunks;
      if v == TaskPeriodOverSoon { NothingLeftToRead(k, buffer, calls[1..]); }
    }
  }

  /** Once a call has opened the files, a restart with the other slot never finishes: the half-written
      image has nothing left behind the index.  The good image is left as it is if the step counter is
      not zero; otherwise the first call that opens the files deletes it. */
  lemma RestartMidCopyNeverFinishes(j: Job, buffer: nat, calls: seq<CallInput>)
    requires Kept(j)
    ensures var (k, v) := Copy(Restarted(j), buffer, calls);
            && v != OperationFinished && k.source == j.target
            && (StepCounter(j) != 0 ==> k.target == j.source)
            && (StepCounter(j) == 0 && calls != [] && calls[0].opening in {Opened, TargetFails} ==> k.target == [])
  {
    var r := Restarted(j);
    if StepCounter(j) != 0 {
      NothingLeftToRead(r, buffer, calls);
    } else if calls != [] {
      var (k, v) := Call(r, buffer, calls[0].opening, calls[0].transfers);
      if v == TaskPeriodOverSoon { NothingLeftToRead(k, buffer, calls[1..]); }
    }
  }

  /** When a copy that was started again is faithful: with the same slot as if it had not been; with the
      other slot, a copy that finishes was started again before any call opened the files, and is then a
      copy of the other image like any other. */
  lemma RestartedCopyIsFaithfulExactly(j: Job, same: bool, buffer: nat, calls: seq<CallInput>)
    requires Underway(j)
    ensures var r := if same then j else Restarted(j);
            var (k, v) := Copy(r, buffer, calls);
            v == OperationFinished ==>
              && k.source == r.source && (k.target == r.source <==> r.lost == 0 && Harmless(r, buffer, calls))
              && (same || (Fresh(j) && !Kept(j)))
  {
    var r := if same then j else Restarted(j);
    var (k, v) := Copy(r, buffer, calls);
    if !same && Kept(j) {
      RestartMidCopyNeverFinishes(j, buffer, calls);
    } else {
      NothingLostExactly(r, buffer, calls);
      assert v == OperationFinished ==> r.source[..|r.source|] == r.source;
    }
    hide Copy, Harmless;
  }

  /** Before any call has opened the files, a restart with the other slot can finish. */
  lemma RestartBeforeCopyCanFinish(j: Job, buffer: nat)
    requires Fresh(j) && j.target != [] && buffer > 0
    ensures var (k, v) := Copy(Restarted(j), buffer, [CallInput(Opened, OneByOne(|j.target|))]);
            v == OperationFinished && k.target == j.target == k.source
  {
    hide Loop, OneByOne;
    var r, c := Restarted(j), CallInput(Opened, OneByOne(|j.target|));
    var (b, w) := Begin(r, Opened);
    LoopOneByOne(b, buffer, |j.target|);
    assert Copy(r, buffer, [c]) == Call(r, buffer, c.opening, c.transfers);
    assert [] + j.target[0..|j.target|] == j.target;
  }

  /** A run in which both images are lost: the first read of a copy fails, and the copy is started again
      with the other slot. */
  lemma RestartAfterFailedReadLosesBoth(source: seq<bv8>, oldTarget: seq<bv8>, buffer: nat)
    ensures var failing := [CallInput(Opened, [])];
            var (k, v) := Copy(Start(source, oldTarget), buffer, failing);
            var (m, w) := Copy(Restarted(k), buffer, failing);
            v == w == TaskPeriodOverSoon && m.source == m.target == []
  {
    var c := CallInput(Opened, []);
    assert [c][1..] == [];
    var (k, v) := Call(Start(source, oldTarget), buffer, Opened, []);
    assert Copy(Start(source, oldTarget), buffer, [c]) == Copy(k, buffer, []);
    var (m, w) := Call(Restarted(k), buffer, Opened, []);
    assert Copy(Restarted(k), buffer, [c]) == Copy(m, buffer, []);
  }

  // ---------- calls and starts in any order ----------

  /** What the handler does to a copy under way: a call, or a start with the same or the other slot. */
  datatype Event = Called(input: CallInput) | Started(other: bool)

  function StartedAgain(j: Job, other: bool): Job {
    if other then Restarted(j) else j
  }

  /** Calls and starts, as long as the calls ask to be continued. */
  function Handled(j: Job, buffer: nat, es: seq<Event>): (Job, Verdict)
    decreases |es|
  {
    if es == [] then (j, TaskPeriodOverSoon) else
    match es[0]
    case Started(other) => Handled(StartedAgain(j, other), buffer, es[1..])
    case Called(c) =>
      var (k, v) := Call(j, buffer, c.opening, c.transfers);
      if v == TaskPeriodOverSoon then Handled(k, buffer, es[1..]) else (k, v)
  }

  /** As Harmless, with starts between the calls. */
  ghost predicate HarmlessEvents(j: Job, buffer: nat, es: seq<Event>)
    decreases |es|
  {
    es == [] ||
    match es[0]
    case Started(other) => HarmlessEvents(StartedAgain(j, other), buffer, es[1..])
    case Called(c) =>
      var (k, v) := Call(j, buffer, c.opening, c.transfers);
      HarmlessCall(j, buffer, c) && (v == TaskPeriodOverSoon ==> HarmlessEvents(k, buffer, es[1..]))
  }

  ghost predicate HarmlessCall(j: Job, buffer: nat, c: CallInput) {
    var (b, w) := Begin(j, c.opening);
    (StepCounter(j) == 0 ==> j.index == 0) && (w == Continue ==> WritesInFull(b, buffer, c.transfers))
  }

  /** The image that is the source when the first call comes. */
  function FirstSource(j: Job, es: seq<Event>): seq<bv8>
    decreases |es|
  {
    if es == [] || es[0].Called? then j.source else FirstSource(StartedAgain(j, es[0].other), es[1..])
  }

  /** Nothing is left to read in either image. */
  ghost predicate Exhausted(j: Job) {
    |j.source| <= j.index && |j.target| <= j.index
  }

  lemma {:induction false} ExhaustedNeverFinishes(j: Job, buffer: nat, es: seq<Event>)
    requires Exhausted(j)
    ensures Handled(j, buffer, es).1 != OperationFinished
    decreases |es|
  {
    hide Loop;
    if es != [] {
      match es[0]
      case Started(other) => ExhaustedNeverFinishes(StartedAgain(j, other), buffer, es[1..]);
      case Called(c) =>
        NothingRead(j, buffer, c);
        var (k, v) := Call(j, buffer, c.opening, c.transfers);
        if v == TaskPeriodOverSoon { ExhaustedNeverFinishes(k, buffer, es[1..]); }
    }
  }

  /** A call with the index at the end of the source or behind it. */
  lemma NothingRead(j: Job, buffer: nat, c: CallInput)
    requires |j.source| <= j.index
    ensures var (k, v) := Call(j, buffer, c.opening, c.transfers);
            && v != OperationFinished && k.source == j.source && k.index == j.index && k.chunks == j.chunks
            && (k.target == j.target || k.target == [])
            && (v == TaskPeriodOverSoon ==> k.errors == j.errors + 1 < 3 || j.errors >= 3)
            && (StepCounter(j) != 0 ==> k.target == j.target && k.size == j.size && k.lost == j.lost)
            && (StepCounter(j) == 0 && v == TaskPeriodOverSoon ==> k.target == [])
            && (StepCounter(j) != 0 ==> HarmlessCall(j, buffer, c))
  {
  }

  /** A copy that a call has begun, and that was started again any number of times since. */
  ghost predicate Begun(j: Job) {
    Kept(j) && Underway(j)
  }

  /** A call on a copy that has not lost its way: the next step of a proof about all that follows. */
  lemma CalledCopy(j: Job, buffer: nat, c: CallInput)
    requires Underway(j)
    ensures var (k, v) := Call(j, buffer, c.opening, c.transfers);
            && k.source == j.source
            && (v == TaskPeriodOverSoon ==> Begun(k) && (k.lost == 0 <==> j.lost == 0 && HarmlessCall(j, buffer, c)))
            && (v == OperationFinished ==> (k.target == k.source <==> j.lost == 0 && HarmlessCall(j, buffer, c)))
  {
    CallKeeps(j, buffer, c.opening, c.transfers);
    CallProgress(j, buffer, c.opening, c.transfers);
    LossOfCall(j, buffer, c.opening, c.transfers);
    BeginKeeps(j, c.opening);
    var (k, v) := Call(j, buffer, c.opening, c.transfers);
    assert v == OperationFinished ==> k.source[..|k.source|] == k.source;
  }

  /** Once a call has begun a copy: whatever calls and starts follow, it can only finish with the image it
      began with as its source again, and it is then faithful under the condition of before. */
  lemma {:induction false} BegunCopy(j: Job, turned: bool, buffer: nat, es: seq<Event>)
    requires Begun(j)
    ensures var r := StartedAgain(j, turned);
            var (k, v) := Handled(r, buffer, es);
            v == OperationFinished ==>
              k.source == j.source && (k.target == k.source <==> j.lost == 0 && HarmlessEvents(r, buffer, es))
    decreases |es|
  {
    hide Call, HarmlessCall;
    if es != [] {
      var r := StartedAgain(j, turned);
      match es[0]
      case Started(other) =>
        assert StartedAgain(r, other) == StartedAgain(j, turned != other);
        BegunCopy(j, turned != other, buffer, es[1..]);
      case Called(c) =>
        var (k, v) := Call(r, buffer, c.opening, c.transfers);
        if !turned {
          CalledCopy(j, buffer, c);
          if v == TaskPeriodOverSoon { BegunCopy(k, false, buffer, es[1..]); }
        } else {
          NothingRead(r, buffer, c);
          if v == TaskPeriodOverSoon {
            if StepCounter(j) == 0 {
              ExhaustedNeverFinishes(k, buffer, es[1..]);
            } else {
              assert k == Restarted(Restarted(k));
              BegunCopy(Restarted(k), true, buffer, es[1..]);
            }
          }
        }
    }
  }

  /** For any calls and starts, in any order: a copy that finishes has the image for its source that was
      the source when the first call came, and is faithful if and only if all writes were full and no
      call started with the step counter wrapped around to zero. */
  lemma {:induction false} HandledCopyIsFaithfulExactly(j: Job, buffer: nat, es: seq<Event>)
    requires Fresh(j) && j.errors < 3
    ensures var (k, v) := Handled(j, buffer, es);
            v == OperationFinished ==>
              k.source == FirstSource(j, es) && (k.target == k.source <==> HarmlessEvents(j, buffer, es))
    decreases |es|
  {
    hide Call, HarmlessCall;
    if es != [] {
      match es[0]
      case Started(other) => HandledCopyIsFaithfulExactly(StartedAgain(j, other), buffer, es[1..]);
      case Called(c) =>
        CalledCopy(j, buffer, c);
        var (k, v) := Call(j, buffer, c.opening, c.transfers);
        if v == TaskPeriodOverSoon { BegunCopy(k, false, buffer, es[1..]); }
    }
  }

  /** Turning a copy round in the middle and back, with one call in between, costs it a failed read and
      nothing else, unless the step counter is zero. */
  lemma DetourCostsARead(j: Job, buffer: nat, c: CallInput, es: seq<Event>)
    requires Begun(j) && StepCounter(j) != 0 && c.opening == Opened
    ensures Handled(j, buffer, [Started(true), Called(c), Started(true)] + es)
            == if j.errors < 2 then Handled(j.(errors := j.errors + 1), buffer, es)
               else (Restarted(j).(errors := 3), Failed)
  {
    var all := [Started(true), Called(c), Started(true)] + es;
    assert all[1..] == [Called(c), Started(true)] + es && all[1..][1..] == [Started(true)] + es;
    assert all[1..][1..][1..] == es;
    var r := Restarted(j);
    var (k, v) := Call(r, buffer, Opened, c.transfers);
    assert k == r.(errors := j.errors + 1) && v == if j.errors < 2 then TaskPeriodOverSoon else Failed;
    assert Handled(j, buffer, all) == Handled(r, buffer, all[1..]);
    if j.errors < 2 {
      assert Handled(r, buffer, all[1..]) == Handled(k, buffer, all[1..][1..]) == Handled(Restarted(k), buffer, es);
    }
  }

  // ---------- the code ----------

  function Least(a: int, b: int): int {
    if a < b then a else b
  }

  /** The files of the two software images on the active SD card. */
  class SdCard {
    var files: map<ImageSlot, seq<bv8>>

    constructor (files: map<ImageSlot, seq<bv8>>)
      ensures this.files == files
    {
      this.files := files;
    }

    method Delete(slot: ImageSlot)
      modifies this
      ensures files == old(files) - {slot}
    {
      files := files - {slot};
    }

    /** f_open with "a". */
    method OpenForAppending(slot: ImageSlot)
      modifies this
      ensures files == if slot in old(files) then old(files) else old(files)[slot := []]
    {
      if slot !in files {
        files := files[slot := []];
      }
    }

    /** f_read, from a position to a buffer, up to the end of the file; the answer of the card is given. */
    method Read(slot: ImageSlot, position: nat, buffer: array<bv8>, size: nat, answer: int) returns (bytesRead: int)
      requires slot in files && size <= buffer.Length
      modifies buffer
      ensures bytesRead == Least(answer, Available(|files[slot]|, position, size))
      ensures bytesRead > 0 ==> buffer[..bytesRead] == files[slot][position..position + bytesRead]
    {
      var available := Available(|files[slot]|, position, size);
      bytesRead := Least(answer, available);
      if bytesRead > 0 {
        for i := 0 to bytesRead
          invariant buffer[..i] == files[slot][position..position + i]
        {
          buffer[i] := files[slot][position + i];
        }
      }
    }

    /** f_write of a file that was opened for appending. */
    method Write(slot: ImageSlot, buffer: array<bv8>, size: nat, answer: nat) returns (bytesWritten: nat)
      requires slot in files && size <= buffer.Length
      modifies this
      ensures bytesWritten == (if answer < size then answer else size)
      ensures files == old(files)[slot := old(files)[slot] + buffer[..bytesWritten]]
    {
      bytesWritten := if answer < size then answer else size;
      files := files[slot := files[slot] + buffer[..bytesWritten]];
    }
  }

  datatype ImageHandlerState = IDLE | COPY_IMG_SDC_TO_SDC

  function Other(slot: ImageSlot): ImageSlot {
    if slot == SDC_SLOT_1 then SDC_SLOT_0 else SDC_SLOT_1
  }

  function FileOr(files: map<ImageSlot, seq<bv8>>, slot: ImageSlot): seq<bv8> {
    if slot in files then files[slot] else []
  }

  /** All files but one. */
  function Others(files: map<ImageSlot, seq<bv8>>, slot: ImageSlot): map<ImageSlot, seq<bv8>> {
    files - {slot}
  }

  class ImageCopyingEngine {
    const card: SdCard
    const imgBuffer: array<bv8>
    var imageHandlerState: ImageHandlerState
    var lastFinishedState: ImageHandlerState
    var sourceSlot: ImageSlot
    var targetSlot: ImageSlot
    var stepCounter: nat
    var currentByteIdx: nat
    var currentFileSize: nat
    var errorCount: nat
    ghost var chunks: nat
    ghost var lost: nat

    /** The copy that the fields and the files stand for. */
    ghost function Now(): Job
      reads this, card
    {
      Job(FileOr(card.files, sourceSlot), FileOr(card.files, targetSlot),
          currentByteIdx, chunks, currentFileSize, errorCount, lost)
    }

    ghost predicate Valid()
      reads this, card
    {
      && stepCounter == Wrapped(chunks) && errorCount < ERROR_COUNT_SIZE
      && (imageHandlerState == COPY_IMG_SDC_TO_SDC ==>
            sourceSlot != NONE && targetSlot == Other(sourceSlot))
    }

    ghost predicate IsReset()
      reads this
    {
      && imageHandlerState == IDLE && sourceSlot == targetSlot == NONE
      && stepCounter == currentByteIdx == currentFileSize == errorCount == chunks == lost == 0
    }

    constructor (card: SdCard, imgBuffer: array<bv8>)
      ensures Valid() && IsReset() && this.card == card && this.imgBuffer == imgBuffer
    {
      this.card, this.imgBuffer := card, imgBuffer;
      imageHandlerState, lastFinishedState, sourceSlot, targetSlot := IDLE, IDLE, NONE, NONE;
      stepCounter, currentByteIdx, currentFileSize, errorCount, chunks, lost := 0, 0, 0, 0, 0, 0;
    }

    method Reset()
      modifies this
      ensures Valid() && IsReset() && lastFinishedState == old(lastFinishedState)
    {
      imageHandlerState := IDLE;
      sourceSlot := NONE;
      targetSlot := NONE;
      stepCounter := 0;
      currentByteIdx := 0;
      currentFileSize := 0;
      errorCount := 0;
      chunks, lost := 0, 0;
    }

    /** startSdcToSdcOperation, whatever the engine is doing: the handler calls it in the middle of a
        copy, too, after it has reported that it is busy. */
    method StartSdcToSdcOperation(slot: ImageSlot)
      requires Valid() && slot != NONE
      modifies this`imageHandlerState, this`sourceSlot, this`targetSlot
      ensures Valid() && imageHandlerState == COPY_IMG_SDC_TO_SDC && sourceSlot == slot && targetSlot == Other(slot)
      ensures old(IsReset()) ==> Now() == Start(FileOr(card.files, slot), FileOr(card.files, Other(slot)))
      ensures old(imageHandlerState) == COPY_IMG_SDC_TO_SDC ==>
                Now() == StartedAgain(old(Now()), slot != old(sourceSlot))
    {
      imageHandlerState := COPY_IMG_SDC_TO_SDC;
      sourceSlot := slot;
      if sourceSlot == SDC_SLOT_1 {
        targetSlot := SDC_SLOT_0;
      } else {
        targetSlot := SDC_SLOT_1;
      }
    }

    /** prepareGenericFileInformation, for an image on the card. */
    method PrepareGenericFileInformation(opening: Opening) returns (v: Verdict)
      requires Valid() && imageHandlerState == COPY_IMG_SDC_TO_SDC
      requires opening == Opened || opening == TargetFails ==> sourceSlot in card.files
      modifies this`currentFileSize
      ensures v == (if opening == DirectoryFails || opening == SeekFails then Failed
                    else if opening == SourceFails then NotFound else Continue)
      ensures currentFileSize ==
        if opening != DirectoryFails && stepCounter == 0 then |Now().source| else old(currentFileSize)
    {
      if opening == DirectoryFails {
        return Failed;
      }
      if stepCounter == 0 {
        currentFileSize := |FileOr(card.files, sourceSlot)|;
      }
      if opening == SourceFails {
        return NotFound;
      }
      if opening == SeekFails {
        return Failed;
      }
      return Continue;
    }

    /** What comes before the loop of copySdcImgToSdc. */
    method OpenFiles(opening: Opening) returns (v: Verdict)
      requires Valid() && imageHandlerState == COPY_IMG_SDC_TO_SDC
      requires opening == Opened || opening == TargetFails ==> sourceSlot in card.files
      modifies this`currentFileSize, this`lost, card
      ensures (Now(), v) == Begin(old(Now()), opening)
      ensures v == Continue ==> targetSlot in card.files && sourceSlot in card.files
      ensures Others(card.files, targetSlot) == Others(old(card.files), targetSlot)
    {
      v := PrepareGenericFileInformation(opening);
      if v != Continue {
        return;
      }
      var targetSlotName := if sourceSlot == SDC_SLOT_0 then SDC_SLOT_1 else SDC_SLOT_0;
      if stepCounter == 0 {
        lost := currentByteIdx;
        card.Delete(targetSlotName);
      }
      if opening == TargetFails {
        return Failed;
      }
      card.OpenForAppending(targetSlotName);
    }

    method ReadFile(position: nat, sizeToRead: nat, answer: int) returns (v: Verdict, sizeRead: nat)
      requires sourceSlot in card.files && sizeToRead <= imgBuffer.Length
      modifies this`errorCount, imgBuffer
      ensures sizeRead ==
        BytesRead(Transfer(answer, 0, false), Available(|card.files[sourceSlot]|, position, sizeToRead))
      ensures sizeRead > 0 ==> v == Continue && errorCount == old(errorCount)
      ensures sizeRead > 0 ==> imgBuffer[..sizeRead] == card.files[sourceSlot][position..position + sizeRead]
      ensures sizeRead == 0 ==> errorCount == (old(errorCount) + 1) % ERROR_COUNT_SIZE
      ensures sizeRead == 0 ==> v == if errorCount >= 3 then Failed else TaskPeriodOverSoon
    {
      var bytesRead := card.Read(sourceSlot, position, imgBuffer, sizeToRead, answer);
      if bytesRead <= 0 {
        errorCount := (errorCount + 1) % ERROR_COUNT_SIZE;
        if errorCount >= 3 {
          return Failed, 0;
        }
        return TaskPeriodOverSoon, 0;
      }
      return Continue, bytesRead;
    }

    /** One iteration of the loop, up to the tests at its end. */
    method CopyChunk(position: nat, t: Transfer) returns (v: Verdict)
      requires sourceSlot != targetSlot && sourceSlot in card.files && targetSlot in card.files
      requires position == currentByteIdx && errorCount < ERROR_COUNT_SIZE
      requires stepCounter == Wrapped(chunks)
      modifies this`errorCount, this`currentByteIdx, this`stepCounter, this`chunks, this`lost, imgBuffer, card
      ensures Now() == Chunk(old(Now()), imgBuffer.Length, t).0
      ensures stepCounter == Wrapped(chunks) && errorCount < ERROR_COUNT_SIZE
      ensures v == Continue <==> BytesRead(t, ToRead(old(Now()), imgBuffer.Length)) > 0
      ensures v != Continue ==> v == Chunk(old(Now()), imgBuffer.Length, t).1
      ensures sourceSlot in card.files && targetSlot in card.files
      ensures Others(card.files, targetSlot) == Others(old(card.files), targetSlot)
    {
      hide Chunk, Wrapped, Available, BytesRead, BytesWritten, Others;
      ReadFits(Now(), imgBuffer.Length, t);
      ghost var j := Now();
      var sizeToRead;
      // the difference is unsigned: it wraps around if the index is beyond the size
      if currentFileSize < currentByteIdx || currentFileSize - currentByteIdx > imgBuffer.Length {
        sizeToRead := imgBuffer.Length;
      } else {
        sizeToRead := currentFileSize - currentByteIdx;
      }
      var bytesRead;
      v, bytesRead := ReadFile(position, sizeToRead, t.read);
      if v != Continue {
        FailedChunk(j, imgBuffer.Length, t);
        return;
      }
      AppendChunk(bytesRead, t.written);
      ReadChunk(j, imgBuffer.Length, t);
    }

    method AppendChunk(bytesRead: nat, answer: nat)
      requires sourceSlot != targetSlot && sourceSlot in card.files && targetSlot in card.files &&
        bytesRead <= imgBuffer.Length
      requires stepCounter == Wrapped(chunks)
      modifies this`currentByteIdx, this`stepCounter, this`chunks, this`lost, card
      ensures sourceSlot in card.files && targetSlot in card.files && stepCounter == Wrapped(chunks)
      ensures Others(card.files, targetSlot) == Others(old(card.files), targetSlot)
      ensures var j, written := old(Now()), BytesWritten(Transfer(0, answer, false), bytesRead);
              Now() == j.(target := j.target + imgBuffer[..bytesRead][..written], index := j.index + bytesRead,
                          chunks := j.chunks + 1, lost := j.lost + (bytesRead - written))
    {
      hide Wrapped;
      currentByteIdx := currentByteIdx + bytesRead;
      var bytesWritten := card.Write(targetSlot, imgBuffer, bytesRead, answer);
      assert imgBuffer[..bytesRead][..bytesWritten] == imgBuffer[..bytesWritten];
      lost := lost + (bytesRead - bytesWritten);
      NextStep(chunks);
      stepCounter := (stepCounter + 1) % STEP_COUNTER_SIZE;
      chunks := chunks + 1;
    }

    /** copySdcImgToSdc, with what its files and the clock will do: behind the end of the list, reads
        fail. */
    method CopySdcImgToSdc(opening: Opening, transfers: seq<Transfer>) returns (v: Verdict, ghost k: Job)
      requires Valid() && imageHandlerState == COPY_IMG_SDC_TO_SDC
      requires opening == Opened || opening == TargetFails ==> sourceSlot in card.files
      modifies this, imgBuffer, card
      ensures (k, v) == Call(old(Now()), imgBuffer.Length, opening, transfers) && Valid()
      ensures v != OperationFinished ==> Now() == k
      ensures v != OperationFinished ==> imageHandlerState == old(imageHandlerState)
      ensures v != OperationFinished ==> sourceSlot == old(sourceSlot) && targetSlot == old(targetSlot)
      ensures v == OperationFinished ==> IsReset() && lastFinishedState == COPY_IMG_SDC_TO_SDC
      ensures FileOr(card.files, old(sourceSlot)) == k.source && FileOr(card.files, old(targetSlot)) == k.target
      ensures Others(card.files, old(targetSlot)) == Others(old(card.files), old(targetSlot))
    {
      v := OpenFiles(opening);
      k := Now();
      if v == Continue {
        v, k := CopyLoop(transfers);
      }
    }

    method CopyLoop(transfers: seq<Transfer>) returns (v: Verdict, ghost k: Job)
      requires Valid() && imageHandlerState == COPY_IMG_SDC_TO_SDC
      requires sourceSlot in card.files && targetSlot in card.files
      modifies this, imgBuffer, card
      ensures (k, v) == Loop(old(Now()), imgBuffer.Length, transfers) && Valid() && v != Continue
      ensures v != OperationFinished ==> Now() == k
      ensures v != OperationFinished ==> imageHandlerState == old(imageHandlerState)
      ensures v != OperationFinished ==> sourceSlot == old(sourceSlot) && targetSlot == old(targetSlot)
      ensures v == OperationFinished ==> IsReset() && lastFinishedState == COPY_IMG_SDC_TO_SDC
      ensures FileOr(card.files, old(sourceSlot)) == k.source && FileOr(card.files, old(targetSlot)) == k.target
      ensures Others(card.files, old(targetSlot)) == Others(old(card.files), old(targetSlot))
    {
      hide Chunk, Wrapped, Loop, Others;
      ghost var b := Now();
      assert transfers[0..] == transfers;
      var position, i := currentByteIdx, 0;
      while true
        invariant sourceSlot == old(sourceSlot) && targetSlot == old(targetSlot) && Valid()
        invariant sourceSlot in card.files && targetSlot in card.files
        invariant imageHandlerState == COPY_IMG_SDC_TO_SDC
        invariant Others(card.files, targetSlot) == Others(old(card.files), targetSlot)
        invariant position == currentByteIdx && i <= |transfers|
        invariant Loop(b, imgBuffer.Length, transfers) == Loop(Now(), imgBuffer.Length, transfers[i..])
        decreases currentFileSize - currentByteIdx
      {
        var t := if i < |transfers| then transfers[i] else Transfer(0, 0, true);
        LoopStep(Now(), imgBuffer.Length, transfers, i, t);
        v := CopyChunk(position, t);
        k := Now();
        if v != Continue {
          return;
        }
        if currentByteIdx >= currentFileSize {
          lastFinishedState := imageHandlerState;
          Reset();
          return OperationFinished, k;
        }
        if t.timedOut {
          return TaskPeriodOverSoon, k;
        }
        i, position := i + 1, currentByteIdx;
      }
    }

    /** A whole copy, as SoftwareImageHandler::performStateMachine drives it: a call per period until one
        does not ask to be continued, and then a reset. */
    method CopyImage(slot: ImageSlot, calls: seq<CallInput>) returns (v: Verdict)
      requires Valid() && IsReset() && slot != NONE && slot in card.files
      modifies this, imgBuffer, card
      ensures var (k, w) := Copy(Start(old(card.files)[slot], FileOr(old(card.files), Other(slot))), imgBuffer.Length,
        calls);
              v == w && FileOr(card.files, Other(slot)) == k.target
      ensures v == OperationFinished ==> (FileOr(card.files, Other(slot)) == old(card.files)[slot] <==>
                Harmless(Start(old(card.files)[slot], FileOr(old(card.files), Other(slot))), imgBuffer.Length, calls))
      ensures Others(card.files, Other(slot)) == Others(old(card.files), Other(slot))
      ensures v != TaskPeriodOverSoon ==> Valid() && IsReset()
    {
      hide Call, Wrapped, Harmless;
      StartSdcToSdcOperation(slot);
      ghost var j := Now();
      ghost var k := j;
      if calls != [] { FinishedCopyIsFaithfulExactly(j.source, j.target, imgBuffer.Length, calls); }
      v := TaskPeriodOverSoon;
      var i := 0;
      while i < |calls|
        invariant 0 <= i <= |calls| && v == TaskPeriodOverSoon && k == Now() && slot in card.files
        invariant Valid() && imageHandlerState == COPY_IMG_SDC_TO_SDC && sourceSlot == slot && targetSlot == Other(slot)
        invariant Underway(Now())
        invariant Others(card.files, Other(slot)) == Others(old(card.files), Other(slot))
        invariant Copy(j, imgBuffer.Length, calls) == Copy(Now(), imgBuffer.Length, calls[i..])
      {
        var o, ts := calls[i].opening, calls[i].transfers;
        CallKeeps(Now(), imgBuffer.Length, o, ts);
        CallProgress(Now(), imgBuffer.Length, o, ts);
        assert calls[i..][1..] == calls[i+1..];
        assert slot in Others(card.files, Other(slot));
        v, k := CopySdcImgToSdc(o, ts);
        assert slot in Others(card.files, Other(slot));
        if v != TaskPeriodOverSoon {
          Reset();
          return;
        }
        i := i + 1;
      }
    }
  }

  lemma ReadFits(j: Job, buffer: nat, t: Transfer)
    ensures BytesRead(t, ToRead(j, buffer)) <= buffer
    ensures forall a: int, b: nat, c: bool, n: nat ::
      BytesRead(Transfer(a, b, c), n) == BytesRead(Transfer(a, 0, false), n)
    ensures forall a: int, b: nat, c: bool, n: nat ::
      BytesWritten(Transfer(a, b, c), n) == BytesWritten(Transfer(0, b, false), n)
  {
  }

  lemma LoopStep(j: Job, buffer: nat, ts: seq<Transfer>, i: nat, t: Transfer)
    requires i <= |ts|
    requires t == if i < |ts| then ts[i] else Transfer(0, 0, true)
    ensures var (k, v) := Chunk(j, buffer, t);
            && (v == Continue ==> i < |ts|) && k.size == j.size
            && Loop(j, buffer, ts[i..]) == (if v == Continue then Loop(k, buffer, ts[i+1..]) else (k, v))
            && (BytesRead(t, ToRead(j, buffer)) == 0 ==> v != Continue && v != OperationFinished)
            && (BytesRead(t, ToRead(j, buffer)) > 0 ==> k.index > j.index && v == AtEndOfChunk(k, t))
  {
    if i < |ts| { assert ts[i..][1..] == ts[i+1..]; }
  }

  lemma NextStep(chunks: nat)
    ensures (Wrapped(chunks) + 1) % STEP_COUNTER_SIZE == Wrapped(chunks + 1)
  {
  }

  lemma FailedChunk(j: Job, buffer: nat, t: Transfer)
    requires BytesRead(t, ToRead(j, buffer)) == 0
    ensures var errors := (j.errors + 1) % ERROR_COUNT_SIZE;
            Chunk(j, buffer, t) == (j.(errors := errors), if errors >= 3 then Failed else TaskPeriodOverSoon)
  {
  }

  lemma ReadChunk(j: Job, buffer: nat, t: Transfer)
    requires BytesRead(t, ToRead(j, buffer)) > 0
    ensures j.index + BytesRead(t, ToRead(j, buffer)) <= |j.source|
    ensures var read := BytesRead(t, ToRead(j, buffer));
            var written := BytesWritten(t, read);
            && Chunk(j, buffer, t).0 ==
              j.(target := j.target + j.source[j.index..j.index + read][..written], index := j.index + read,
                                           chunks := j.chunks + 1, lost := j.lost + (read - written))
            && Chunk(j, buffer, t).1 == (if j.index + read >= j.size then OperationFinished
                                         else if t.timedOut then TaskPeriodOverSoon else Continue)
  {
    var read := BytesRead(t, ToRead(j, buffer));
    var written := BytesWritten(t, read);
    assert j.source[j.index..j.index + read][..written] == j.source[j.index..j.index + written];
  }
}
