/** drivers/123_Open/upload.go: slices are read one after the other from a single file cursor, which
    is not moved past slices that are completed already. A resumed run does not hash the file again. */
module Pan123 {
  import opened UploadPlan
  import opened Wrappers

  const PERSIST_EVERY := 5

  datatype Request = Request(parentID: string, targetName: string)

  datatype Checkpoint = Checkpoint(parentID: string, targetName: string, fileSize: int, fileMD5: string,
                                   preuploadID: string, sliceSize: int, servers: seq<string>, completedSlices: set<nat>)

  /** `normalizePan123ResumeState`, as called before the file is hashed. */
  predicate Accepted(c: Checkpoint, req: Request, fileSize: int) {
    && c.parentID == req.parentID && c.targetName == req.targetName && c.fileSize == fileSize
    && c.preuploadID != "" && c.sliceSize > 0 && c.fileMD5 != "" && c.servers != []
  }

  /** A checkpoint is accepted for one parent, name and size only; the content is not looked at. */
  lemma AcceptedForSame(c: Checkpoint, req: Request, fileSize: int, other: Request, otherSize: int)
    requires Accepted(c, req, fileSize)
    ensures Accepted(c, other, otherSize) <==> other == req && otherSize == fileSize
    ensures c.preuploadID != "" && c.sliceSize > 0 && c.fileMD5 != "" && c.servers != []
  {
  }

  /** All checkpoints handed out since are for this request and size. */
  ghost predicate IssuedFor(before: set<Checkpoint>, issued: set<Checkpoint>, req: Request, fileSize: nat) {
    && before <= issued
    && forall c :: c in issued - before ==> c.parentID == req.parentID && c.targetName == req.targetName && c.fileSize == fileSize
  }

  lemma IssuedJoin(a: set<Checkpoint>, b: set<Checkpoint>, c: set<Checkpoint>, req: Request, fileSize: nat)
    requires IssuedFor(a, b, req, fileSize) && IssuedFor(b, c, req, fileSize)
    ensures IssuedFor(a, c, req, fileSize)
  {
  }

  // ----- where each slice is read from -----

  /** The first slice not completed, or 1 when there is none. */
  function StartSlice(completed: set<nat>, total: nat): (start: nat)
    ensures start >= 1
    ensures (exists n :: 1 <= n <= total && n !in completed) ==>
              start <= total && start !in completed && forall m :: 1 <= m < start ==> m in completed
    ensures (forall n :: 1 <= n <= total ==> n in completed) ==> start == 1
  {
    FirstMissing(completed, total, 1)
  }

  function FirstMissing(completed: set<nat>, total: nat, from: nat): (start: nat)
    requires 1 <= from && forall m :: 1 <= m < from ==> m in completed
    ensures start >= 1
    ensures (exists n :: 1 <= n <= total && n !in completed) ==>
              start <= total && start !in completed && forall m :: 1 <= m < start ==> m in completed
    ensures (forall n :: 1 <= n <= total ==> n in completed) ==> start == 1
    decreases total + 1 - from
  {
    if from > total then 1
    else if from !in completed then from
    else FirstMissing(completed, total, from + 1)
  }

  /** How many of the slices [from, until) are missing: each moves the cursor by one slice. */
  function Missing(completed: set<nat>, from: nat, until: nat): (k: nat)
    ensures from <= until ==> k <= until - from
    decreases until
  {
    if until <= from then 0 else Missing(completed, from, until - 1) + (if until - 1 in completed then 0 else 1)
  }

  /** The slice number whose bytes are read when slice n is due. */
  function ReadIndex(completed: set<nat>, total: nat, n: nat): nat {
    StartSlice(completed, total) + Missing(completed, StartSlice(completed, total), n)
  }

  /** No completed slice lies between two missing ones. */
  ghost predicate NoHole(completed: set<nat>, total: nat) {
    forall l, m, n :: 1 <= l < m < n <= total && l !in completed && n !in completed ==> m !in completed
  }

  lemma {:induction false} MissingAll(completed: set<nat>, from: nat, until: nat)
    requires from <= until && forall m :: from <= m < until ==> m !in completed
    ensures Missing(completed, from, until) == until - from
  {
    if from < until {
      MissingAll(completed, from, until - 1);
    }
  }

  lemma {:induction false} MissingFewer(completed: set<nat>, from: nat, until: nat, m: nat)
    requires from <= m < until && m in completed
    ensures Missing(completed, from, until) < until - from
    decreases until
  {
    if m < until - 1 {
      MissingFewer(completed, from, until - 1, m);
    }
  }

  /** Every missing slice is read from its own place exactly when no completed slice lies between
      two missing ones. */
  lemma CursorIsRightExactlyWithoutHole(completed: set<nat>, total: nat)
    ensures (forall n :: 1 <= n <= total && n !in completed ==> ReadIndex(completed, total, n) == n)
            <==> NoHole(completed, total)
  {
    var start := StartSlice(completed, total);
    if NoHole(completed, total) {
      forall n | 1 <= n <= total && n !in completed
        ensures ReadIndex(completed, total, n) == n
      {
        assert start <= n;
        MissingAll(completed, start, n);
      }
    } else {
      var l, m, n :| 1 <= l < m < n <= total && l !in completed && n !in completed && m in completed;
      assert start <= l;
      MissingFewer(completed, start, n, m);
      assert ReadIndex(completed, total, n) < n;
    }
  }

  /** The bytes that are read when slice n is due. */
  function Chunk(file: Bytes, sliceSize: int, completed: set<nat>, total: nat, n: nat): (chunk: Bytes)
    requires sliceSize > 0 && 1 <= n
  {
    var r := ReadIndex(completed, total, n);
    var lo := Min((r - 1) * sliceSize, |file|);
    var hi := Min(lo + PartLen(|file|, sliceSize, n), |file|);
    Offsets(r, sliceSize);
    file[lo..hi]
  }

  lemma ChunkIsPart(file: Bytes, sliceSize: int, completed: set<nat>, total: nat, n: nat)
    requires sliceSize > 0 && 1 <= n && ReadIndex(completed, total, n) == n
    ensures Chunk(file, sliceSize, completed, total, n) == Part(file, sliceSize, n)
  {
    Offsets(n, sliceSize);
  }

  /** A completed set that is a prefix, as every run keeps it, has no hole. */
  lemma PrefixHasNoHole(k: nat, total: nat)
    ensures NoHole(FirstParts(k), total)
    ensures k < total ==> StartSlice(FirstParts(k), total) == k + 1
  {
    if k < total {
      assert k + 1 !in FirstParts(k);
    }
  }

  // ----- the upload loop -----

  /** A slice may be stored although its reply never arrives. */
  datatype PutReply = Stored | StoredButLost | Refused

  /** The completed slices together with all slices from `start` up to, not including, `stop`. */
  function Extended(completed: set<nat>, start: nat, stop: nat): (all: set<nat>)
    ensures forall n :: n in all <==> n in completed || start <= n < stop
    decreases stop
  {
    if stop <= start then completed else Extended(completed, start, stop - 1) + {stop - 1}
  }

  ghost predicate IsExtension(all: set<nat>, completed: set<nat>, total: nat) {
    var start := StartSlice(completed, total);
    exists stop :: start <= stop <= total + 1 && all == Extended(completed, start, stop)
  }

  /** What a run may leave in the session: what was there, and for missing slices what it read. */
  ghost predicate Puts(before: map<nat, Bytes>, after: map<nat, Bytes>, file: Bytes, sliceSize: int,
                       completed: set<nat>, total: nat)
    requires sliceSize > 0
  {
    && (forall n :: n in before ==> n in after)
    && (forall n :: n in after ==>
          || (n in before && after[n] == before[n])
          || (1 <= n <= total && n !in completed && after[n] == Chunk(file, sliceSize, completed, total, n)))
  }

  /** Moreover each newly completed slice is stored as it was read. */
  ghost predicate Left(before: map<nat, Bytes>, after: map<nat, Bytes>, file: Bytes, sliceSize: int,
                       completed0: set<nat>, total: nat, completed: set<nat>)
    requires sliceSize > 0
  {
    && Puts(before, after, file, sliceSize, completed0, total)
    && forall n :: n in completed && n !in completed0 ==>
         1 <= n && n in after && after[n] == Chunk(file, sliceSize, completed0, total, n)
  }

  /** Where the file cursor stands when slice n is due. */
  function CursorAt(completed: set<nat>, total: nat, n: nat, sliceSize: int): int {
    (ReadIndex(completed, total, n) - 1) * sliceSize
  }

  lemma CursorMoves(completed: set<nat>, total: nat, n: nat, sliceSize: int)
    requires sliceSize > 0 && n >= StartSlice(completed, total)
    ensures CursorAt(completed, total, n + 1, sliceSize)
            == CursorAt(completed, total, n, sliceSize) + (if n in completed then 0 else sliceSize)
  {
    Offsets(ReadIndex(completed, total, n), sliceSize);
  }

  /** What is read at the cursor for slice n: all of it is there, since the cursor is never
      beyond the slice's own place. */
  method ReadSlice(file: Bytes, sliceSize: int, ghost completed: set<nat>, total: nat, n: nat, cursor0: int)
    returns (chunk: Bytes, cursor: int)
    requires sliceSize > 0 && total == PartCount(|file|, sliceSize)
    requires StartSlice(completed, total) <= n <= total && n !in completed
    requires cursor0 == CursorAt(completed, total, n, sliceSize)
    ensures chunk == Chunk(file, sliceSize, completed, total, n)
    ensures n < total ==> cursor == CursorAt(completed, total, n + 1, sliceSize)
  {
    var remain := |file| - (n - 1) * sliceSize;
    var chunkLen := sliceSize;
    if remain < chunkLen {
      chunkLen := remain;
    }
    ghost var r := ReadIndex(completed, total, n);
    MulMonotone(r - 1, n - 1, sliceSize);
    Offsets(r, sliceSize);
    SliceFits(|file|, sliceSize, n);
    CursorMoves(completed, total, n, sliceSize);
    chunk, cursor := file[cursor0..cursor0 + chunkLen], cursor0 + chunkLen;
  }

  /** Slice n lies within the file, and only the last one may be short. */
  lemma SliceFits(size: nat, sliceSize: int, n: nat)
    requires sliceSize > 0 && 1 <= n <= PartCount(size, sliceSize)
    ensures 0 <= (n - 1) * sliceSize <= size
    ensures n < PartCount(size, sliceSize) ==> (n - 1) * sliceSize + sliceSize <= size
  {
    var total := PartCount(size, sliceSize);
    Offsets(n, sliceSize);
    MulMonotone(n - 1, total - 1, sliceSize);
    if n < total {
      MulMonotone(n, total - 1, sliceSize);
    }
  }

  /** The search for the first slice to upload. */
  method FindStart(completed: set<nat>, total: nat) returns (start: nat)
    ensures start == StartSlice(completed, total)
  {
    start := 1;
    while start <= total
      invariant 1 <= start <= total + 1
      invariant forall m :: 1 <= m < start ==> m in completed
      invariant StartSlice(completed, total) == FirstMissing(completed, total, start)
    {
      if start !in completed {
        return;
      }
      start := start + 1;
    }
    start := 1;
  }

  lemma PutOne(before: map<nat, Bytes>, after: map<nat, Bytes>, file: Bytes, sliceSize: int, completed0: set<nat>,
               total: nat, completed: set<nat>, n: nat)
    requires sliceSize > 0 && Left(before, after, file, sliceSize, completed0, total, completed)
    requires 1 <= n <= total && n !in completed0
    ensures Left(before, Store(after, n, Chunk(file, sliceSize, completed0, total, n)), file, sliceSize, completed0, total, completed)
    ensures Left(before, Store(after, n, Chunk(file, sliceSize, completed0, total, n)), file, sliceSize, completed0, total, completed + {n})
  {
  }

  /** The missing slices from `start` up to, not including, `stop` were all stored. */
  ghost predicate StoredUpTo(completed0: set<nat>, completed: set<nat>, start: nat, stop: nat, replies: nat -> PutReply) {
    && completed == Extended(completed0, start, stop)
    && forall n :: start <= n < stop && n !in completed0 ==> replies(n) == Stored
  }

  /** The loop goes on up to the first missing slice whose put does not succeed. */
  ghost predicate Stops(completed0: set<nat>, completed: set<nat>, total: nat, replies: nat -> PutReply, ok: bool) {
    var start := StartSlice(completed0, total);
    if ok then start <= total + 1 && StoredUpTo(completed0, completed, start, total + 1, replies)
    else exists n :: start <= n <= total && n !in completed0 && replies(n) != Stored && StoredUpTo(completed0, completed, start, n, replies)
  }

  lemma StoredOneMore(completed0: set<nat>, completed: set<nat>, start: nat, n: nat, replies: nat -> PutReply)
    requires start <= n && StoredUpTo(completed0, completed, start, n, replies)
    ensures n in completed ==> n in completed0 && StoredUpTo(completed0, completed, start, n + 1, replies)
    ensures replies(n) == Stored ==> StoredUpTo(completed0, completed + {n}, start, n + 1, replies)
    ensures n !in completed ==> n !in completed0
  {
    ExtendOne(completed0, start, n);
  }

  lemma StopsAt(completed0: set<nat>, completed: set<nat>, total: nat, start: nat, n: nat, replies: nat -> PutReply,
                ok: bool)
    requires start == StartSlice(completed0, total) && StoredUpTo(completed0, completed, start, n, replies) && start <= n
    requires if ok then n == total + 1 else n <= total && n !in completed0 && replies(n) != Stored
    ensures Stops(completed0, completed, total, replies, ok)
  {
  }

  lemma SliceTotal(size: nat, sliceSize: int)
    requires sliceSize > 0
    ensures var total := (size + sliceSize - 1) / sliceSize;
            PartCount(size, sliceSize) == if total <= 0 then 1 else total
  {
  }

  lemma LoopStarts(file: Bytes, sliceSize: int, completed: set<nat>, stored: map<nat, Bytes>, total: nat,
                   replies: nat -> PutReply)
    requires sliceSize > 0
    ensures Left(stored, stored, file, sliceSize, completed, total, completed)
    ensures var start := StartSlice(completed, total);
            && start <= total + 1 && completed == Extended(completed, start, start)
            && StoredUpTo(completed, completed, start, start, replies)
            && (start - 1) * sliceSize == CursorAt(completed, total, start, sliceSize)
  {
    StartWithin(completed, total);
  }

  lemma StartWithin(completed: set<nat>, total: nat)
    ensures StartSlice(completed, total) <= total + 1
  {
    if n: nat :| 1 <= n <= total && n !in completed {
    }
  }

  /** A checkpoint is handed out after every fifth slice. */
  predicate PersistDue(sliceNo: nat) {
    sliceNo % PERSIST_EVERY == 0
  }

  /** After each fifth slice that was put the completed set is handed out. */
  ghost predicate FifthsUpTo(checkpoints: seq<set<nat>>, completed0: set<nat>, start: nat, stop: nat) {
    forall n :: start <= n < stop && n !in completed0 && n % 5 == 0 ==> Extended(completed0, start, n + 1) in checkpoints
  }

  ghost predicate FifthsKept(checkpoints: seq<set<nat>>, completed0: set<nat>, completed: set<nat>, total: nat) {
    forall n :: 1 <= n <= total && n in completed && n !in completed0 && n % 5 == 0 ==>
      Extended(completed0, StartSlice(completed0, total), n + 1) in checkpoints
  }

  lemma NoFifths(completed0: set<nat>, start: nat)
    ensures FifthsUpTo([], completed0, start, start)
  {
  }

  lemma OneFifth(checkpoints: seq<set<nat>>, more: seq<set<nat>>, completed0: set<nat>, start: nat, n: nat)
    requires FifthsUpTo(checkpoints, completed0, start, n) && start <= n
    requires if n in completed0 || !PersistDue(n) then more == checkpoints else more == checkpoints + [Extended(completed0, start, n + 1)]
    ensures FifthsUpTo(more, completed0, start, n + 1)
  {
    hide Extended;
    forall k | start <= k < n + 1 && k !in completed0 && k % 5 == 0
      ensures Extended(completed0, start, k + 1) in more
    {
      assert k < n ==> Extended(completed0, start, k + 1) in checkpoints;
    }
  }

  lemma FifthsAre(checkpoints: seq<set<nat>>, last: set<nat>, completed0: set<nat>, total: nat, stop: nat)
    requires FifthsUpTo(checkpoints, completed0, StartSlice(completed0, total), stop)
    ensures FifthsKept(checkpoints + [last], completed0, Extended(completed0, StartSlice(completed0, total), stop), total)
  {
    hide StartSlice;
  }

  /** `uploadFileSlices`, for any set of completed slices. `checkpoints` are the completed sets it
      hands to the resume-state callback, the last one on every way out. */
  method UploadFileSlices(file: Bytes, sliceSize: int, completed0: set<nat>, stored0: map<nat, Bytes>,
                          replies: nat -> PutReply)
    returns (ok: bool, completed: set<nat>, stored: map<nat, Bytes>, checkpoints: seq<set<nat>>)
    requires sliceSize > 0
    ensures var total := PartCount(|file|, sliceSize);
            && Left(stored0, stored, file, sliceSize, completed0, total, completed)
            && IsExtension(completed, completed0, total)
            && (ok ==> forall n :: 1 <= n <= total ==> n in completed)
            && |checkpoints| > 0 && checkpoints[|checkpoints| - 1] == completed
            && (forall c :: c in checkpoints ==> c <= completed && IsExtension(c, completed0, total))
            && Stops(completed0, completed, total, replies, ok)
    ensures FifthsKept(checkpoints, completed0, completed, PartCount(|file|, sliceSize))
    ensures (forall n :: replies(n) == Stored) ==> ok
  {
    hide *;
    var totalSlices := (|file| + sliceSize - 1) / sliceSize;
    if totalSlices <= 0 {
      totalSlices := 1;
    }
    SliceTotal(|file|, sliceSize);
    completed, stored, checkpoints := completed0, stored0, [];
    var startSlice := FindStart(completed, totalSlices);
    var cursor := (startSlice - 1) * sliceSize;
    var sliceNo: nat := startSlice;
    ok := true;
    LoopStarts(file, sliceSize, completed, stored, totalSlices, replies);
    NoFifths(completed0, startSlice);
    while ok && sliceNo <= totalSlices
      invariant startSlice <= sliceNo <= totalSlices + 1
      invariant ok && sliceNo <= totalSlices ==> cursor == CursorAt(completed0, totalSlices, sliceNo, sliceSize)
      invariant completed == Extended(completed0, startSlice, sliceNo)
      invariant Left(stored0, stored, file, sliceSize, completed0, totalSlices, completed)
      invariant forall c :: c in checkpoints ==> c <= completed && IsExtension(c, completed0, totalSlices)
      invariant StoredUpTo(completed0, completed, startSlice, sliceNo, replies)
      invariant FifthsUpTo(checkpoints, completed0, startSlice, sliceNo)
      invariant !ok ==> sliceNo <= totalSlices && sliceNo !in completed0 && replies(sliceNo) != Stored
      decreases ok, totalSlices + 1 - sliceNo
    {
      StoredOneMore(completed0, completed, startSlice, sliceNo, replies);
      if sliceNo in completed {
        CursorMoves(completed0, totalSlices, sliceNo, sliceSize);
        ExtendOne(completed0, startSlice, sliceNo);
        OneFifth(checkpoints, checkpoints, completed0, startSlice, sliceNo);
        sliceNo := sliceNo + 1;
        continue;
      }
      var chunk;
      chunk, cursor := ReadSlice(file, sliceSize, completed0, totalSlices, sliceNo, cursor);
      var reply := replies(sliceNo);
      if reply != Refused {
        PutOne(stored0, stored, file, sliceSize, completed0, totalSlices, completed, sliceNo);
        stored := Store(stored, sliceNo, chunk);
      }
      if reply != Stored {
        ok := false;
        continue;
      }
      ExtendOne(completed0, startSlice, sliceNo);
      completed := completed + {sliceNo};
      ExtendedIsExtension(completed0, totalSlices, sliceNo + 1);
      ghost var before := checkpoints;
      if PersistDue(sliceNo) {
        checkpoints := checkpoints + [completed];
      }
      OneFifth(before, checkpoints, completed0, startSlice, sliceNo);
      sliceNo := sliceNo + 1;
    }
    ExtendedIsExtension(completed0, totalSlices, sliceNo);
    StopsAt(completed0, completed, totalSlices, startSlice, sliceNo, replies, ok);
    FifthsAre(checkpoints, completed, completed0, totalSlices, sliceNo);
    checkpoints := checkpoints + [completed];
  }

  lemma ExtendedIsExtension(completed: set<nat>, total: nat, stop: nat)
    requires StartSlice(completed, total) <= stop <= total + 1
    ensures IsExtension(Extended(completed, StartSlice(completed, total), stop), completed, total)
  {
  }

  lemma ExtendOne(completed: set<nat>, start: nat, n: nat)
    requires start <= n
    ensures Extended(completed, start, n + 1) == Extended(completed, start, n) + {n}
    ensures n in completed ==> Extended(completed, start, n + 1) == Extended(completed, start, n)
  {
  }

  // ----- whole attempts -----

  datatype CreateReply = CreateFails | Reused | Created(preuploadID: string, sliceSize: int, servers: seq<string>)

  /** The look-up of a file of that name in the target directory, made only under the policy `skip`. */
  datatype Lookup = LookupFails | Found | NotFound

  datatype Env = Env(skip: bool, lookup: Lookup, readable: bool, create: CreateReply, put: nat -> PutReply)

  /** The policy ends the attempt before anything else, with or without a checkpoint. */
  predicate PolicyStops(env: Env) {
    env.skip && env.lookup != NotFound
  }

  /** The service opens a session. */
  predicate Creates(env: Env) {
    env.readable && env.create.Created? && env.create.preuploadID != "" && env.create.sliceSize > 0 && env.create.servers != []
  }

  predicate IsAccepted(state: Option<Checkpoint>, req: Request, file: Bytes) {
    state.Some? && Accepted(state.value, req, |file|)
  }

  /** The slices an attempt takes to be completed: those of the checkpoint, if it is accepted. */
  function DoneBefore(state: Option<Checkpoint>, req: Request, file: Bytes): set<nat> {
    if IsAccepted(state, req, file) then state.value.completedSlices else {}
  }

  lemma AcceptedMeans(state: Option<Checkpoint>, req: Request, file: Bytes)
    ensures IsAccepted(state, req, file) ==>
              && state.Some? && DoneBefore(state, req, file) == state.value.completedSlices
              && state.value.parentID == req.parentID && state.value.targetName == req.targetName && state.value.fileSize == |file|
              && state.value.sliceSize > 0
    ensures !IsAccepted(state, req, file) ==> DoneBefore(state, req, file) == FirstParts(0)
  {
    assert FirstParts(0) == {};
  }

  datatype Outcome = Failed | Skipped | RapidUpload | CompleteSent(preuploadID: string)

  datatype Attempt = Attempt(req: Request, state: Option<Checkpoint>, env: Env)

  /** An environment in which no call fails. */
  ghost predicate Helpful(env: Env) {
    && env.lookup != LookupFails && env.readable && !env.create.CreateFails? && (forall n :: env.put(n) == Stored)
    && (env.create.Created? ==> env.create.preuploadID != "" && env.create.sliceSize > 0 && env.create.servers != [])
  }

  lemma NoneHeld(stored: map<nat, Bytes>, file: Bytes, sliceSize: int)
    requires sliceSize > 0
    ensures HoldsParts(stored, file, sliceSize, 0)
  {
  }

  lemma HelpfulMeans(env: Env)
    ensures Helpful(env) ==> env.lookup != LookupFails && forall n :: env.put(n) == Stored
  {
  }

  class Pan123 {
    const md5: Bytes -> string
    var sessions: map<string, map<nat, Bytes>>
    var issued: set<Checkpoint>
    /** The file size and slice size each session was created for. */
    ghost var plan: map<string, (nat, int)>

    /** The completed slices of a checkpoint are 1..k for some k, and they are stored. */
    ghost predicate CheckpointHolds(c: Checkpoint)
      reads this`sessions, this`plan
    {
      && c.preuploadID in sessions && c.preuploadID in plan
      && (c.fileSize, c.sliceSize) == plan[c.preuploadID] && c.sliceSize > 0
      && IsPrefix(c.completedSlices, PartCount(plan[c.preuploadID].0, c.sliceSize))
      && forall n :: n in c.completedSlices ==> n in sessions[c.preuploadID]
    }

    ghost predicate Valid()
      reads this
    {
      && plan.Keys == sessions.Keys
      && (forall s :: s in sessions ==> plan[s].1 > 0 && RightLengths(sessions[s], plan[s].0, plan[s].1))
      && (forall c :: c in issued ==> CheckpointHolds(c))
    }

    constructor (md5: Bytes -> string)
      ensures Valid() && issued == {} && sessions == map[] && this.md5 == md5
    {
      this.md5, sessions, issued, plan := md5, map[], {}, map[];
    }

    /** Hand a completed set to the resume-state callback. */
    method Persist(req: Request, fileSize: nat, fileMD5: string, session: string, sliceSize: int, servers: seq<string>,
                   completed: set<nat>)
      requires Valid() && session in sessions && plan[session] == (fileSize, sliceSize) && sliceSize > 0
      requires IsPrefix(completed, PartCount(fileSize, sliceSize))
      requires forall n :: n in completed ==> n in sessions[session]
      modifies this`issued
      ensures Valid() && IssuedFor(old(issued), issued, req, fileSize)
      ensures Checkpoint(req.parentID, req.targetName, fileSize, fileMD5, session, sliceSize, servers, completed) in issued
    {
      var c := Checkpoint(req.parentID, req.targetName, fileSize, fileMD5, session, sliceSize, servers, completed);
      assert CheckpointHolds(c);
      issued := issued + {c};
    }

    /** What a run put into a session keeps the lengths right, and puts slices of `file` only. */
    method KeepSession(file: Bytes, session: string, sliceSize: int, stored: map<nat, Bytes>, ghost k: nat)
      requires Valid() && session in sessions && sliceSize > 0 && plan[session] == (|file|, sliceSize)
      requires Puts(sessions[session], stored, file, sliceSize, FirstParts(k), PartCount(|file|, sliceSize))
      modifies this`sessions
      ensures Valid() && sessions == old(sessions)[session := stored]
      ensures old(OnlyFrom(file)) ==> OnlyFrom(file)
    {
      PutsAreParts(sessions[session], stored, file, sliceSize, k);
      sessions := sessions[session := stored];
    }

    method PersistAll(req: Request, fileSize: nat, fileMD5: string, session: string, sliceSize: int,
                      servers: seq<string>, checkpoints: seq<set<nat>>)
      requires Valid() && session in sessions && plan[session] == (fileSize, sliceSize) && sliceSize > 0
      requires forall c :: c in checkpoints ==> IsPrefix(c, PartCount(fileSize, sliceSize)) && forall n :: n in c ==> n in sessions[session]
      modifies this`issued
      ensures Valid() && IssuedFor(old(issued), issued, req, fileSize)
      ensures forall c :: c in checkpoints ==>
                Checkpoint(req.parentID, req.targetName, fileSize, fileMD5, session, sliceSize, servers, c) in issued
    {
      for i := 0 to |checkpoints|
        invariant Valid() && IssuedFor(old(issued), issued, req, fileSize)
        invariant forall c :: c in checkpoints[..i] ==>
                    Checkpoint(req.parentID, req.targetName, fileSize, fileMD5, session, sliceSize, servers, c) in issued
      {
        assert checkpoints[i] in checkpoints;
        Persist(req, fileSize, fileMD5, session, sliceSize, servers, checkpoints[i]);
      }
      assert checkpoints[..|checkpoints|] == checkpoints;
    }

    /** The upload of the slices of one session, from its completed slices 1..k on, with the
        checkpoints the loop hands out. */
    method UploadSession(req: Request, file: Bytes, fileMD5: string, session: string, sliceSize: int,
                         servers: seq<string>, completed0: set<nat>, ghost k: nat, env: Env)
      returns (ok: bool, completed: set<nat>)
      requires Valid() && session in sessions && sliceSize > 0 && plan[session] == (|file|, sliceSize)
      requires completed0 == FirstParts(k) && k <= PartCount(|file|, sliceSize)
      requires forall n :: 1 <= n <= k ==> n in sessions[session]
      modifies this`sessions, this`issued
      ensures Valid() && IssuedFor(old(issued), issued, req, |file|) && session in sessions
      ensures old(OnlyFrom(file)) ==> OnlyFrom(file)
      ensures ok ==> Filled(old(sessions)[session], sessions[session], file, sliceSize, k)
      ensures Stops(completed0, completed, PartCount(|file|, sliceSize), env.put, ok)
      ensures Checkpoint(req.parentID, req.targetName, |file|, fileMD5, session, sliceSize, servers, completed) in issued
      ensures (forall n :: env.put(n) == Stored) ==> ok
      ensures sessions.Keys == old(sessions).Keys
    {
      var stored, checkpoints;
      ghost var before, total := sessions[session], PartCount(|file|, sliceSize);
      ok, completed, stored, checkpoints := UploadFileSlices(file, sliceSize, completed0, sessions[session], env.put);
      KeepSession(file, session, sliceSize, stored, k);
      forall c | c in checkpoints
        ensures IsPrefix(c, total) && forall n :: n in c ==> n in stored
      {
        ExtensionOfPrefix(c, k, total);
      }
      PersistAll(req, |file|, fileMD5, session, sliceSize, servers, checkpoints);
      if ok {
        NewSlicesAreParts(before, stored, file, sliceSize, k, completed);
      }
    }

    /** The session to continue, as the checkpoint names it, or a new one. */
    method OpenSession(req: Request, file: Bytes, state: Option<Checkpoint>, env: Env)
      returns (stop: Option<Outcome>, session: string, sliceSize: int, servers: seq<string>, fileMD5: string,
               completed: set<nat>, ghost k: nat)
      requires Valid() && (state.Some? ==> state.value in issued)
      requires env.create.Created? ==> env.create.preuploadID !in sessions
      modifies this`sessions, this`issued, this`plan
      ensures Valid() && IssuedFor(old(issued), issued, req, |file|)
      ensures old(OnlyFrom(file)) ==> OnlyFrom(file)
      ensures stop == None && !IsAccepted(state, req, file) ==>
                Checkpoint(req.parentID, req.targetName, |file|, fileMD5, session, sliceSize, servers, {}) in issued
      ensures !PolicyStops(env) && !IsAccepted(state, req, file) && env.readable && env.create.Reused? ==>
                stop == Some(RapidUpload)
      ensures stop.Some? ==> !stop.value.CompleteSent? && k == 0
      ensures stop == Some(Skipped) ==> env.skip && env.lookup == Found
      ensures stop == None ==> session in sessions && sliceSize > 0 && plan[session] == (|file|, sliceSize)
      ensures stop == None ==> completed == FirstParts(k) && k <= PartCount(|file|, sliceSize)
      ensures stop == None ==> forall n :: 1 <= n <= k ==> n in sessions[session]
      ensures stop == None ==> k == 0 || (session in old(sessions) && sessions[session] == old(sessions)[session])
      ensures PolicyStops(env) ==> stop == Some(if env.lookup == Found then Skipped else Failed)
      ensures !PolicyStops(env) ==> stop != Some(Skipped)
      ensures IsAccepted(state, req, file) && !PolicyStops(env) ==>
                && stop == None && session == state.value.preuploadID && completed == state.value.completedSlices
                && fileMD5 == state.value.fileMD5 && sliceSize == state.value.sliceSize && servers == state.value.servers
      ensures Creates(env) && !PolicyStops(env) && !IsAccepted(state, req, file) ==> stop == None
      ensures stop == None && !IsAccepted(state, req, file) ==>
                && k == 0 && fileMD5 == md5(file) && env.create == Created(session, sliceSize, servers) && session !in old(sessions)
                && session != "" && servers != []
      ensures (forall s :: s in sessions ==> s in old(sessions) || (env.create.Created? && s == env.create.preuploadID))
      ensures Helpful(env) ==> stop != Some(Failed)
      ensures stop == Some(RapidUpload) ==> env.create.Reused?
    {
      stop, session, sliceSize, servers, fileMD5, completed, k := Some(Failed), "", 1, [], "", {}, 0;
      if env.skip {
        if env.lookup == LookupFails {
          return;
        }
        if env.lookup == Found {
          stop := Some(Skipped);
          return;
        }
      }
      if state.Some? && Accepted(state.value, req, |file|) {
        var c := state.value;
        assert CheckpointHolds(c);
        k := PrefixIsFirstParts(c.completedSlices, PartCount(|file|, c.sliceSize));
        session, sliceSize, servers, fileMD5, completed := c.preuploadID, c.sliceSize, c.servers, c.fileMD5, c.completedSlices;
        stop := None;
        return;
      }
      if !env.readable || env.create.CreateFails? {
        return;
      }
      fileMD5 := md5(file);
      if env.create.Reused? {
        stop := Some(RapidUpload);
        return;
      }
      if env.create.preuploadID == "" || env.create.sliceSize <= 0 || env.create.servers == [] {
        return;
      }
      session, sliceSize, servers := env.create.preuploadID, env.create.sliceSize, env.create.servers;
      sessions, plan := sessions[session := map[]], plan[session := (|file|, sliceSize)];
      Persist(req, |file|, fileMD5, session, sliceSize, servers, completed);
      stop := None;
    }

    /** The checkpoint goes on from the one handed over if that was accepted, and from a new session
        otherwise, up to where the attempt stopped. */
    ghost predicate Continues(c: Checkpoint, req: Request, file: Bytes, state: Option<Checkpoint>, env: Env, ok: bool) {
      && c.sliceSize > 0 && Stops(DoneBefore(state, req, file), c.completedSlices, PartCount(|file|, c.sliceSize), env.put, ok)
      && if IsAccepted(state, req, file) then c == state.value.(completedSlices := c.completedSlices)
         else
           && env.create == Created(c.preuploadID, c.sliceSize, c.servers) && c.preuploadID != "" && c.servers != []
           && c.fileMD5 == md5(file) && c.parentID == req.parentID && c.targetName == req.targetName && c.fileSize == |file|
    }

    /** One attempt. The number of slices completed before it is `k`; the session then holds the
        current file exactly when those k slices are slices of the current file. `last` is the last
        checkpoint handed out. */
    method UploadLocalFile(req: Request, file: Bytes, state: Option<Checkpoint>, env: Env)
      returns (r: Outcome, sliceSize: int, ghost k: nat, last: Option<Checkpoint>)
      requires Valid() && (state.Some? ==> state.value in issued)
      // the service opens a new session under a name not used before
      requires env.create.Created? ==> env.create.preuploadID !in sessions
      modifies this`sessions, this`issued, this`plan
      ensures Valid() && IssuedFor(old(issued), issued, req, |file|) && sliceSize > 0
      ensures !PolicyStops(env) && !IsAccepted(state, req, file) && env.readable && env.create.Reused? ==>
                r == RapidUpload
      ensures PolicyStops(env) ==> r == if env.lookup == Found then Skipped else Failed
      ensures old(OnlyFrom(file)) ==> OnlyFrom(file)
      ensures IsAccepted(state, req, file) && !PolicyStops(env) ==> state.value.completedSlices == FirstParts(k)
      ensures !IsAccepted(state, req, file) ==> k == 0
      ensures r.CompleteSent? ==> r.preuploadID in sessions && plan[r.preuploadID] == (|file|, sliceSize)
      ensures r.CompleteSent? ==> (k == 0 || r.preuploadID in old(sessions))
      ensures r.CompleteSent? ==>
                var after := sessions[r.preuploadID];
                && (forall n :: 1 <= n <= PartCount(|file|, sliceSize) ==> n in after)
                && (Assemble(after, PartCount(|file|, sliceSize)) == file
                    <==> k == 0 || HoldsParts(old(sessions)[r.preuploadID], file, sliceSize, k))
                && (k > 0 ==> Filled(old(sessions)[r.preuploadID], after, file, sliceSize, k))
      ensures last.Some? ==>
                last.value in issued && Continues(last.value, req, file, state, env, r.CompleteSent?)
      ensures r.CompleteSent? ==>
                last.Some? && last.value.preuploadID == r.preuploadID && last.value.sliceSize == sliceSize
      ensures Creates(env) && !PolicyStops(env) && !IsAccepted(state, req, file) ==> last.Some?
      ensures (forall s :: s in sessions ==> s in old(sessions) || (env.create.Created? && s == env.create.preuploadID))
      ensures Helpful(env) ==> r != Failed
      ensures Helpful(env) && !PolicyStops(env) && IsAccepted(state, req, file) ==>
                r == CompleteSent(state.value.preuploadID)
      ensures (r == Skipped ==> env.skip && env.lookup == Found) && (r == RapidUpload ==> env.create.Reused?)
    {
      hide StartSlice, Stops, Filled, HoldsParts, RightLengths, OnlyPartsOf, IsPrefix, FirstParts, PartCount,
        Pan123.CheckpointHolds,
        IsAccepted, DoneBefore, PolicyStops, Creates, Assemble, Helpful, IssuedFor;
      AcceptedMeans(state, req, file);
      HelpfulMeans(env);
      last := None;
      var stop, session, size, servers, fileMD5, completed;
      stop, session, size, servers, fileMD5, completed, k := OpenSession(req, file, state, env);
      sliceSize := if size > 0 then size else 1;
      if stop.Some? {
        r := stop.value;
        return;
      }
      ghost var before, sent := sessions[session], issued;
      var ok, done := UploadSession(req, file, fileMD5, session, size, servers, completed, k, env);
      IssuedJoin(old(issued), sent, issued, req, |file|);
      last := Some(Checkpoint(req.parentID, req.targetName, |file|, fileMD5, session, size, servers, done));
      r := Failed;
      if ok {
        r := CompleteSent(session);
        FilledDecides(before, sessions[session], file, size, k);
        NoneHeld(before, file, size);
      }
    }

    /** Any number of attempts for one unchanged file, each with whatever checkpoint and faults. */
    method UploadRuns(file: Bytes, attempts: seq<Attempt>) returns (built: seq<Option<Bytes>>)
      requires Valid() && OnlyFrom(file)
      modifies this`sessions, this`issued, this`plan
      ensures Valid() && OnlyFrom(file) && |built| == |attempts|
      ensures forall b :: b in built && b.Some? ==> b.value == file
    {
      built := [];
      for i := 0 to |attempts|
        invariant Valid() && OnlyFrom(file) && |built| == i
        invariant forall b :: b in built && b.Some? ==> b.value == file
      {
        var a := attempts[i];
        var state := if a.state.Some? && a.state.value in issued then a.state else None;
        var clash := a.env.create.Created? && a.env.create.preuploadID in sessions;
        var env := if clash then a.env.(create := CreateFails) else a.env;
        var r, sliceSize, k, last := UploadLocalFile(a.req, file, state, env);
        var whole: Option<Bytes> := None;
        if r.CompleteSent? {
          CompleteSession(sessions[r.preuploadID], file, sliceSize);
          whole := Some(Assemble(sessions[r.preuploadID], PartCount(|file|, sliceSize)));
        }
        built := built + [whole];
      }
    }

    lemma NothingStored(file: Bytes)
      requires sessions == map[]
      ensures OnlyFrom(file)
    {
    }

    /** What the first attempt hands out is accepted for any file of that size. */
    lemma LastHolds(c: Checkpoint, req: Request, first: Bytes, file: Bytes, ok: bool)
      requires Continues(c, req, first, None, FirstEnv(), ok) && |first| == |file| == 2
      requires forall b :: md5(b) != ""
      ensures c.preuploadID == "id" && c.sliceSize == 1 && IsAccepted(Some(c), req, file)
      ensures Stops({}, c.completedSlices, 2, FirstEnv().put, ok)
    {
      NotAccepted(req, first);
    }

    lemma SameSession(c: Checkpoint, state: Option<Checkpoint>, req: Request, file: Bytes, env: Env, ok: bool)
      requires Continues(c, req, file, state, env, ok) && IsAccepted(state, req, file)
      ensures c.sliceSize == state.value.sliceSize
    {
    }

    lemma LastIsStored(c: Checkpoint, first: Bytes)
      requires Valid() && c in issued && OnlyFrom(first) && c.completedSlices == {1} && c.sliceSize == 1
      ensures c.preuploadID in sessions && 1 in sessions[c.preuploadID] && sessions[c.preuploadID][1] == Part(first, 1, 1)
    {
      assert CheckpointHolds(c);
      assert 1 in c.completedSlices;
    }

    /** Every slice stored in any session is that slice of `file`. */
    ghost predicate OnlyFrom(file: Bytes)
      reads this`sessions, this`plan
    {
      forall s :: s in sessions && s in plan && plan[s].1 > 0 ==> OnlyPartsOf(sessions[s], file, plan[s].1)
    }
  }

  lemma PrefixIsFirstParts(completed: set<nat>, total: nat) returns (k: nat)
    requires IsPrefix(completed, total)
    ensures k <= total && completed == FirstParts(k)
  {
    if n: nat :| 1 <= n <= total && n !in completed {
      k := StartSlice(completed, total) - 1;
    } else {
      k := total;
    }
    assert completed == FirstParts(k);
  }

  /** From a prefix, a run leaves a prefix. */
  lemma ExtensionOfPrefix(all: set<nat>, k: nat, total: nat)
    requires k <= total && IsExtension(all, FirstParts(k), total)
    ensures IsPrefix(all, total)
  {
    var start := StartSlice(FirstParts(k), total);
    var stop :| start <= stop <= total + 1 && all == Extended(FirstParts(k), start, stop);
    PrefixHasNoHole(k, total);
  }

  lemma PutsAreParts(before: map<nat, Bytes>, after: map<nat, Bytes>, file: Bytes, sliceSize: int, k: nat)
    requires sliceSize > 0 && Puts(before, after, file, sliceSize, FirstParts(k), PartCount(|file|, sliceSize))
    ensures forall n :: n in after ==>
              (n in before && after[n] == before[n]) || (1 <= n && after[n] == Part(file, sliceSize, n))
  {
    var total := PartCount(|file|, sliceSize);
    forall n | n in after && 1 <= n <= total && n !in FirstParts(k)
      ensures Chunk(file, sliceSize, FirstParts(k), total, n) == Part(file, sliceSize, n)
    {
      PrefixHasNoHole(k, total);
      CursorIsRightExactlyWithoutHole(FirstParts(k), total);
      ChunkIsPart(file, sliceSize, FirstParts(k), total, n);
    }
  }

  /** After a run that put every missing slice: slices 1..k as before, the rest of `file`. */
  ghost predicate Filled(before: map<nat, Bytes>, after: map<nat, Bytes>, file: Bytes, sliceSize: int, k: nat)
    requires sliceSize > 0
  {
    forall n :: 1 <= n <= PartCount(|file|, sliceSize) ==>
      n in after && (if n <= k then n in before && after[n] == before[n] else after[n] == Part(file, sliceSize, n))
  }

  lemma NewSlicesAreParts(before: map<nat, Bytes>, after: map<nat, Bytes>, file: Bytes, sliceSize: int, k: nat,
                          completed: set<nat>)
    requires sliceSize > 0 && Left(before, after, file, sliceSize, FirstParts(k), PartCount(|file|, sliceSize), completed)
    requires forall n :: 1 <= n <= k ==> n in before
    requires forall n :: 1 <= n <= PartCount(|file|, sliceSize) ==> n in completed
    ensures Filled(before, after, file, sliceSize, k)
  {
    var total := PartCount(|file|, sliceSize);
    forall n | 1 <= n <= total && n > k
      ensures n in after && after[n] == Part(file, sliceSize, n)
    {
      PrefixHasNoHole(k, total);
      CursorIsRightExactlyWithoutHole(FirstParts(k), total);
      ChunkIsPart(file, sliceSize, FirstParts(k), total, n);
    }
  }

  lemma FilledDecides(before: map<nat, Bytes>, after: map<nat, Bytes>, file: Bytes, sliceSize: int, k: nat)
    requires sliceSize > 0 && Filled(before, after, file, sliceSize, k) && k <= PartCount(|file|, sliceSize)
    requires RightLengths(after, |file|, sliceSize)
    ensures Assemble(after, PartCount(|file|, sliceSize)) == file
            <==> HoldsParts(before, file, sliceSize, k)
  {
    var total := PartCount(|file|, sliceSize);
    AssembleDetermines(after, file, sliceSize, total);
    if HoldsParts(before, file, sliceSize, k) {
      AssembleIsFile(after, file, sliceSize);
    }
  }

  // ----- a run that builds a mixture -----

  /** The first attempt puts slice 1, and slice 2 is refused; a slice is one byte. */
  function FirstEnv(): Env {
    Env(false, NotFound, true, Created("id", 1, ["server"]), (n: nat) => if n == 1 then Stored else Refused)
  }

  /** In the second attempt every put is stored. */
  function SecondEnv(): Env {
    FirstEnv().(create := Reused, put := (n: nat) => Stored)
  }

  lemma EnvsMean()
    ensures Creates(FirstEnv()) && !PolicyStops(FirstEnv()) && FirstEnv().create == Created("id", 1, ["server"])
    ensures Helpful(SecondEnv()) && !PolicyStops(SecondEnv()) && SecondEnv().create == Reused
  {
  }

  /** The first attempt completes slice 1 and fails. */
  lemma FirstStops(completed: set<nat>, ok: bool)
    requires Stops({}, completed, 2, FirstEnv().put, ok)
    ensures !ok && completed == {1}
  {
    assert StartSlice({}, 2) == 1 && FirstEnv().put(2) == Refused;
    if !ok {
      var n: nat :| 1 <= n <= 2 && FirstEnv().put(n) != Stored && StoredUpTo({}, completed, 1, n, FirstEnv().put);
      assert n == 2;
      assert completed == {1};
    }
  }

  lemma MixedOfTwo(before: map<nat, Bytes>, after: map<nat, Bytes>)
    requires Filled(before, after, [3, 2], 1, 1) && 1 in before && before[1] == Part([1, 2], 1, 1)
    ensures PartCount(2, 1) == 2 && 1 in after && 2 in after && Assemble(after, 2) == [1, 2]
  {
    var first: Bytes, file: Bytes := [1, 2], [3, 2];
    assert Part(first, 1, 1) == [1] && Part(file, 1, 2) == [2];
    assert Assemble(after, 0) == [] && Assemble(after, 1) == [] + [1];
  }

  lemma FirstPrefix(k: nat)
    ensures {1 as nat} == FirstParts(k) ==> k == 1
    ensures PartCount(2, 1) == 2
  {
    if {1 as nat} == FirstParts(k) {
      assert 1 in FirstParts(k);
      assert 2 !in FirstParts(k);
    }
  }

  /** A file replaced between two attempts is not noticed. The first attempt puts slice 1 of [1, 2]; the
      second one, handed its checkpoint, completes the session for [3, 2], and what is built is [1, 2]. */
  method ReplacedFileIsMixed(md5: Bytes -> string) returns (file: Bytes, built: Bytes)
    requires forall b :: md5(b) != ""
    ensures file == [3, 2] && built == [1, 2]
  {
    hide *;
    var first: Bytes := [1, 2];
    file := [3, 2];
    EnvsMean();
    FirstPrefix(1);
    var req := Request("parent", "name");
    var cloud := new Pan123(md5);
    cloud.NothingStored(first);
    NotAccepted(req, first);
    var r, sliceSize, k, last := cloud.UploadLocalFile(req, first, None, FirstEnv());
    cloud.LastHolds(last.value, req, first, file, r.CompleteSent?);
    FirstStops(last.value.completedSlices, r.CompleteSent?);
    cloud.LastIsStored(last.value, first);
    ghost var before := cloud.sessions["id"];
    AcceptedMeans(last, req, file);
    var again;
    r, sliceSize, k, again := cloud.UploadLocalFile(req, file, last, SecondEnv());
    FirstPrefix(k);
    cloud.SameSession(again.value, last, req, file, SecondEnv(), r.CompleteSent?);
    MixedOfTwo(before, cloud.sessions["id"]);
    built := Assemble(cloud.sessions["id"], 2);
  }

  lemma NotAccepted(req: Request, file: Bytes)
    ensures !IsAccepted(None, req, file) && DoneBefore(None, req, file) == {}
  {
  }
}
