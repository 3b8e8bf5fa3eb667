/** drivers/Baidu_Open/upload.go: the checksum pass over a file, and the upload of its chunks with a
    cursor that is moved past completed chunks. A resumed run keeps the checksums of the first run. */
module Baidu {
  import opened UploadPlan
  import opened Wrappers

  const UPLOAD_CHUNK_SIZE := 4 * 1024 * 1024
  const SLICE_LENGTH := 256 * 1024
  const PERSIST_EVERY := 5

  datatype Meta = Meta(size: nat, chunkSize: int, blockList: seq<string>, contentMD5: string, sliceMD5: string)

  /** The checksums are those of `file`, cut into chunks of the given size. */
  ghost predicate MetaOf(meta: Meta, file: Bytes, md5: Bytes -> string) {
    && meta.size == |file| && meta.chunkSize > 0
    && |meta.blockList| == PartCount(|file|, meta.chunkSize)
    && (forall i :: 0 <= i < |meta.blockList| ==> meta.blockList[i] == md5(Part(file, meta.chunkSize, i + 1)))
    && meta.contentMD5 == md5(file)
    && meta.sliceMD5 == md5(file[..Min(SLICE_LENGTH, |file|)])
  }

  function ChunkCount(size: nat): nat {
    PartCount(size, UPLOAD_CHUNK_SIZE)
  }

  /** Where the pass stands after k chunks. */
  function PassAt(size: nat, k: nat): int {
    Min(k * UPLOAD_CHUNK_SIZE, size)
  }

  /** One more chunk of a pass that is not at the end. */
  lemma PassStep(file: Bytes, k: nat)
    requires PassAt(|file|, k) < |file|
    ensures var cursor, n := PassAt(|file|, k), Min(UPLOAD_CHUNK_SIZE, |file| - PassAt(|file|, k));
            && 0 <= cursor <= cursor + n <= |file| && n > 0
            && file[cursor..cursor + n] == Part(file, UPLOAD_CHUNK_SIZE, k + 1)
            && PassAt(|file|, k + 1) == cursor + n
            && (cursor + n == |file| ==> k + 1 == ChunkCount(|file|))
  {
    Offsets(k + 1, UPLOAD_CHUNK_SIZE);
    var total := ChunkCount(|file|);
    if k + 1 < total {
      MulMonotone(k + 1, total - 1, UPLOAD_CHUNK_SIZE);
    } else if k + 1 > total {
      MulMonotone(total, k, UPLOAD_CHUNK_SIZE);
    }
  }

  /** The digests of the first chunks. */
  ghost predicate Digests(blockList: seq<string>, file: Bytes, md5: Bytes -> string) {
    forall i :: 0 <= i < |blockList| ==> blockList[i] == md5(Part(file, UPLOAD_CHUNK_SIZE, i + 1))
  }

  lemma DigestNext(blockList: seq<string>, file: Bytes, md5: Bytes -> string)
    requires Digests(blockList, file, md5)
    ensures Digests(blockList + [md5(Part(file, UPLOAD_CHUNK_SIZE, |blockList| + 1))], file, md5)
  {
  }

  lemma PassDone(file: Bytes, blockList: seq<string>, md5: Bytes -> string, slice: Bytes)
    requires Digests(blockList, file, md5) && |blockList| == ChunkCount(|file|)
    requires slice == file[..Min(SLICE_LENGTH, |file|)]
    ensures MetaOf(Meta(|file|, UPLOAD_CHUNK_SIZE, blockList, md5(file), md5(slice)), file, md5)
    ensures UPLOAD_CHUNK_SIZE == 4194304 && slice == file[..Min(262144, |file|)]
  {
  }

  lemma EmptyPass(md5: Bytes -> string)
    ensures MetaOf(Meta(0, UPLOAD_CHUNK_SIZE, [md5([])], md5([]), md5([])), [], md5)
    ensures UPLOAD_CHUNK_SIZE == 4194304
  {
    assert Part([], UPLOAD_CHUNK_SIZE, 1) == [];
  }

  lemma StartPass(file: Bytes, md5: Bytes -> string)
    ensures PassAt(|file|, 0) == 0 && Digests([], file, md5)
    ensures [] == file[..Min(SLICE_LENGTH, 0)] && SLICE_LENGTH - Min(SLICE_LENGTH, 0) == SLICE_LENGTH
  {
  }

  /** The part of a chunk that the checksum of the first 256 KiB still takes. */
  method FeedSlice(ghost file: Bytes, ghost cursor: nat, chunk: Bytes, slice0: Bytes, remain0: int)
    returns (slice: Bytes, remain: int)
    requires cursor + |chunk| <= |file| && chunk == file[cursor..cursor + |chunk|]
    requires slice0 == file[..Min(SLICE_LENGTH, cursor)] && remain0 == SLICE_LENGTH - Min(SLICE_LENGTH, cursor)
    ensures slice == file[..Min(SLICE_LENGTH, cursor + |chunk|)] && remain == SLICE_LENGTH - Min(SLICE_LENGTH, cursor + |chunk|)
  {
    slice, remain := slice0, remain0;
    if remain > 0 {
      var take := |chunk|;
      if take > remain {
        take := remain;
      }
      SliceJoin(file, cursor, cursor + take);
      assert chunk[..take] == file[cursor..cursor + take];
      slice := slice + chunk[..take];
      remain := remain - take;
    }
  }

  /** `prepareUploadMeta`: one pass that feeds three checksums. */
  method PrepareUploadMeta(file: Bytes, md5: Bytes -> string) returns (meta: Meta)
    ensures MetaOf(meta, file, md5) && meta.chunkSize == 4194304 && meta.size == |file|
    ensures meta.sliceMD5 == md5(file[..Min(262144, |file|)])
  {
    hide *;
    if |file| == 0 {
      EmptyPass(md5);
      var empty := md5([]);
      return Meta(0, UPLOAD_CHUNK_SIZE, [empty], empty, empty);
    }
    var content: Bytes, slice: Bytes := [], [];
    var blockList: seq<string> := [];
    var sliceRemain := SLICE_LENGTH;
    var cursor := 0;
    StartPass(file, md5);
    while cursor < |file|
      invariant 0 <= cursor <= |file| && content == file[..cursor] && cursor == PassAt(|file|, |blockList|)
      invariant cursor == |file| ==> |blockList| == ChunkCount(|file|)
      invariant Digests(blockList, file, md5)
      invariant slice == file[..Min(SLICE_LENGTH, cursor)] && sliceRemain == SLICE_LENGTH - Min(SLICE_LENGTH, cursor)
    {
      PassStep(file, |blockList|);
      DigestNext(blockList, file, md5);
      var n := Min(UPLOAD_CHUNK_SIZE, |file| - cursor);
      var chunk := file[cursor..cursor + n];
      SliceJoin(file, cursor, cursor + n);
      content := content + chunk;
      blockList := blockList + [md5(chunk)];
      slice, sliceRemain := FeedSlice(file, cursor, chunk, slice, sliceRemain);
      cursor := cursor + n;
    }
    assert file[..|file|] == file;
    PassDone(file, blockList, md5, slice);
    meta := Meta(|file|, UPLOAD_CHUNK_SIZE, blockList, md5(content), md5(slice));
  }

  // ----- sizes -----

  /** `partSize`: the length of chunk `seq`, numbered from 0. */
  function PartSize(meta: Meta, partSeq: nat): (len: int)
    requires meta.chunkSize > 0
    ensures len == PartLen(meta.size, meta.chunkSize, partSeq + 1)
  {
    var offset := partSeq * meta.chunkSize;
    var remain := meta.size - offset;
    var size := if remain < meta.chunkSize then remain else meta.chunkSize;
    if size < 0 then 0 else size
  }

  /** Chunk numbers shifted to part numbers. */
  function Shifted(completed: set<nat>): (parts: set<nat>)
    ensures forall n: nat :: n in parts <==> n >= 1 && n - 1 in completed
  {
    set p | p in completed :: p + 1
  }

  /** `completedBytes`: the chunks come in no particular order. */
  method CompletedBytes(meta: Meta, completed: set<nat>) returns (uploaded: int)
    requires meta.chunkSize > 0
    ensures uploaded == Min(SumLen(meta.size, meta.chunkSize, Shifted(completed)), meta.size)
  {
    uploaded := 0;
    var rest := completed;
    while rest != {}
      invariant rest <= completed
      invariant uploaded + SumLen(meta.size, meta.chunkSize, Shifted(rest)) == SumLen(meta.size, meta.chunkSize, Shifted(completed))
      decreases rest
    {
      var partSeq :| partSeq in rest;
      SumLenRemove(meta.size, meta.chunkSize, Shifted(rest), partSeq + 1);
      assert Shifted(rest) - {partSeq + 1} == Shifted(rest - {partSeq});
      uploaded := uploaded + PartSize(meta, partSeq);
      rest := rest - {partSeq};
    }
    if uploaded > meta.size {
      uploaded := meta.size;
    }
  }

  // ----- the upload loop -----

  /** A chunk may be stored although its reply never arrives; a reply may or may not carry the
      checksum of what was stored. */
  datatype PutReply = Stored(reportsMD5: bool) | StoredButLost | Refused

  /** The check on a reply: a checksum, when there is one, must be the one in the list. */
  predicate Passes(reply: PutReply, checksum: string, expected: string) {
    reply.Stored? && (reply.reportsMD5 ==> checksum == expected)
  }

  /** What a run may leave in the session: what was there, and for missing chunks the chunk of `file`.
      Chunk i is part i + 1 of the session. */
  ghost predicate Puts(before: map<nat, Bytes>, after: map<nat, Bytes>, file: Bytes, chunkSize: int,
                       completed: set<nat>)
    requires chunkSize > 0
  {
    && (forall n :: n in before ==> n in after)
    && (forall n :: n in after ==>
          || (n in before && after[n] == before[n])
          || (n >= 1 && n - 1 !in completed && after[n] == Part(file, chunkSize, n)))
  }

  /** Each newly completed chunk is stored as it is in `file`, and passed the check. */
  ghost predicate Recorded(after: map<nat, Bytes>, file: Bytes, meta: Meta, md5: Bytes -> string,
                           replies: nat -> PutReply, completed0: set<nat>, completed: set<nat>)
    requires meta.chunkSize > 0
  {
    forall i :: i in completed && i !in completed0 ==>
      && i + 1 in after && after[i + 1] == Part(file, meta.chunkSize, i + 1)
      && i < |meta.blockList| && Passes(replies(i), md5(after[i + 1]), meta.blockList[i])
  }

  ghost predicate Left(before: map<nat, Bytes>, after: map<nat, Bytes>, file: Bytes, meta: Meta, md5: Bytes -> string,
                       replies: nat -> PutReply, completed0: set<nat>, completed: set<nat>)
    requires meta.chunkSize > 0
  {
    Puts(before, after, file, meta.chunkSize, completed0) && Recorded(after, file, meta, md5, replies, completed0, completed)
  }

  lemma PutOne(before: map<nat, Bytes>, after: map<nat, Bytes>, file: Bytes, meta: Meta, md5: Bytes -> string,
               replies: nat -> PutReply, completed0: set<nat>, completed: set<nat>, i: nat)
    requires meta.chunkSize > 0 && Left(before, after, file, meta, md5, replies, completed0, completed)
    requires i < |meta.blockList| && i !in completed0
    ensures var now := Store(after, i + 1, Part(file, meta.chunkSize, i + 1));
            && Left(before, now, file, meta, md5, replies, completed0, completed)
            && (Passes(replies(i), md5(Part(file, meta.chunkSize, i + 1)), meta.blockList[i]) ==>
                  Left(before, now, file, meta, md5, replies, completed0, completed + {i}))
  {
  }

  /** Where chunk i starts, or the end of the file. */
  function CursorAt(meta: Meta, i: nat): int {
    Min(i * meta.chunkSize, meta.size)
  }

  /** Reading on from the end of the chunks before gives the chunk. */
  method ReadChunk(file: Bytes, meta: Meta, i: nat, cursor0: int) returns (chunk: Bytes, cursor: int)
    requires meta.chunkSize > 0 && meta.size == |file|
    requires cursor0 == CursorAt(meta, i)
    ensures chunk == Part(file, meta.chunkSize, i + 1) && cursor == CursorAt(meta, i + 1)
  {
    Offsets(i + 1, meta.chunkSize);
    cursor := cursor0 + PartSize(meta, i);
    chunk := file[cursor0..cursor];
  }

  /** Seeking past a completed chunk brings the cursor to the next one. */
  lemma SeekPast(meta: Meta, i: nat)
    requires meta.chunkSize > 0
    ensures CursorAt(meta, i) + PartSize(meta, i) == CursorAt(meta, i + 1)
  {
    Offsets(i + 1, meta.chunkSize);
  }

  lemma CountOne(meta: Meta, completed: set<nat>, i: nat)
    requires meta.chunkSize > 0 && i !in completed
    ensures SumLen(meta.size, meta.chunkSize, Shifted(completed + {i}))
            == SumLen(meta.size, meta.chunkSize, Shifted(completed)) + PartSize(meta, i)
  {
    SumLenRemove(meta.size, meta.chunkSize, Shifted(completed + {i}), i + 1);
    assert Shifted(completed + {i}) - {i + 1} == Shifted(completed);
  }

  /** Counted bytes never exceed the size, and reach it when every chunk is completed. */
  lemma CountedBytes(meta: Meta, completed: set<nat>)
    requires meta.chunkSize > 0
    requires forall i :: i in completed ==> i < PartCount(meta.size, meta.chunkSize)
    ensures SumLen(meta.size, meta.chunkSize, Shifted(completed)) <= meta.size
    ensures (forall i :: 0 <= i < PartCount(meta.size, meta.chunkSize) ==> i in completed)
            ==> SumLen(meta.size, meta.chunkSize, Shifted(completed)) == meta.size
  {
    var total := PartCount(meta.size, meta.chunkSize);
    SumOfFirstParts(meta.size, meta.chunkSize, total);
    SumOfSubset(meta.size, meta.chunkSize, Shifted(completed), FirstParts(total));
    if forall i :: 0 <= i < total ==> i in completed {
      forall n: nat | n in FirstParts(total)
        ensures n in Shifted(completed)
      {
        assert n - 1 in completed;
      }
      assert Shifted(completed) == FirstParts(total);
    }
  }

  /** The chunks completed so far are within the list, and their bytes are counted. */
  ghost predicate Counted(meta: Meta, completed0: set<nat>, completed: set<nat>, uploaded: int)
    requires meta.chunkSize > 0
  {
    && completed0 <= completed && (forall i :: i in completed ==> i < |meta.blockList|)
    && uploaded == SumLen(meta.size, meta.chunkSize, Shifted(completed))
  }

  ghost predicate Refuses(file: Bytes, meta: Meta, md5: Bytes -> string, replies: nat -> PutReply, i: nat)
    requires meta.chunkSize > 0
  {
    i < |meta.blockList| && !Passes(replies(i), md5(Part(file, meta.chunkSize, i + 1)), meta.blockList[i])
  }

  /** One turn of the loop for a chunk that is missing. */
  method PutChunk(file: Bytes, meta: Meta, md5: Bytes -> string, ghost completed0: set<nat>,
                  ghost stored0: map<nat, Bytes>, replies: nat -> PutReply, i: nat, cursor0: int, completed1: set<nat>,
                  stored1: map<nat, Bytes>, uploaded1: int)
    returns (ok: bool, cursor: int, completed: set<nat>, stored: map<nat, Bytes>, uploaded: int)
    requires meta.chunkSize > 0 && meta.size == |file| && |meta.blockList| == PartCount(|file|, meta.chunkSize)
    requires i < |meta.blockList| && i !in completed1 && cursor0 == CursorAt(meta, i)
    requires Counted(meta, completed0, completed1, uploaded1)
    requires Left(stored0, stored1, file, meta, md5, replies, completed0, completed1)
    ensures Left(stored0, stored, file, meta, md5, replies, completed0, completed)
    ensures Counted(meta, completed0, completed, uploaded)
    ensures ok <==> !Refuses(file, meta, md5, replies, i)
    ensures completed == if ok then completed1 + {i} else completed1
    ensures ok ==> cursor == CursorAt(meta, i + 1)
  {
    var chunk;
    chunk, cursor := ReadChunk(file, meta, i, cursor0);
    completed, stored, uploaded := completed1, stored1, uploaded1;
    PutOne(stored0, stored, file, meta, md5, replies, completed0, completed, i);
    if replies(i) != Refused {
      stored := Store(stored, i + 1, chunk);
    }
    ok := Passes(replies(i), md5(chunk), meta.blockList[i]);
    if ok {
      CountOne(meta, completed, i);
      completed := completed + {i};
      CountedBytes(meta, completed);
      uploaded := uploaded + |chunk|;
      if uploaded > meta.size {
        uploaded := meta.size;
      }
    }
  }

  /** The completed sets handed to the resume-state callback only grow from the first. */
  ghost predicate Handed(checkpoints: seq<set<nat>>, completed0: set<nat>, completed: set<nat>) {
    && |checkpoints| > 0 && checkpoints[0] == completed0
    && forall c :: c in checkpoints ==> completed0 <= c <= completed
  }

  lemma HandOne(checkpoints: seq<set<nat>>, completed0: set<nat>, completed1: set<nat>, completed: set<nat>)
    requires Handed(checkpoints, completed0, completed1) && completed0 <= completed1 <= completed
    ensures Handed(checkpoints, completed0, completed)
    ensures Handed(checkpoints + [completed], completed0, completed)
  {
  }

  /** Of the first k chunks all are completed that were not before, and none was refused. */
  ghost predicate DoneUpTo(file: Bytes, meta: Meta, md5: Bytes -> string, replies: nat -> PutReply,
                           completed0: set<nat>, completed: set<nat>, k: nat)
    requires meta.chunkSize > 0
  {
    && (forall i: nat :: i in completed <==> i in completed0 || i < k)
    && (forall i: nat :: i < k && i !in completed0 ==> !Refuses(file, meta, md5, replies, i))
  }

  lemma DoneOneMore(file: Bytes, meta: Meta, md5: Bytes -> string, replies: nat -> PutReply, completed0: set<nat>,
                    completed1: set<nat>, k: nat)
    requires meta.chunkSize > 0 && DoneUpTo(file, meta, md5, replies, completed0, completed1, k)
    ensures k in completed1 <==> k in completed0
    ensures k in completed1 ==> DoneUpTo(file, meta, md5, replies, completed0, completed1, k + 1)
    ensures !Refuses(file, meta, md5, replies, k) ==>
              DoneUpTo(file, meta, md5, replies, completed0, completed1 + {k}, k + 1)
  {
  }

  lemma NoneDone(file: Bytes, meta: Meta, md5: Bytes -> string, replies: nat -> PutReply, completed0: set<nat>)
    requires meta.chunkSize > 0
    ensures DoneUpTo(file, meta, md5, replies, completed0, completed0, 0)
  {
  }

  /** A checkpoint is handed out after every fifth chunk. */
  predicate PersistDue(chunks: nat) {
    chunks % PERSIST_EVERY == 0
  }

  /** The completed set of before with chunks 0..i. */
  ghost predicate WithFirst(k: set<nat>, completed0: set<nat>, i: nat) {
    forall j: nat :: j in k <==> j in completed0 || j <= i
  }

  /** Some completed set handed out is that of before with chunks 0..i. */
  ghost predicate HandedAt(checkpoints: seq<set<nat>>, completed0: set<nat>, i: nat) {
    exists k :: k in checkpoints && WithFirst(k, completed0, i)
  }

  /** After each fifth chunk up to `next` that was put, the completed set is handed out. */
  ghost predicate FifthsHanded(checkpoints: seq<set<nat>>, completed0: set<nat>, next: nat) {
    forall i: nat :: i < next && i !in completed0 && (i + 1) % 5 == 0 ==> HandedAt(checkpoints, completed0, i)
  }

  lemma FifthHanded(file: Bytes, meta: Meta, md5: Bytes -> string, replies: nat -> PutReply, checkpoints: seq<set<nat>>,
                    more: seq<set<nat>>, completed0: set<nat>, completed: set<nat>, next: nat)
    requires meta.chunkSize > 0 && FifthsHanded(checkpoints, completed0, next)
    requires DoneUpTo(file, meta, md5, replies, completed0, completed, next + 1)
    requires if next in completed0 || !PersistDue(next + 1) then more == checkpoints else more == checkpoints + [completed]
    ensures FifthsHanded(more, completed0, next + 1)
  {
    forall i: nat | i < next + 1 && i !in completed0 && (i + 1) % 5 == 0
      ensures HandedAt(more, completed0, i)
    {
      if i == next {
        assert more[|more| - 1] == completed && completed in more;
      } else {
        var k :| k in checkpoints && WithFirst(k, completed0, i);
        assert k in more;
      }
    }
  }

  lemma FifthsStay(checkpoints: seq<set<nat>>, last: set<nat>, completed0: set<nat>, next: nat)
    requires FifthsHanded(checkpoints, completed0, next)
    ensures FifthsHanded(checkpoints + [last], completed0, next)
  {
    forall i: nat | i < next && i !in completed0 && (i + 1) % 5 == 0
      ensures HandedAt(checkpoints + [last], completed0, i)
    {
      var k :| k in checkpoints && WithFirst(k, completed0, i);
      assert k in checkpoints + [last];
    }
  }

  /** The loop over the chunks; `next` is where it stopped. */
  method UploadMissing(file: Bytes, meta: Meta, md5: Bytes -> string, completed0: set<nat>, stored0: map<nat, Bytes>,
                       uploaded0: int, replies: nat -> PutReply)
    returns (next: nat, completed: set<nat>, stored: map<nat, Bytes>, uploaded: int, checkpoints: seq<set<nat>>)
    requires meta.chunkSize > 0 && meta.size == |file| && |meta.blockList| == PartCount(|file|, meta.chunkSize)
    requires Counted(meta, completed0, completed0, uploaded0)
    ensures Left(stored0, stored, file, meta, md5, replies, completed0, completed)
    ensures Counted(meta, completed0, completed, uploaded) && Handed(checkpoints, completed0, completed)
    ensures next <= |meta.blockList| && DoneUpTo(file, meta, md5, replies, completed0, completed, next)
    ensures next != |meta.blockList| ==> next !in completed0 && Refuses(file, meta, md5, replies, next)
    ensures FifthsHanded(checkpoints, completed0, next)
  {
    completed, stored, uploaded, checkpoints, next := completed0, stored0, uploaded0, [completed0], 0;
    var cursor := 0;
    assert Left(stored0, stored, file, meta, md5, replies, completed0, completed);
    assert CursorAt(meta, 0) == 0;
    NoneDone(file, meta, md5, replies, completed0);
    assert FifthsHanded(checkpoints, completed0, 0);
    hide *;
    while next < |meta.blockList|
      invariant next <= |meta.blockList| && cursor == CursorAt(meta, next)
      invariant DoneUpTo(file, meta, md5, replies, completed0, completed, next)
      invariant Left(stored0, stored, file, meta, md5, replies, completed0, completed)
      invariant Counted(meta, completed0, completed, uploaded) && completed0 <= completed
      invariant Handed(checkpoints, completed0, completed) && FifthsHanded(checkpoints, completed0, next)
    {
      ghost var completed1, handed := completed, checkpoints;
      DoneOneMore(file, meta, md5, replies, completed0, completed, next);
      if next in completed {
        SeekPast(meta, next);
        cursor := cursor + PartSize(meta, next);
      } else {
        var ok;
        ok, cursor, completed, stored, uploaded := PutChunk(file, meta, md5, completed0, stored0, replies, next, cursor,
                                                            completed, stored, uploaded);
        HandOne(checkpoints, completed0, completed1, completed);
        if !ok {
          return;
        }
        if PersistDue(next + 1) {
          checkpoints := checkpoints + [completed];
        }
      }
      FifthHanded(file, meta, md5, replies, handed, checkpoints, completed0, completed, next);
      next := next + 1;
    }
  }

  /** `uploadBaiduParts`, for any set of completed chunks, with or without holes. `checkpoints` are
      the completed sets it hands to the resume-state callback, the last one on every way out. It stops
      at the first missing chunk that is refused. */
  method UploadBaiduParts(file: Bytes, meta: Meta, md5: Bytes -> string, completed0: set<nat>, stored0: map<nat, Bytes>,
                          replies: nat -> PutReply)
    returns (ok: bool, completed: set<nat>, stored: map<nat, Bytes>, uploaded: int, checkpoints: seq<set<nat>>,
             ghost next: nat)
    requires meta.chunkSize > 0 && meta.size == |file| && |meta.blockList| == PartCount(|file|, meta.chunkSize)
    requires forall i :: i in completed0 ==> i < |meta.blockList|
    ensures Left(stored0, stored, file, meta, md5, replies, completed0, completed)
    ensures Counted(meta, completed0, completed, uploaded)
    ensures ok ==> uploaded == meta.size
    ensures Handed(checkpoints, completed0, completed) && checkpoints[|checkpoints| - 1] == completed
    ensures next <= |meta.blockList| && DoneUpTo(file, meta, md5, replies, completed0, completed, next)
    ensures ok <==> next == |meta.blockList|
    ensures FifthsHanded(checkpoints, completed0, next)
    ensures !ok ==> next < |meta.blockList| && next !in completed0 && Refuses(file, meta, md5, replies, next)
  {
    uploaded := CompletedBytes(meta, completed0);
    CountedBytes(meta, completed0);
    var end;
    end, completed, stored, uploaded, checkpoints := UploadMissing(file, meta, md5, completed0, stored0, uploaded,
                                                                   replies);
    CountedInFull(meta, completed0, completed, uploaded);
    HandOne(checkpoints, completed0, completed, completed);
    FifthsStay(checkpoints, completed, completed0, end);
    checkpoints := checkpoints + [completed];
    ok, next := end == |meta.blockList|, end;
  }

  lemma CountedInFull(meta: Meta, completed0: set<nat>, completed: set<nat>, uploaded: int)
    requires meta.chunkSize > 0 && |meta.blockList| == PartCount(meta.size, meta.chunkSize)
    requires Counted(meta, completed0, completed, uploaded)
    ensures uploaded <= meta.size
    ensures (forall i: nat :: i < |meta.blockList| ==> i in completed) ==> uploaded == meta.size
  {
    CountedBytes(meta, completed);
  }

  // ----- whole attempts -----

  ghost predicate Injective(md5: Bytes -> string) {
    forall a, b :: md5(a) == md5(b) ==> a == b
  }

  datatype Request = Request(parentID: string, requestedName: string)

  datatype Checkpoint = Checkpoint(parentID: string, requestedName: string, targetName: string, targetPath: string,
                                   uploadID: string, uploadHost: string, completedParts: set<nat>, meta: Meta)

  /** `restoreBaiduUploadMeta` with `normalizeBaiduResumeState`: the file is not read. */
  predicate Accepted(c: Checkpoint, req: Request, fileSize: int) {
    && c.targetPath != "" && c.parentID == req.parentID && c.requestedName == req.requestedName && c.targetName != ""
    && c.meta.size == fileSize && c.meta.blockList != [] && c.meta.contentMD5 != "" && c.meta.sliceMD5 != ""
    && c.uploadID != "" && c.uploadHost != ""
  }

  /** A checkpoint is accepted for one parent, name and size only; the content is not looked at. */
  lemma AcceptedForSame(c: Checkpoint, req: Request, fileSize: int, other: Request, otherSize: int)
    requires Accepted(c, req, fileSize)
    ensures Accepted(c, other, otherSize) <==> other == req && otherSize == fileSize
    ensures c.targetPath != "" && c.targetName != "" && c.uploadID != "" && c.uploadHost != "" && c.meta.blockList != []
    ensures c.meta.contentMD5 != "" && c.meta.sliceMD5 != ""
  {
  }

  datatype PrecreateReply = PrecreateFails | Rapid | Precreated(uploadID: string)

  /** `target` is None where the name is taken, `host` where the upload address is not found. */
  datatype Env = Env(target: Option<(string, string)>, readable: bool, precreate: PrecreateReply, host: Option<string>,
                     put: nat -> PutReply)

  ghost predicate Reporting(env: Env) {
    forall i :: env.put(i).Stored? ==> env.put(i).reportsMD5
  }

  datatype Outcome = Failed | RapidUpload | CreateSent(uploadID: string)

  datatype Attempt = Attempt(req: Request, file: Bytes, state: Option<Checkpoint>, env: Env)

  /** The chunks done before the attempt are those of `file`. */
  ghost predicate DoneFrom(stored: map<nat, Bytes>, file: Bytes, done: set<nat>) {
    forall i :: i in done ==> i + 1 in stored && stored[i + 1] == Part(file, UPLOAD_CHUNK_SIZE, i + 1)
  }

  ghost predicate AllOf(completed: set<nat>, file: Bytes) {
    forall i :: 0 <= i < PartCount(|file|, UPLOAD_CHUNK_SIZE) ==> i in completed
  }

  /** Chunks done before are as they were, the others are those of the current file. */
  ghost predicate Mixed(before: map<nat, Bytes>, after: map<nat, Bytes>, file: Bytes, done: set<nat>) {
    forall n :: 1 <= n <= PartCount(|file|, UPLOAD_CHUNK_SIZE) ==>
      n in after && if n - 1 in done then n in before && after[n] == before[n] else after[n] == Part(file, UPLOAD_CHUNK_SIZE, n)
  }

  /** After a run that completed every chunk, the session assembles to the current file exactly when
      the chunks done before are chunks of the current file. */
  lemma AssemblyDecides(before: map<nat, Bytes>, after: map<nat, Bytes>, file: Bytes, meta: Meta, md5: Bytes -> string,
                        replies: nat -> PutReply, done: set<nat>, completed: set<nat>)
    requires meta.chunkSize == UPLOAD_CHUNK_SIZE && Left(before, after, file, meta, md5, replies, done, completed)
    requires AllOf(completed, file) && RightLengths(after, |file|, UPLOAD_CHUNK_SIZE)
    requires forall i :: i in done ==> i + 1 in before && i < PartCount(|file|, UPLOAD_CHUNK_SIZE)
    ensures forall n :: 1 <= n <= PartCount(|file|, UPLOAD_CHUNK_SIZE) ==> n in after
    ensures Assemble(after, PartCount(|file|, UPLOAD_CHUNK_SIZE)) == file <==> DoneFrom(before, file, done)
    ensures Mixed(before, after, file, done)
  {
    var total := PartCount(|file|, UPLOAD_CHUNK_SIZE);
    forall n | 1 <= n <= total
      ensures n in after
      ensures n - 1 in done ==> n in before && after[n] == before[n]
      ensures n - 1 !in done ==> after[n] == Part(file, UPLOAD_CHUNK_SIZE, n)
    {
      assert n - 1 in completed;
      assert n - 1 in done ==> (n - 1) + 1 in before;
    }
    AssembleDetermines(after, file, UPLOAD_CHUNK_SIZE, total);
    if DoneFrom(before, file, done) {
      AssembleIsFile(after, file, UPLOAD_CHUNK_SIZE);
    } else {
      var i :| i in done && before[i + 1] != Part(file, UPLOAD_CHUNK_SIZE, i + 1);
      assert after[i + 1] == before[i + 1];
    }
  }

  /** When every reply carries the checksum, chunks that passed are those the list was made from. */
  lemma PassedIsOrigin(before: map<nat, Bytes>, after: map<nat, Bytes>, file: Bytes, origin: Bytes, meta: Meta,
                       md5: Bytes -> string, replies: nat -> PutReply, done: set<nat>, completed: set<nat>)
    requires meta.chunkSize == UPLOAD_CHUNK_SIZE && Left(before, after, file, meta, md5, replies, done, completed)
    requires MetaOf(meta, origin, md5) && Injective(md5)
    requires forall i :: replies(i).Stored? ==> replies(i).reportsMD5
    requires DoneFrom(before, origin, done)
    ensures DoneFrom(after, origin, completed)
  {
    forall i | i in completed
      ensures i + 1 in after && after[i + 1] == Part(origin, UPLOAD_CHUNK_SIZE, i + 1)
    {
      if i !in done {
        assert md5(after[i + 1]) == meta.blockList[i];
      }
    }
  }

  /** What a checkpoint says is true of its session. */
  ghost predicate Holds(c: Checkpoint, stored: map<nat, Bytes>, origin: Bytes, md5: Bytes -> string, reports: bool) {
    && MetaOf(c.meta, origin, md5) && c.meta.chunkSize == UPLOAD_CHUNK_SIZE
    && (forall i :: i in c.completedParts ==> i < |c.meta.blockList| && i + 1 in stored)
    && (reports ==> DoneFrom(stored, origin, c.completedParts))
  }

  /** After a run, each completed set it handed out makes a checkpoint that holds. */
  lemma HoldsAfter(c: Checkpoint, k: set<nat>, before: map<nat, Bytes>, after: map<nat, Bytes>, file: Bytes,
                   origin: Bytes, md5: Bytes -> string, reports: bool, env: Env, completed: set<nat>)
    requires Holds(c, before, origin, md5, reports) && c.meta.size == |file|
    requires Left(before, after, file, c.meta, md5, env.put, c.completedParts, completed)
    requires c.completedParts <= k <= completed
    requires Injective(md5)
    requires reports ==> Reporting(env)
    ensures Holds(c.(completedParts := k), after, origin, md5, reports)
  {
    if reports {
      PassedIsOrigin(before, after, file, origin, c.meta, md5, env.put, c.completedParts, completed);
    }
  }

  lemma LengthsAfter(before: map<nat, Bytes>, after: map<nat, Bytes>, file: Bytes, meta: Meta, md5: Bytes -> string,
                     replies: nat -> PutReply, done: set<nat>, completed: set<nat>)
    requires meta.chunkSize == UPLOAD_CHUNK_SIZE && Left(before, after, file, meta, md5, replies, done, completed)
    requires RightLengths(before, |file|, UPLOAD_CHUNK_SIZE)
    ensures RightLengths(after, |file|, UPLOAD_CHUNK_SIZE)
    ensures OnlyPartsOf(before, file, UPLOAD_CHUNK_SIZE) ==> OnlyPartsOf(after, file, UPLOAD_CHUNK_SIZE)
  {
  }

  /** What an attempt that completed every chunk leaves for the service to assemble. */
  lemma Finished(c: Checkpoint, before: map<nat, Bytes>, after: map<nat, Bytes>, file: Bytes, origin: Bytes,
                 md5: Bytes -> string, reports: bool, env: Env, completed: set<nat>)
    requires Holds(c, before, origin, md5, reports) && c.meta.size == |file|
    requires Left(before, after, file, c.meta, md5, env.put, c.completedParts, completed)
    requires AllOf(completed, file) && RightLengths(after, |file|, UPLOAD_CHUNK_SIZE)
    requires Injective(md5)
    requires reports ==> Reporting(env)
    ensures Built(before, after, file, origin, c.completedParts, reports)
  {
    AssemblyDecides(before, after, file, c.meta, md5, env.put, c.completedParts, completed);
    if reports {
      PassedIsOrigin(before, after, file, origin, c.meta, md5, env.put, c.completedParts, completed);
      forall n | 1 <= n <= PartCount(|origin|, UPLOAD_CHUNK_SIZE)
        ensures n in after && after[n] == Part(origin, UPLOAD_CHUNK_SIZE, n)
      {
        assert n - 1 in completed;
      }
      AssembleIsFile(after, origin, UPLOAD_CHUNK_SIZE);
    }
  }

  /** Every chunk is stored. They assemble to the current file exactly when the chunks done before
      are chunks of it; and to the file that was hashed, when replies carry checksums. */
  ghost predicate Built(before: map<nat, Bytes>, after: map<nat, Bytes>, file: Bytes, origin: Bytes, done: set<nat>, reports: bool) {
    var total := PartCount(|file|, UPLOAD_CHUNK_SIZE);
    && (forall n :: 1 <= n <= total ==> n in after)
    && Mixed(before, after, file, done)
    && (Assemble(after, total) == file <==> DoneFrom(before, file, done))
    && (reports ==> Assemble(after, total) == origin)
  }

  /** Every put is stored; replies may or may not carry a digest. */
  ghost predicate AllStored(env: Env) {
    forall i :: env.put(i).Stored?
  }

  /** No reply carries a digest. */
  ghost predicate Silent(env: Env) {
    forall i :: env.put(i).Stored? ==> !env.put(i).reportsMD5
  }

  /** Of the chunks not done before, the file has the same as the file that was hashed. */
  ghost predicate SameMissing(file: Bytes, origin: Bytes, done: set<nat>) {
    forall i: nat :: i < PartCount(|file|, UPLOAD_CHUNK_SIZE) && i !in done ==>
      Part(file, UPLOAD_CHUNK_SIZE, i + 1) == Part(origin, UPLOAD_CHUNK_SIZE, i + 1)
  }

  /** When every put is stored, a chunk is refused only for its digest: never when replies carry none,
      and exactly when it differs from the hashed one when they do. */
  lemma RefusedExactly(file: Bytes, origin: Bytes, meta: Meta, md5: Bytes -> string, env: Env, i: nat)
    requires MetaOf(meta, origin, md5) && meta.chunkSize == UPLOAD_CHUNK_SIZE && Injective(md5) && AllStored(env)
    requires i < |meta.blockList|
    ensures Silent(env) || Part(file, UPLOAD_CHUNK_SIZE, i + 1) == Part(origin, UPLOAD_CHUNK_SIZE, i + 1) ==>
              !Refuses(file, meta, md5, env.put, i)
    ensures Reporting(env) && Part(file, UPLOAD_CHUNK_SIZE, i + 1) != Part(origin, UPLOAD_CHUNK_SIZE, i + 1) ==>
              Refuses(file, meta, md5, env.put, i)
  {
    assert meta.blockList[i] == md5(Part(origin, UPLOAD_CHUNK_SIZE, i + 1));
  }

  /** So an undisturbed run ends exactly as the missing chunks compare. */
  lemma UndisturbedRun(file: Bytes, origin: Bytes, meta: Meta, md5: Bytes -> string, env: Env, done: set<nat>,
                       completed: set<nat>, ok: bool, next: nat)
    requires MetaOf(meta, origin, md5) && meta.chunkSize == UPLOAD_CHUNK_SIZE && Injective(md5) && meta.size == |file|
    requires DoneUpTo(file, meta, md5, env.put, done, completed, next) && (ok <==> next == |meta.blockList|)
    requires !ok ==> next < |meta.blockList| && next !in done && Refuses(file, meta, md5, env.put, next)
    ensures AllStored(env) && (Silent(env) || SameMissing(file, origin, done)) ==> ok
    ensures AllStored(env) && Reporting(env) ==> (ok <==> SameMissing(file, origin, done))
  {
    if AllStored(env) {
      forall i: nat | i < |meta.blockList| && i !in done
        ensures Silent(env) || Part(file, UPLOAD_CHUNK_SIZE, i + 1) == Part(origin, UPLOAD_CHUNK_SIZE, i + 1) ==>
                  !Refuses(file, meta, md5, env.put, i)
        ensures Reporting(env) && Part(file, UPLOAD_CHUNK_SIZE, i + 1) != Part(origin, UPLOAD_CHUNK_SIZE, i + 1) ==>
                  Refuses(file, meta, md5, env.put, i)
      {
        RefusedExactly(file, origin, meta, md5, env, i);
      }
    }
  }

  /** No call before the chunks fails. */
  predicate Opens(env: Env) {
    && env.target.Some? && env.readable && !env.precreate.PrecreateFails? && env.host.Some?
    && (env.precreate.Precreated? ==> env.precreate.uploadID != "")
  }

  /** An environment in which no call fails. */
  ghost predicate Helpful(env: Env) {
    Opens(env) && AllStored(env)
  }

  lemma HelpfulMeans(env: Env)
    ensures Helpful(env) ==> Opens(env) && AllStored(env)
  {
  }

  lemma SameAsItself(file: Bytes, done: set<nat>)
    ensures SameMissing(file, file, done)
  {
  }

  lemma AllCompleted(meta: Meta, md5: Bytes -> string, env: Env, done: set<nat>, completed: set<nat>, file: Bytes)
    requires meta.chunkSize > 0 && |meta.blockList| == PartCount(|file|, UPLOAD_CHUNK_SIZE)
    requires DoneUpTo(file, meta, md5, env.put, done, completed, |meta.blockList|)
    ensures AllOf(completed, file)
  {
  }

  /** What an attempt does to the completed chunks: it goes on up to the first one that is refused. */
  ghost predicate Stops(file: Bytes, c: Checkpoint, md5: Bytes -> string, env: Env, completed: set<nat>, ok: bool)
    requires c.meta.chunkSize > 0
  {
    exists next: nat :: DoneUpTo(file, c.meta, md5, env.put, c.completedParts, completed, next) && next <= |c.meta.blockList|
      && (ok <==> next == |c.meta.blockList|)
      && (!ok ==> next !in c.completedParts && Refuses(file, c.meta, md5, env.put, next))
  }

  /** The part loop of one session, and the checkpoints it hands out. */
  method RunSession(file: Bytes, c: Checkpoint, stored0: map<nat, Bytes>, ghost origin: Bytes, md5: Bytes -> string,
                    ghost reports: bool, env: Env)
    returns (ok: bool, stored: map<nat, Bytes>, issued: set<Checkpoint>, completed: set<nat>)
    requires Injective(md5) && (reports ==> Reporting(env))
    requires Holds(c, stored0, origin, md5, reports) && c.meta.size == |file|
    requires RightLengths(stored0, |file|, UPLOAD_CHUNK_SIZE)
    ensures RightLengths(stored, |file|, UPLOAD_CHUNK_SIZE)
    ensures OnlyPartsOf(stored0, file, UPLOAD_CHUNK_SIZE) ==> OnlyPartsOf(stored, file, UPLOAD_CHUNK_SIZE)
    ensures Holds(c, stored, origin, md5, reports)
    ensures forall x :: x in issued ==>
              x == c.(completedParts := x.completedParts) && Holds(x, stored, origin, md5, reports)
    ensures c.(completedParts := completed) in issued && Stops(file, c, md5, env, completed, ok)
    ensures ok ==> Built(stored0, stored, file, origin, c.completedParts, reports)
    ensures AllStored(env) && (Silent(env) || SameMissing(file, origin, c.completedParts)) ==> ok
    ensures AllStored(env) && Reporting(env) ==> (ok <==> SameMissing(file, origin, c.completedParts))
  {
    assert c.meta.chunkSize == UPLOAD_CHUNK_SIZE && |c.meta.blockList| == PartCount(|file|, UPLOAD_CHUNK_SIZE);
    assert forall i :: i in c.completedParts ==> i < |c.meta.blockList|;
    assert MetaOf(c.meta, origin, md5);
    hide *;
    var uploaded, checkpoints;
    ghost var next;
    ok, completed, stored, uploaded, checkpoints, next := UploadBaiduParts(file, c.meta, md5, c.completedParts, stored0,
                                                                           env.put);
    StopsThere(file, c, md5, env, completed, ok, next);
    UndisturbedRun(file, origin, c.meta, md5, env, c.completedParts, completed, ok, next);
    LengthsAfter(stored0, stored, file, c.meta, md5, env.put, c.completedParts, completed);
    HandedWithin(checkpoints, c.completedParts, completed);
    issued := CheckpointsOf(c, checkpoints);
    forall k | c.completedParts <= k <= completed
      ensures Holds(c.(completedParts := k), stored, origin, md5, reports)
    {
      HoldsAfter(c, k, stored0, stored, file, origin, md5, reports, env, completed);
    }
    if ok {
      AllCompleted(c.meta, md5, env, c.completedParts, completed, file);
      Finished(c, stored0, stored, file, origin, md5, reports, env, completed);
    }
  }

  /** The calls of the resume-state callback. */
  method CheckpointsOf(c: Checkpoint, checkpoints: seq<set<nat>>) returns (issued: set<Checkpoint>)
    ensures forall x :: x in issued ==> exists k :: k in checkpoints && x == c.(completedParts := k)
    ensures forall k :: k in checkpoints ==> c.(completedParts := k) in issued
  {
    issued := {};
    for i := 0 to |checkpoints|
      invariant forall x :: x in issued ==> exists k :: k in checkpoints && x == c.(completedParts := k)
      invariant forall k :: k in checkpoints[..i] ==> c.(completedParts := k) in issued
    {
      issued := issued + {c.(completedParts := checkpoints[i])};
    }
    assert checkpoints[..|checkpoints|] == checkpoints;
  }

  lemma HandedWithin(checkpoints: seq<set<nat>>, completed0: set<nat>, completed: set<nat>)
    requires Handed(checkpoints, completed0, completed)
    ensures |checkpoints| > 0 && completed0 <= completed
    ensures forall k :: k in checkpoints ==> completed0 <= k <= completed
  {
  }

  lemma StopsThere(file: Bytes, c: Checkpoint, md5: Bytes -> string, env: Env, completed: set<nat>, ok: bool, next: nat)
    requires c.meta.chunkSize > 0 && DoneUpTo(file, c.meta, md5, env.put, c.completedParts, completed, next)
    requires next <= |c.meta.blockList| && (ok <==> next == |c.meta.blockList|)
    requires !ok ==> next !in c.completedParts && Refuses(file, c.meta, md5, env.put, next)
    ensures Stops(file, c, md5, env, completed, ok)
  {
  }

  class Baidu {
    const md5: Bytes -> string
    /** Whether every reply to an upload carries the checksum of the stored chunk. */
    const reports: bool
    /** Chunks by upload id; chunk i is part i + 1. */
    var sessions: map<string, map<nat, Bytes>>
    /** What the next attempt may be handed: the checkpoint of the last one, or one it issued. */
    var saved: set<Checkpoint>
    /** The file that was hashed for each session. */
    ghost var origin: map<string, Bytes>

    ghost predicate Valid()
      reads this
    {
      && Injective(md5)
      && origin.Keys == sessions.Keys
      && (forall s :: s in sessions ==> RightLengths(sessions[s], |origin[s]|, UPLOAD_CHUNK_SIZE))
      && (forall c :: c in saved ==> c.uploadID in sessions && Holds(c, sessions[c.uploadID], origin[c.uploadID], md5, reports))
    }

    constructor (md5: Bytes -> string, reports: bool)
      requires Injective(md5)
      ensures Valid() && sessions == map[] && saved == {} && this.md5 == md5 && this.reports == reports
    {
      this.md5, this.reports, sessions, saved, origin := md5, reports, map[], {}, map[];
    }

    /** The checkpoint the upload starts from: the one handed over, or that of a new session. */
    method OpenSession(req: Request, file: Bytes, state: Option<Checkpoint>, env: Env)
      returns (stop: Option<Outcome>, c: Checkpoint)
      requires Valid() && (state.Some? ==> state.value in saved)
      requires env.precreate.Precreated? ==> env.precreate.uploadID !in sessions
      modifies this
      ensures Valid() && Opened(old(sessions), old(origin), file)
      ensures stop.Some? ==> !stop.value.CreateSent?
      ensures forall x :: x in saved ==> (state.Some? && x == state.value) || (stop == None && x == c)
      ensures !IsAccepted(state, req, file) && env.target.Some? && env.readable && env.precreate.Rapid? ==>
                stop == Some(RapidUpload)
      ensures stop == None ==> c.parentID == req.parentID && c.requestedName == req.requestedName
      ensures stop == None ==> c in saved && c.meta.size == |file| && forall x :: x in saved && x.uploadID == c.uploadID ==> x == c
      ensures forall s :: s in sessions && s !in old(sessions) ==> env.precreate == Precreated(s)
      ensures stop == None ==> c.completedParts == DoneBefore(state, req, file)
      ensures IsAccepted(state, req, file) ==> stop == None && c == state.value
      ensures stop == None && !IsAccepted(state, req, file) ==>
                Started(c, req, env) && c.uploadID in origin && origin[c.uploadID] == file
      ensures stop == None ==> c.uploadID in origin && |origin[c.uploadID]| == |file|
      ensures (Opens(env) || IsAccepted(state, req, file) ==> stop != Some(Failed)) && (stop == Some(RapidUpload) ==> env.precreate.Rapid?)
      ensures stop.Some? ==> stop.value == Failed || stop.value == RapidUpload
    {
      stop, c := Some(Failed), Checkpoint("", "", "", "", "", "", {}, Meta(0, UPLOAD_CHUNK_SIZE, [], "", ""));
      saved := if state.Some? then {state.value} else {};
      if state.Some? && Accepted(state.value, req, |file|) {
        c, stop := state.value, None;
        assert Holds(c, sessions[c.uploadID], origin[c.uploadID], md5, reports);
        return;
      }
      if env.target == None || !env.readable || env.precreate.PrecreateFails? {
        return;
      }
      var meta := PrepareUploadMeta(file, md5);
      assert meta.size == |file|;
      hide MetaOf, Holds, RightLengths, Injective;
      if env.precreate.Rapid? {
        stop := Some(RapidUpload);
        return;
      }
      if env.precreate.uploadID == "" || env.host == None {
        return;
      }
      c := Checkpoint(req.parentID, req.requestedName, env.target.value.0, env.target.value.1, env.precreate.uploadID,
                      env.host.value, {}, meta);
      StartSession(file, c);
      stop := None;
    }

    /** The checkpoint of a new session for the request. */
    ghost predicate Started(c: Checkpoint, req: Request, env: Env) {
      && env.target.Some? && env.precreate.Precreated? && env.host.Some?
      && c == Checkpoint(req.parentID, req.requestedName, env.target.value.0, env.target.value.1, env.precreate.uploadID,
                         env.host.value, {}, c.meta)
    }

    /** A new, empty session, and its first checkpoint. */
    method StartSession(file: Bytes, c: Checkpoint)
      requires Valid() && c.uploadID !in sessions && c.completedParts == {}
      requires MetaOf(c.meta, file, md5) && c.meta.chunkSize == UPLOAD_CHUNK_SIZE
      modifies this
      ensures Valid() && saved == old(saved) + {c}
      ensures sessions == old(sessions)[c.uploadID := map[]] && origin == old(origin)[c.uploadID := file]
    {
      assert Holds(c, map[], file, md5, reports);
      assert RightLengths(map[], |file|, UPLOAD_CHUNK_SIZE);
      hide Injective, Holds, RightLengths;
      sessions, origin := sessions[c.uploadID := map[]], origin[c.uploadID := file];
      saved := saved + {c};
    }

    static lemma SizesAgree(c: Checkpoint, stored: map<nat, Bytes>, origin: Bytes, md5: Bytes -> string, reports: bool)
      requires Holds(c, stored, origin, md5, reports)
      ensures |origin| == c.meta.size && c.meta.chunkSize == UPLOAD_CHUNK_SIZE > 0
    {
    }

    /** The upload of the missing chunks of one session. */
    method UploadSession(file: Bytes, c: Checkpoint, env: Env) returns (ok: bool, completed: set<nat>)
      requires Valid() && c in saved && c.meta.size == |file| && (reports ==> Reporting(env))
      requires forall x :: x in saved && x.uploadID == c.uploadID ==> x == c
      modifies this`sessions, this`saved
      ensures Valid() && sessions.Keys == old(sessions).Keys && c.uploadID in sessions
      ensures ok ==> Built(old(sessions)[c.uploadID], sessions[c.uploadID], file, origin[c.uploadID], c.completedParts, reports)
      ensures OnlyPartsOf(old(sessions)[c.uploadID], file, UPLOAD_CHUNK_SIZE) ==>
                OnlyPartsOf(sessions[c.uploadID], file, UPLOAD_CHUNK_SIZE)
      ensures forall s :: s in sessions && s != c.uploadID ==> sessions[s] == old(sessions)[s]
      ensures forall x :: x in saved ==> x in old(saved) || x == c.(completedParts := x.completedParts)
      ensures c.meta.chunkSize > 0 && c.(completedParts := completed) in saved && Stops(file, c, md5, env, completed, ok)
      ensures AllStored(env) && (Silent(env) || SameMissing(file, origin[c.uploadID], c.completedParts)) ==> ok
      ensures AllStored(env) && Reporting(env) ==> (ok <==> SameMissing(file, origin[c.uploadID], c.completedParts))
    {
      hide Holds, Injective, RightLengths, Built, OnlyPartsOf, Reporting, AllStored, Silent, SameMissing, Stops,
        PartCount, MetaOf;
      var stored, issued;
      SizesAgree(c, sessions[c.uploadID], origin[c.uploadID], md5, reports);
      ok, stored, issued, completed := RunSession(file, c, sessions[c.uploadID], origin[c.uploadID], md5, reports, env);
      sessions := sessions[c.uploadID := stored];
      saved := saved + issued;
    }

    /** One attempt. With `DoneBefore` the chunks completed before it, the session then holds the
        current file exactly when those are chunks of the current file; and when replies carry
        checksums, it always holds the file that was hashed for it. Where no call fails, it is given up
        exactly when replies carry checksums and a missing chunk differs from the hashed one. */
    method UploadLocalFile(req: Request, file: Bytes, state: Option<Checkpoint>, env: Env)
      returns (r: Outcome, last: Option<Checkpoint>)
      requires Valid() && (state.Some? ==> state.value in saved) && (reports ==> Reporting(env))
      // the service opens a new session under a name not used before
      requires env.precreate.Precreated? ==> env.precreate.uploadID !in sessions
      modifies this
      ensures Valid()
      ensures forall s :: s in origin ==> if s in old(origin) then origin[s] == old(origin)[s] else origin[s] == file && env.precreate == Precreated(s)
      ensures r.CreateSent? ==> r.uploadID in sessions && |origin[r.uploadID]| == |file|
      ensures r.CreateSent? ==>
                var before := if r.uploadID in old(sessions) then old(sessions)[r.uploadID] else map[];
                Built(before, sessions[r.uploadID], file, origin[r.uploadID], DoneBefore(state, req, file), reports)
      ensures old(OnlyFrom(file)) ==> OnlyFrom(file)
      ensures last.Some? ==>
                && last.value in saved && last.value.meta.chunkSize > 0
                && Stops(file, last.value.(completedParts := DoneBefore(state, req, file)), md5, env, last.value.completedParts, r.CreateSent?)
                && if IsAccepted(state, req, file) then last.value == state.value.(completedParts := last.value.completedParts)
                   else Started(last.value.(completedParts := {}), req, env)
      ensures r.CreateSent? ==> last.Some? && last.value.uploadID == r.uploadID
      ensures Helpful(env) && IsAccepted(state, req, file) ==>
                var hashed, done := old(origin)[state.value.uploadID], state.value.completedParts;
                && (Silent(env) || SameMissing(file, hashed, done) ==> r.CreateSent?)
                && (Reporting(env) ==> (r.CreateSent? <==> SameMissing(file, hashed, done)))
      ensures Helpful(env) && !IsAccepted(state, req, file) ==>
                r != Failed && (env.precreate.Precreated? ==> r.CreateSent?)
      ensures r == Failed && (IsAccepted(state, req, file) || (Opens(env) && env.precreate.Precreated?)) ==> last.Some?
      ensures r == RapidUpload ==> env.precreate.Rapid?
      ensures !IsAccepted(state, req, file) && env.target.Some? && env.readable && env.precreate.Rapid? ==>
                r == RapidUpload
      ensures forall x :: x in saved ==>
                (state.Some? && x == state.value) || (x.parentID == req.parentID && x.requestedName == req.requestedName && x.meta.size == |file|)
    {
      hide DoneFrom, RightLengths, Built, Reporting, Holds, Injective, PartCount, DoneBefore, Accepted, IsAccepted,
        Stops, SameMissing,
        Silent, AllStored, Opens, Helpful, Started, AllFrom, OnlyPartsOf;
      last := None;
      AcceptedMeans(state, req, file);
      HelpfulMeans(env);
      var stop, c := OpenSession(req, file, state, env);
      ghost var mid := sessions;
      if stop.Some? {
        NewAreEmpty(old(sessions), mid, file);
        return stop.value, None;
      }
      var ok, completed := UploadSession(file, c, env);
      AllFromStays(old(sessions), mid, sessions, file, c.uploadID);
      SameAsItself(file, c.completedParts);
      r, last := if ok then CreateSent(c.uploadID) else Failed, Some(c.(completedParts := completed));
    }

    /** Any number of attempts for one unchanged file, each with whatever faults. */
    method UploadRuns(file: Bytes, attempts: seq<Attempt>) returns (built: seq<Option<Bytes>>)
      requires Valid() && OnlyFrom(file) && (reports ==> forall a :: a in attempts ==> Reporting(a.env))
      modifies this
      ensures Valid() && OnlyFrom(file) && |built| == |attempts|
      ensures forall b :: b in built && b.Some? ==> b.value == file
    {
      built := [];
      for i := 0 to |attempts|
        invariant Valid() && OnlyFrom(file) && |built| == i
        invariant forall b :: b in built && b.Some? ==> b.value == file
      {
        assert attempts[i] in attempts;
        var whole := RunOnce(attempts[i].(file := file));
        built := built + [whole];
      }
    }

    /** Any number of attempts, each with whatever file and faults, against a service that reports
        checksums: what is built is always the content of one of the files, never a mixture. A fresh
        attempt in which no call fails builds its file. */
    method CheckedRuns(attempts: seq<Attempt>) returns (built: seq<Option<Bytes>>)
      requires Valid() && reports && sessions == map[]
      requires forall a :: a in attempts ==> Reporting(a.env)
      modifies this
      ensures Valid() && |built| == |attempts|
      ensures forall b :: b in built && b.Some? ==> exists a :: a in attempts && a.file == b.value
      ensures forall i :: 0 <= i < |attempts| && FreshAndHelpful(attempts[i]) && NewID(attempts, i) ==>
                built[i] == Some(attempts[i].file)
    {
      hide Reporting, FreshAndHelpful, NewID, OnlyFrom, Holds, RightLengths, Injective, OriginsAreFiles;
      built := [];
      NoOrigins(attempts);
      assert origin == map[];
      for i := 0 to |attempts|
        invariant Valid() && |built| == i
        invariant OriginsAreFiles(attempts, i, origin)
        invariant BuiltAreFiles(attempts, built)
      {
        assert attempts[i] in attempts;
        ghost var before := origin;
        var whole := RunOnce(attempts[i]);
        CheckedStep(attempts, i, before, origin, built, whole);
        built := built + [whole];
      }
    }

    /** One attempt with a checkpoint it may be handed, and what the service makes of it. */
    method RunOnce(a: Attempt) returns (whole: Option<Bytes>)
      requires Valid() && (reports ==> Reporting(a.env))
      modifies this
      ensures Valid()
      ensures forall s :: s in origin ==>
                if s in old(origin) then origin[s] == old(origin)[s] else origin[s] == a.file && a.env.precreate == Precreated(s)
      ensures old(OnlyFrom(a.file)) ==> OnlyFrom(a.file) && (whole.Some? ==> whole.value == a.file)
      ensures reports && whole.Some? ==> exists s :: s in origin && whole.value == origin[s]
      ensures FreshAndHelpful(a) && a.env.precreate.uploadID !in old(sessions) ==> whole == Some(a.file)
    {
      hide DoneFrom, Holds, Injective, Accepted, Stops, SameMissing, Silent, AllStored, Opens, Helpful, Started;
      AcceptedMeans(None, a.req, a.file);
      var state := if a.state.Some? && a.state.value in saved then a.state else None;
      var clash := a.env.precreate.Precreated? && a.env.precreate.uploadID in sessions;
      var env := if clash then a.env.(precreate := PrecreateFails) else a.env;
      var r, last := UploadLocalFile(a.req, a.file, state, env);
      whole := None;
      if r.CreateSent? {
        whole := Some(Assemble(sessions[r.uploadID], PartCount(|a.file|, UPLOAD_CHUNK_SIZE)));
        if OnlyFrom(a.file) {
          CompleteSession(sessions[r.uploadID], a.file, UPLOAD_CHUNK_SIZE);
        }
        NothingDone(a.file);
      }
    }

    /** Sessions are as they were, but for new ones, which are empty and for `file`. */
    ghost predicate Opened(sessions0: map<string, map<nat, Bytes>>, origin0: map<string, Bytes>, file: Bytes)
      requires sessions0.Keys == origin0.Keys
      reads this`sessions, this`origin
    {
      && sessions.Keys == origin.Keys && sessions0.Keys <= sessions.Keys
      && forall s :: s in sessions ==>
           if s in sessions0 then sessions[s] == sessions0[s] && origin[s] == origin0[s]
           else sessions[s] == map[] && origin[s] == file
    }

    lemma SessionsHaveOrigins()
      requires Valid()
      ensures origin.Keys == sessions.Keys
    {
    }

    lemma NothingStored(file: Bytes)
      requires sessions == map[]
      ensures OnlyFrom(file)
    {
    }

    lemma LastHolds(c: Checkpoint, req: Request, first: Bytes, file: Bytes)
      requires Valid() && c in saved && OnlyFrom(first) && Started(c.(completedParts := {}), req, FirstEnv())
      requires forall s :: s in origin ==> |origin[s]| == |file| && Precreated(s) == Precreated("id")
      requires PartCount(|file|, UPLOAD_CHUNK_SIZE) == 2 && forall b :: md5(b) != ""
      ensures c.uploadID == "id" && c.uploadID in sessions && "other" !in sessions
      ensures |c.meta.blockList| == 2 && IsAccepted(Some(c), req, file)
      ensures 0 in c.completedParts ==>
                1 in sessions[c.uploadID] && sessions[c.uploadID][1] == Part(first, UPLOAD_CHUNK_SIZE, 1)
    {
      FirstHandsOut(c, req, first, file, sessions[c.uploadID], origin[c.uploadID], md5, reports);
    }

    /** Every chunk stored in any session is that chunk of `file`. */
    ghost predicate OnlyFrom(file: Bytes)
      reads this`sessions
    {
      AllFrom(sessions, file)
    }
  }

  /** The service gives this attempt an upload id that it gave none before. */
  ghost predicate NewID(attempts: seq<Attempt>, i: nat)
    requires i < |attempts|
  {
    forall j :: 0 <= j < i ==> attempts[j].env.precreate != attempts[i].env.precreate
  }

  /** Each session was created in one of the first i attempts, for its file. */
  ghost predicate OriginsAreFiles(attempts: seq<Attempt>, i: nat, origin: map<string, Bytes>)
    requires i <= |attempts|
  {
    forall s :: s in origin ==> exists j :: 0 <= j < i && attempts[j].env.precreate == Precreated(s) && attempts[j].file == origin[s]
  }

  lemma NoOrigins(attempts: seq<Attempt>)
    ensures OriginsAreFiles(attempts, 0, map[])
  {
  }

  ghost predicate BuiltAreFiles(attempts: seq<Attempt>, built: seq<Option<Bytes>>)
    requires |built| <= |attempts|
  {
    && (forall b :: b in built && b.Some? ==> exists a :: a in attempts && a.file == b.value)
    && forall i :: 0 <= i < |built| && FreshAndHelpful(attempts[i]) && NewID(attempts, i) ==> built[i] == Some(attempts[i].file)
  }

  lemma CheckedStep(attempts: seq<Attempt>, i: nat, before: map<string, Bytes>, after: map<string, Bytes>,
                    built: seq<Option<Bytes>>, whole: Option<Bytes>)
    requires i < |attempts| && OriginsAreFiles(attempts, i, before) && |built| == i && BuiltAreFiles(attempts, built)
    requires forall s :: s in after ==>
               if s in before then after[s] == before[s]
               else after[s] == attempts[i].file && attempts[i].env.precreate == Precreated(s)
    requires whole.Some? ==> exists s :: s in after && whole.value == after[s]
    requires FreshAndHelpful(attempts[i]) && attempts[i].env.precreate.uploadID !in before ==>
               whole == Some(attempts[i].file)
    ensures OriginsAreFiles(attempts, i + 1, after) && BuiltAreFiles(attempts, built + [whole])
  {
    hide FreshAndHelpful;
    OriginsStay(attempts, i, before, after);
    if whole.Some? {
      var s :| s in after && whole.value == after[s];
      var j :| 0 <= j < i + 1 && attempts[j].env.precreate == Precreated(s) && attempts[j].file == after[s];
      assert attempts[j] in attempts;
    }
    if FreshAndHelpful(attempts[i]) && NewID(attempts, i) {
      NewIDIsNew(attempts, i, before);
    }
  }

  lemma OriginsStay(attempts: seq<Attempt>, i: nat, before: map<string, Bytes>, after: map<string, Bytes>)
    requires i < |attempts| && OriginsAreFiles(attempts, i, before)
    requires forall s :: s in after ==>
               if s in before then after[s] == before[s]
               else after[s] == attempts[i].file && attempts[i].env.precreate == Precreated(s)
    ensures OriginsAreFiles(attempts, i + 1, after)
  {
  }

  lemma NewIDIsNew(attempts: seq<Attempt>, i: nat, before: map<string, Bytes>)
    requires i < |attempts| && OriginsAreFiles(attempts, i, before) && NewID(attempts, i)
    ensures FreshAndHelpful(attempts[i]) ==> attempts[i].env.precreate.uploadID !in before
  {
  }

  /** An attempt without a checkpoint in which no call fails. */
  ghost predicate FreshAndHelpful(a: Attempt) {
    a.state == None && Helpful(a.env) && a.env.precreate.Precreated?
  }

  ghost predicate AllFrom(sessions: map<string, map<nat, Bytes>>, file: Bytes) {
    forall s :: s in sessions ==> OnlyPartsOf(sessions[s], file, UPLOAD_CHUNK_SIZE)
  }

  /** New sessions are empty, and of one session only chunks of the file were added. */
  lemma AllFromStays(before: map<string, map<nat, Bytes>>, mid: map<string, map<nat, Bytes>>,
                     after: map<string, map<nat, Bytes>>, file: Bytes, id: string)
    requires forall s :: s in mid ==> if s in before then mid[s] == before[s] else mid[s] == map[]
    requires after.Keys == mid.Keys && id in mid && forall s :: s in after && s != id ==> after[s] == mid[s]
    requires OnlyPartsOf(mid[id], file, UPLOAD_CHUNK_SIZE) ==> OnlyPartsOf(after[id], file, UPLOAD_CHUNK_SIZE)
    ensures AllFrom(before, file) ==> AllFrom(mid, file) && AllFrom(after, file)
  {
  }

  lemma NewAreEmpty(before: map<string, map<nat, Bytes>>, after: map<string, map<nat, Bytes>>, file: Bytes)
    requires forall s :: s in after ==> if s in before then after[s] == before[s] else after[s] == map[]
    ensures AllFrom(before, file) ==> AllFrom(after, file)
  {
  }

  lemma NothingDone(file: Bytes)
    ensures forall stored :: DoneFrom(stored, file, {})
  {
  }

  predicate IsAccepted(state: Option<Checkpoint>, req: Request, file: Bytes) {
    state.Some? && Accepted(state.value, req, |file|)
  }

  /** The chunks an attempt takes to be completed: those of the checkpoint, if it is accepted. */
  function DoneBefore(state: Option<Checkpoint>, req: Request, file: Bytes): set<nat> {
    if IsAccepted(state, req, file) then state.value.completedParts else {}
  }

  lemma AcceptedMeans(state: Option<Checkpoint>, req: Request, file: Bytes)
    ensures IsAccepted(state, req, file) ==> state.Some? && DoneBefore(state, req, file) == state.value.completedParts
    ensures !IsAccepted(state, req, file) ==> DoneBefore(state, req, file) == {}
  {
  }

  // ----- a run that builds a mixture -----

  function TwoChunks(b: byte): Bytes {
    seq(UPLOAD_CHUNK_SIZE + 1, _ => b)
  }

  lemma TwoChunksMeans(b: byte)
    ensures |TwoChunks(b)| == UPLOAD_CHUNK_SIZE + 1 && PartCount(|TwoChunks(b)|, UPLOAD_CHUNK_SIZE) == 2
    ensures Part(TwoChunks(b), UPLOAD_CHUNK_SIZE, 1) == seq(UPLOAD_CHUNK_SIZE, _ => b)
    ensures Part(TwoChunks(b), UPLOAD_CHUNK_SIZE, 2) == [b]
  {
  }

  /** The first attempt puts chunk 0, and chunk 1 is refused. */
  function FirstEnv(): Env {
    Env(Some(("name", "/name")), true, Precreated("id"), Some("host"), (i: nat) => if i == 0 then Stored(false) else Refused)
  }

  /** In the second attempt every put is stored. */
  function SecondEnv(): Env {
    FirstEnv().(precreate := Precreated("other"), put := (i: nat) => Stored(false))
  }

  lemma EnvsMean()
    ensures Opens(FirstEnv()) && FirstEnv().precreate == Precreated("id")
    ensures Helpful(SecondEnv()) && Silent(SecondEnv()) && SecondEnv().precreate == Precreated("other")
  {
  }

  /** The first attempt completes chunk 0 and fails. */
  lemma FirstStops(file: Bytes, c: Checkpoint, md5: Bytes -> string, completed: set<nat>, ok: bool)
    requires c.meta.chunkSize > 0 && Stops(file, c, md5, FirstEnv(), completed, ok)
    requires c.completedParts == {} && |c.meta.blockList| == 2
    ensures !ok && completed == {0}
  {
    var next: nat :| DoneUpTo(file, c.meta, md5, FirstEnv().put, {}, completed, next) && next <= 2 && (ok <==> next == 2)
      && (!ok ==> Refuses(file, c.meta, md5, FirstEnv().put, next));
    assert Refuses(file, c.meta, md5, FirstEnv().put, 1) && !Refuses(file, c.meta, md5, FirstEnv().put, 0);
    assert next == 1;
  }

  /** What the first attempt hands out is accepted for any file of that size, and its chunk is stored. */
  lemma FirstHandsOut(c: Checkpoint, req: Request, first: Bytes, file: Bytes, stored: map<nat, Bytes>, origin: Bytes,
                      md5: Bytes -> string, reports: bool)
    requires Holds(c, stored, origin, md5, reports) && |origin| == |file| && PartCount(|file|, UPLOAD_CHUNK_SIZE) == 2
    requires forall b :: md5(b) != ""
    requires c.parentID == req.parentID && c.requestedName == req.requestedName
    requires c.targetName != "" && c.targetPath != "" && c.uploadID != "" && c.uploadHost != ""
    ensures |c.meta.blockList| == 2 && IsAccepted(Some(c), req, file)
    ensures 0 in c.completedParts ==> 1 in stored
    ensures 0 in c.completedParts && OnlyPartsOf(stored, first, UPLOAD_CHUNK_SIZE) ==>
              stored[1] == Part(first, UPLOAD_CHUNK_SIZE, 1)
  {
  }

  lemma NotAccepted(req: Request, file: Bytes)
    ensures !IsAccepted(None, req, file) && DoneBefore(None, req, file) == {}
  {
  }

  lemma MixedOfTwo(before: map<nat, Bytes>, after: map<nat, Bytes>, file: Bytes, origin: Bytes, reports: bool)
    requires Built(before, after, file, origin, {0}, reports) && PartCount(|file|, UPLOAD_CHUNK_SIZE) == 2 && 1 in before
    ensures 1 in after && 2 in after && Assemble(after, 2) == before[1] + Part(file, UPLOAD_CHUNK_SIZE, 2)
  {
    assert 1 - 1 in {0} && 2 - 1 !in {0};
    assert Assemble(after, 0) == [] && Assemble(after, 1) == [] + after[1];
  }

  lemma MixtureDiffers(built: Bytes)
    requires built == seq(UPLOAD_CHUNK_SIZE, _ => 1 as byte) + [3]
    ensures built != TwoChunks(1) && built != TwoChunks(3)
  {
    assert built[UPLOAD_CHUNK_SIZE] == 3 && TwoChunks(1)[UPLOAD_CHUNK_SIZE] == 1;
    assert built[0] == 1 && TwoChunks(3)[0] == 3;
  }

  /** The first attempt: it puts chunk 0 of its file, fails, and leaves a checkpoint that is accepted
      for any other file of that size. */
  method FirstAttempt(md5: Bytes -> string, req: Request, first: Bytes, file: Bytes)
    returns (cloud: Baidu, last: Option<Checkpoint>)
    requires Injective(md5) && (forall b :: md5(b) != "") && |first| == |file| && PartCount(|file|, UPLOAD_CHUNK_SIZE) == 2
    ensures fresh(cloud) && cloud.Valid() && !cloud.reports && "other" !in cloud.sessions
    ensures last.Some? && last.value in cloud.saved && IsAccepted(last, req, file) && last.value.completedParts == {0}
    ensures last.value.uploadID in cloud.sessions && 1 in cloud.sessions[last.value.uploadID]
    ensures cloud.sessions[last.value.uploadID][1] == Part(first, UPLOAD_CHUNK_SIZE, 1)
  {
    hide *;
    EnvsMean();
    cloud := new Baidu(md5, false);
    cloud.NothingStored(first);
    NotAccepted(req, first);
    var r;
    r, last := cloud.UploadLocalFile(req, first, None, FirstEnv());
    cloud.LastHolds(last.value, req, first, file);
    FirstStops(first, last.value.(completedParts := {}), md5, last.value.completedParts, r.CreateSent?);
  }

  /** Without checksums in the replies a replaced file is not noticed. The first attempt puts chunk 0
      of one file; the second one, handed its checkpoint, adds chunk 1 of another file of that size. */
  method ReplacedFileIsMixed(md5: Bytes -> string) returns (first: Bytes, file: Bytes, built: Bytes)
    requires Injective(md5) && forall b :: md5(b) != ""
    ensures first == TwoChunks(1) && file == TwoChunks(3)
    ensures built == seq(UPLOAD_CHUNK_SIZE, _ => 1 as byte) + [3] && built != first && built != file
  {
    hide *;
    first, file := TwoChunks(1), TwoChunks(3);
    TwoChunksMeans(1);
    TwoChunksMeans(3);
    EnvsMean();
    var req := Request("parent", "name");
    var cloud, last := FirstAttempt(md5, req, first, file);
    AcceptedMeans(last, req, file);
    ghost var before := cloud.sessions[last.value.uploadID];
    var r;
    r, last := cloud.UploadLocalFile(req, file, last, SecondEnv());
    cloud.SessionsHaveOrigins();
    MixedOfTwo(before, cloud.sessions[r.uploadID], file, cloud.origin[r.uploadID], cloud.reports);
    built := Assemble(cloud.sessions[r.uploadID], 2);
    MixtureDiffers(built);
  }
}
