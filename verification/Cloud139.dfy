/** drivers/139Cloud/upload.go: upload in parts with a checkpoint after each part. A later run may
    be handed any checkpoint issued before, and the local file may have been replaced meanwhile. */
module Cloud139 {
  import opened Seqs
  import opened UploadPlan
  import opened Wrappers

  const DEFAULT_PART_SIZE := 100 * 1024 * 1024
  const LARGE_PART_SIZE := 512 * 1024 * 1024
  const LARGE_THRESHOLD := 30 * 1024 * 1024 * 1024
  const MAX_PARTS_PER_REQUEST := 100

  function PartSizeFor(size: nat): (partSize: int)
    ensures partSize > 0
  {
    if size > LARGE_THRESHOLD then LARGE_PART_SIZE else DEFAULT_PART_SIZE
  }

  datatype PartSpec = PartSpec(partNumber: nat, partSize: int, partOffset: int)

  function SpecOf(size: nat, n: nat): PartSpec
    requires n >= 1
  {
    PartSpec(n, PartLen(size, PartSizeFor(size), n), (n - 1) * PartSizeFor(size))
  }

  function Count(size: nat): nat { PartCount(size, PartSizeFor(size)) }

  /** Up to 30 GiB there are at most 308 parts of 100 MiB; beyond, parts of 512 MiB. */
  lemma PlanSizes(size: nat)
    ensures size <= 32212254720 ==>
              104857600 * (Count(size) - 1) <= size <= 104857600 * Count(size) && Count(size) <= 308
    ensures size > 32212254720 ==> 536870912 * (Count(size) - 1) < size <= 536870912 * Count(size) && Count(size) >= 61
  {
  }

  /** The plan depends on the size alone: part k + 1 at index k. */
  ghost predicate IsPlan(parts: seq<PartSpec>, size: nat) {
    |parts| == Count(size) && forall k :: 0 <= k < |parts| ==> parts[k] == SpecOf(size, k + 1)
  }

  /** `buildUploadParts`. */
  method BuildUploadParts(size: nat) returns (parts: seq<PartSpec>)
    ensures IsPlan(parts, size)
  {
    var partSize := DEFAULT_PART_SIZE;
    if size > LARGE_THRESHOLD {
      partSize := LARGE_PART_SIZE;
    }
    var count := (size + partSize - 1) / partSize;
    if count < 1 {
      count := 1;
    }
    parts := [];
    for index := 0 to count
      invariant |parts| == index
      invariant forall k :: 0 <= k < index ==> parts[k] == SpecOf(size, k + 1)
    {
      var offset := index * partSize;
      var length := partSize;
      if size - offset < length {
        length := size - offset;
      }
      if length < 0 {
        length := 0;
      }
      parts := parts + [PartSpec(index + 1, length, offset)];
    }
  }

  /** `pending139Parts`: the parts not completed, in order. */
  method PendingParts(parts: seq<PartSpec>, completed: set<nat>) returns (pending: seq<PartSpec>)
    ensures forall p :: p in pending <==> p in parts && p.partNumber !in completed
  {
    pending := [];
    for i := 0 to |parts|
      invariant forall p :: p in pending <==> p in parts[..i] && p.partNumber !in completed
    {
      TakeNext(parts, i);
      if parts[i].partNumber !in completed {
        pending := pending + [parts[i]];
      }
    }
    TakeAll(parts);
  }

  /** The address is one the reply gives for the part, or the one known before where the reply gives none. */
  ghost predicate FromReply(url: string, n: nat, dest: map<nat, string>, items: seq<(nat, string)>) {
    || (n > 0 && url != "" && (n, url) in items)
    || (n in dest && url == dest[n] && forall item :: item in items && item.0 == n ==> n == 0 || item.1 == "")
  }

  method MergeUploadURLs(dest: map<nat, string>, items: seq<(nat, string)>) returns (urls: map<nat, string>)
    ensures forall n :: n in dest && dest[n] != "" ==> n in urls && urls[n] != ""
    ensures forall item :: item in items && item.0 > 0 && item.1 != "" ==> item.0 in urls && urls[item.0] != ""
    ensures forall n :: n in urls ==> FromReply(urls[n], n, dest, items)
  {
    urls := dest;
    for i := 0 to |items|
      invariant forall n :: n in dest && dest[n] != "" ==> n in urls && urls[n] != ""
      invariant forall item :: item in items[..i] && item.0 > 0 && item.1 != "" ==> item.0 in urls && urls[item.0] != ""
      invariant forall n :: n in urls ==> FromReply(urls[n], n, dest, items[..i])
    {
      TakeNext(items, i);
      if items[i].0 > 0 && items[i].1 != "" {
        urls := urls[items[i].0 := items[i].1];
      }
    }
    TakeAll(items);
  }

  predicate HasUploadURL(urls: map<nat, string>, n: nat) { n in urls && urls[n] != "" }

  predicate HasUploadURLs(urls: map<nat, string>, parts: seq<PartSpec>) {
    forall i :: 0 <= i < |parts| ==> HasUploadURL(urls, parts[i].partNumber)
  }

  datatype Request = Request(parentID: string, requestedName: string)

  /** The persisted resume state. */
  datatype Checkpoint = Checkpoint(parentID: string, requestedName: string, targetName: string, fileSize: int,
                                   contentHash: string, fileID: string, uploadID: string, completedParts: seq<nat>,
                                   uploadedBytes: int, progress: int)

  /** `normalize139ResumeState`: whether a persisted state may be continued. An empty `contentHash`
      means the file has not been hashed yet. */
  predicate Accepted(c: Checkpoint, req: Request, fileSize: int, contentHash: string) {
    && c.parentID == req.parentID
    && c.requestedName == req.requestedName
    && c.fileSize == fileSize
    && c.targetName != "" && c.contentHash != "" && c.fileID != "" && c.uploadID != ""
    && (contentHash != "" ==> c.contentHash == contentHash)
  }

  /** A checkpoint is accepted for one parent, name, size and content only; before the file is hashed,
      for any content. */
  lemma AcceptedForSame(c: Checkpoint, req: Request, fileSize: int, contentHash: string, other: Request, otherSize: int,
                        otherHash: string)
    requires Accepted(c, req, fileSize, contentHash) && contentHash != ""
    ensures Accepted(c, other, otherSize, otherHash) <==>
              other == req && otherSize == fileSize && (otherHash == contentHash || otherHash == "")
  {
  }

  // ----- one attempt's environment -----

  datatype NameReply = NameFails | NameTaken | NameIs(name: string)
  datatype CreateReply = CreateFails | Rapid | Created(fileID: string, uploadID: string, fileName: string, urls: seq<(nat, string)>)
  /** A part may be stored although its reply never arrives. */
  datatype PutReply = Stored | StoredButLost | Refused

  datatype Env = Env(readable: bool, firstName: NameReply, secondName: NameReply, create: CreateReply,
                     urls: seq<PartSpec> -> Option<seq<(nat, string)>>, put: nat -> PutReply)

  datatype Outcome = Failed | Skipped | RapidUpload | CompleteSent(fileID: string, uploadID: string)

  datatype Attempt = Attempt(req: Request, file: Bytes, state: Option<Checkpoint>, env: Env)

  class Cloud139 {
    /** SHA-256, as a function of the content. */
    const hash: Bytes -> string
    /** The upload sessions of the service: the parts stored under each file and upload id. */
    var sessions: map<(string, string), map<nat, Bytes>>
    /** Every checkpoint ever handed to the resume-state callback. */
    var issued: set<Checkpoint>
    /** The content each session was created for. */
    ghost var origin: map<(string, string), Bytes>

    ghost predicate Hashing() {
      && (forall a, b :: hash(a) == hash(b) ==> a == b)
      && (forall a :: hash(a) != "")
    }

    ghost predicate CheckpointHolds(c: Checkpoint)
      reads this
    {
      var s := (c.fileID, c.uploadID);
      && s in sessions && s in origin
      && c.fileSize == |origin[s]| && c.contentHash == hash(origin[s])
      && forall n :: n in c.completedParts && 1 <= n <= Count(|origin[s]|) ==> n in sessions[s]
    }

    ghost predicate Valid()
      reads this
    {
      && Hashing()
      && origin.Keys == sessions.Keys
      && (forall s :: s in sessions ==> OnlyPartsOf(sessions[s], origin[s], PartSizeFor(|origin[s]|)))
      && (forall c :: c in issued ==> CheckpointHolds(c))
    }

    constructor (hash: Bytes -> string)
      requires forall a, b :: hash(a) == hash(b) ==> a == b
      requires forall a :: hash(a) != ""
      ensures Valid() && this.hash == hash && issued == {}
    {
      this.hash, sessions, issued, origin := hash, map[], {}, map[];
    }

    /** `putUploadPart`: the section of the file at the part's offset becomes the stored part. */
    method PutUploadPart(file: Bytes, part: PartSpec, session: (string, string), reply: PutReply) returns (ok: bool)
      requires Valid() && session in sessions && origin[session] == file
      requires 1 <= part.partNumber <= Count(|file|) && part == SpecOf(|file|, part.partNumber)
      modifies this`sessions
      ensures Valid() && ok == (reply == Stored)
      ensures sessions == (if reply == Refused then old(sessions)
                           else old(sessions)[session := Store(old(sessions)[session], part.partNumber,
                                                          Part(file, PartSizeFor(|file|), part.partNumber))])
    {
      if reply != Refused {
        MulMonotone(0, part.partNumber - 1, PartSizeFor(|file|));
        assert part.partNumber * PartSizeFor(|file|) == part.partOffset + PartSizeFor(|file|);
        var lo := Min(part.partOffset, |file|);
        var body := file[lo..lo + part.partSize];
        assert body == Part(file, PartSizeFor(|file|), part.partNumber);
        sessions := sessions[session := Store(sessions[session], part.partNumber, body)];
      }
      ok := reply == Stored;
    }

    /** `persist139ResumeState`. */
    method Persist(req: Request, targetName: string, file: Bytes, session: (string, string), completed: set<nat>)
      requires Valid() && session in sessions && origin[session] == file
      requires completed <= FirstParts(Count(|file|)) && forall n :: n in completed ==> n in sessions[session]
      modifies this`issued
      ensures Valid()
      ensures exists c :: issued == old(issued) + {c}
                && Accepted(c, req, |file|, hash(file)) == (targetName != "" && session.0 != "" && session.1 != "")
                && ParsePartSet(c.completedParts, 1, Count(|file|)) == completed && (c.fileID, c.uploadID) == session
                && IsFor(c, req, file, hash) && c.targetName == targetName && ShowsProgress(c, |file|, completed)
    {
      var uploaded := UploadedBytesByParts(|file|, PartSizeFor(|file|), completed);
      var numbers := SortedParts(completed);
      var c := Checkpoint(req.parentID, req.requestedName, targetName, |file|, hash(file), session.0, session.1,
                          numbers, uploaded, Progress(uploaded, |file|));
      assert (c.fileID, c.uploadID) == session;
      PartSetRoundTrip(completed, numbers, Count(|file|));
      if |file| > 0 {
        FullCountMeansAllParts(|file|, PartSizeFor(|file|), completed);
        ProgressIsFullExactlyAtEnd(|file|, PartSizeFor(|file|), completed);
      }
      issued := issued + {c};
    }

    /** All checkpoints handed out since are for this request, this content and this name. */
    ghost predicate IssuedFor(before: set<Checkpoint>, req: Request, file: Bytes, targetName: string)
      reads this`issued
    {
      before <= issued && forall c :: c in issued - before ==> IsFor(c, req, file, hash) && c.targetName == targetName
    }

    /** Some checkpoint for the session says that just these parts are completed. */
    ghost predicate Checkpointed(session: (string, string), size: nat, completed: set<nat>)
      reads this`issued
    {
      exists c :: c in issued && (c.fileID, c.uploadID) == session && ParsePartSet(c.completedParts, 1, Count(size)) == completed
    }

    lemma AddressOfEach(urls: map<nat, string>, parts: seq<PartSpec>, pending: seq<PartSpec>, batch: seq<PartSpec>)
      requires HasUploadURLs(urls, parts) && (forall p :: p in pending ==> p in parts) && forall p :: p in batch ==>
                 p in pending
      ensures HasUploadURLs(urls, batch)
    {
      forall i | 0 <= i < |batch|
        ensures HasUploadURL(urls, batch[i].partNumber)
      {
        assert batch[i] in batch;
        var k :| 0 <= k < |parts| && parts[k] == batch[i];
      }
    }

    /** The requests for upload addresses, in batches of the pending parts. */
    method FetchURLs(size: nat, parts: seq<PartSpec>, completed: set<nat>, urls0: map<nat, string>, env: Env)
      returns (ok: bool, urls: map<nat, string>, requests: seq<seq<PartSpec>>)
      requires IsPlan(parts, size)
      ensures forall b :: b in requests ==> 1 <= |b| <= 100 && forall p :: p in b ==> p in parts && p.partNumber !in completed
      ensures HasUploadURLs(urls0, parts) ==> requests == [] && ok && urls == urls0
      ensures Addresses(env) ==> ok && Reachable(size, completed, urls)
    {
      var pending := PendingParts(parts, completed);
      ok, urls, requests := true, urls0, [];
      var start := 0;
      while start < |pending|
        invariant start >= 0
        invariant forall b :: b in requests ==> 1 <= |b| <= 100 && forall p :: p in b ==> p in pending
        invariant HasUploadURLs(urls0, parts) ==> requests == [] && urls == urls0
        invariant Addresses(env) ==> forall i :: 0 <= i < start && i < |pending| && pending[i].partNumber > 0 ==> HasUploadURL(urls, pending[i].partNumber)
        decreases |pending| - start
      {
        var end := start + MAX_PARTS_PER_REQUEST;
        if end > |pending| {
          end := |pending|;
        }
        var batch := pending[start..end];
        if HasUploadURLs(urls0, parts) {
          AddressOfEach(urls0, parts, pending, batch);
        }
        if !HasUploadURLs(urls, batch) {
          requests := requests + [batch];
          assert forall p :: p in batch ==> p in pending;
          var reply := env.urls(batch);
          if reply == None {
            ok := false;
            return;
          }
          urls := MergeUploadURLs(urls, reply.value);
          assert Addresses(env) ==> Answers(reply.value, batch);
        }
        assert forall i :: start <= i < end ==> pending[i] == batch[i - start];
        start := start + MAX_PARTS_PER_REQUEST;
      }
      if Addresses(env) {
        forall n | 1 <= n <= Count(size) && n !in completed
          ensures HasUploadURL(urls, n)
        {
          assert parts[n - 1] in pending;
        }
      }
    }

    /** One turn of the loop: put the part, then checkpoint. */
    method PutAndCheckpoint(req: Request, targetName: string, file: Bytes, part: PartSpec, session: (string, string),
                            completed: set<nat>, reply: PutReply) returns (ok: bool)
      requires Valid() && session in sessions && origin[session] == file
      requires 1 <= part.partNumber <= Count(|file|) && part == SpecOf(|file|, part.partNumber)
      requires completed <= FirstParts(Count(|file|)) && forall n :: n in completed ==> n in sessions[session]
      modifies this`sessions, this`issued
      ensures Valid() && ok == (reply == Stored)
      ensures IssuedFor(old(issued), req, file, targetName) && Grows(old(sessions), sessions)
      ensures session in sessions && (ok ==> part.partNumber in sessions[session])
      ensures ok ==> Checkpointed(session, |file|, completed + {part.partNumber})
    {
      ok := PutUploadPart(file, part, session, reply);
      if ok {
        Persist(req, targetName, file, session, completed + {part.partNumber});
      }
    }

    /** The loop over the parts. The sections are put in order, each completed part once. */
    method UploadParts(req: Request, targetName: string, file: Bytes, session: (string, string), parts: seq<PartSpec>,
                       completed0: set<nat>, urls: map<nat, string>, env: Env)
      returns (ok: bool, put: seq<nat>)
      requires Valid() && session in sessions && origin[session] == file && IsPlan(parts, |file|)
      requires completed0 <= FirstParts(Count(|file|)) && forall n :: n in completed0 ==> n in sessions[session]
      modifies this`sessions, this`issued
      ensures Valid() && IssuedFor(old(issued), req, file, targetName) && Grows(old(sessions), sessions)
      ensures forall n :: n in put ==> n !in completed0
      ensures ok && |file| > 0 ==> forall n :: n in put <==> 1 <= n <= Count(|file|) && n !in completed0
      ensures ok && |file| > 0 ==> SessionIs(session, file)
      ensures Ascending(put)
      ensures (forall n :: env.put(n) == Stored) && (|file| == 0 || Reachable(|file|, completed0, urls)) ==> ok
    {
      var completed := completed0;
      put := [];
      for index := 0 to |parts|
        invariant Valid() && IssuedFor(old(issued), req, file, targetName) && Grows(old(sessions), sessions)
        invariant session in sessions && origin[session] == file
        invariant completed0 <= completed <= FirstParts(Count(|file|))
        invariant forall n :: n in completed ==> n in sessions[session]
        invariant forall n :: n in put <==> n in completed && n !in completed0
        invariant forall n :: n in put ==> n <= index
        invariant Ascending(put)
        invariant |file| > 0 ==> forall n :: 1 <= n <= index ==> n in completed
      {
        var part := parts[index];
        assert part == SpecOf(|file|, index + 1);
        if part.partNumber in completed {
          continue;
        }
        if !HasUploadURL(urls, part.partNumber) {
          if |file| == 0 {
            continue;
          }
          ok := false;
          return;
        }
        ok := PutAndCheckpoint(req, targetName, file, part, session, completed, env.put(part.partNumber));
        if !ok {
          return;
        }
        AscendingSnoc(put, part.partNumber);
        completed, put := completed + {part.partNumber}, put + [part.partNumber];
      }
      ok := true;
      if |file| > 0 {
        CompleteSession(sessions[session], file, PartSizeFor(|file|));
      }
    }

    /** `created` of a new upload: an empty session for this file, and its first checkpoint. */
    method CreateSession(req: Request, fileName: string, file: Bytes, created: CreateReply) returns (ok: bool)
      requires Valid() && created.Created? && (created.fileID, created.uploadID) !in sessions
      modifies this`sessions, this`issued, this`origin
      ensures Valid() && Grows(old(sessions), sessions)
      ensures IssuedFor(old(issued), req, file, if created.fileName != "" then created.fileName else fileName)
      ensures !ok ==> issued == old(issued)
      ensures ok ==> Checkpointed((created.fileID, created.uploadID), |file|, {})
      ensures ok <==> created.fileID != "" && created.uploadID != ""
      ensures ok ==>
                (created.fileID, created.uploadID) in sessions && origin[(created.fileID, created.uploadID)] == file
    {
      if created.fileID == "" || created.uploadID == "" {
        return false;
      }
      var session := (created.fileID, created.uploadID);
      sessions, origin := sessions[session := map[]], origin[session := file];
      Persist(req, if created.fileName != "" then created.fileName else fileName, file, session, {});
      ok := true;
    }

    /** The part of an attempt before the upload addresses: the name, the content hash, and the
        session to continue or create. `stop` is the result of an attempt that ends here. */
    method OpenSession(req: Request, file: Bytes, state: Option<Checkpoint>, env: Env)
      returns (stop: Option<Outcome>, session: (string, string), fileName: string, completed: set<nat>,
               urls: map<nat, string>)
      requires Valid() && (state.Some? ==> state.value in issued)
      requires env.create.Created? ==> (env.create.fileID, env.create.uploadID) !in sessions
      modifies this`sessions, this`issued, this`origin
      ensures Valid() && IssuedFor(old(issued), req, file, fileName) && Grows(old(sessions), sessions)
      ensures stop == None ==> session in sessions && origin[session] == file
      ensures completed <= FirstParts(Count(|file|)) && (stop == None ==> forall n :: n in completed ==> n in sessions[session])
      ensures stop == None ==> completed == ResumedParts(state, req, file, hash)
      ensures stop == None && Resumes(state, req, file, hash) ==> session == (state.value.fileID, state.value.uploadID)
      ensures stop == None && !Resumes(state, req, file, hash) ==> Checkpointed(session, |file|, {})
      ensures stop.Some? ==> !stop.value.CompleteSent?
      ensures Resumes(state, req, file, hash) && env.readable ==> stop == None && fileName == state.value.targetName
      ensures !Candidate(state, req, file) && !env.firstName.NameIs? ==>
                stop == Some(if env.firstName.NameTaken? then Skipped else Failed)
      ensures !Resumes(state, req, file, hash) && Named(state, req, file, env) && env.readable && env.create.Rapid? ==>
                stop == Some(RapidUpload)
      ensures stop == None && !Resumes(state, req, file, hash) ==> Named(state, req, file, env)
      ensures stop == None && !Resumes(state, req, file, hash) ==>
                env.create.Created? && session == (env.create.fileID, env.create.uploadID)
      ensures stop == None ==> fileName == TargetName(state, req, file, env, hash)
      ensures stop.Some? ==> issued == old(issued)
      ensures Helpful(env) ==> stop != Some(Failed)
      ensures stop == Some(Skipped) ==> env.firstName.NameTaken? || env.secondName.NameTaken?
      ensures stop == Some(RapidUpload) ==> env.create.Rapid?
    {
      stop, session, completed, urls, fileName := Some(Failed), ("", ""), {}, map[], req.requestedName;
      var hadCandidate := state.Some? && Accepted(state.value, req, |file|, "");
      if hadCandidate {
        fileName := state.value.targetName;
      } else if env.firstName.NameIs? {
        fileName := env.firstName.name;
      } else {
        stop := Some(if env.firstName.NameTaken? then Skipped else Failed);
        return;
      }
      if !env.readable {
        return;
      }
      var contentHash := hash(file);
      var resume := state.Some? && Accepted(state.value, req, |file|, contentHash);
      if hadCandidate && !resume {
        if !env.secondName.NameIs? {
          stop := Some(if env.secondName.NameTaken? then Skipped else Failed);
          return;
        }
        fileName := env.secondName.name;
      }
      if resume {
        fileName, session := state.value.targetName, (state.value.fileID, state.value.uploadID);
        completed := ParsePartSet(state.value.completedParts, 1, Count(|file|));
        assert CheckpointHolds(state.value);
        assert origin[session] == file;
      } else if env.create.Created? {
        var ok := CreateSession(req, fileName, file, env.create);
        if !ok {
          return;
        }
        session := (env.create.fileID, env.create.uploadID);
        fileName := if env.create.fileName != "" then env.create.fileName else fileName;
        urls := MergeUploadURLs(urls, env.create.urls);
      } else {
        stop := Some(if env.create.Rapid? then RapidUpload else Failed);
        return;
      }
      stop := None;
    }

    /** One attempt. Whichever checkpoint it is handed and whatever the file now holds, the
        complete call is made only when the session holds exactly the current file. */
    method UploadLocalFile(req: Request, file: Bytes, state: Option<Checkpoint>, env: Env)
      returns (r: Outcome, put: seq<nat>)
      requires Valid() && (state.Some? ==> state.value in issued)
      // the service names every new upload differently
      requires env.create.Created? ==> (env.create.fileID, env.create.uploadID) !in sessions
      modifies this`sessions, this`issued, this`origin
      ensures Valid() && old(issued) <= issued && Grows(old(sessions), sessions)
      ensures forall c :: c in issued - old(issued) ==>
                IsFor(c, req, file, hash) && c.targetName == TargetName(state, req, file, env, hash)
      ensures r.CompleteSent? && |file| > 0 ==> SessionIs((r.fileID, r.uploadID), file)
      ensures r.CompleteSent? && Resumes(state, req, file, hash) ==>
                (r.fileID, r.uploadID) == (state.value.fileID, state.value.uploadID)
      ensures Ascending(put) && forall n :: n in put ==> n !in ResumedParts(state, req, file, hash)
      ensures r.CompleteSent? && |file| > 0 ==>
                forall n :: n in put <==> 1 <= n <= Count(|file|) && n !in ResumedParts(state, req, file, hash)
      ensures Resumes(state, req, file, hash) && env.readable && Addresses(env) && (forall n :: env.put(n) == Stored) ==>
                r.CompleteSent?
      ensures !Resumes(state, req, file, hash) && Named(state, req, file, env) && env.readable && env.create.Rapid? ==>
                r == RapidUpload
      ensures !Candidate(state, req, file) && !env.firstName.NameIs? ==>
                r == if env.firstName.NameTaken? then Skipped else Failed
      ensures Helpful(env) ==> r != Failed
      ensures (r == Skipped ==> env.firstName.NameTaken? || env.secondName.NameTaken?) && (r == RapidUpload ==> env.create.Rapid?)
    {
      put := [];
      var stop, session, fileName, completed, urls := OpenSession(req, file, state, env);
      if stop.Some? {
        return stop.value, put;
      }
      var parts := BuildUploadParts(|file|);
      var ok := true;
      if |file| > 0 {
        var requests;
        ok, urls, requests := FetchURLs(|file|, parts, completed, urls, env);
        if !ok {
          return Failed, put;
        }
      }
      ok, put := UploadParts(req, fileName, file, session, parts, completed, urls, env);
      if !ok {
        return Failed, put;
      }
      r := CompleteSent(session.0, session.1);
    }

    /** Any number of attempts, each with whatever file, checkpoint and faults. An attempt is handed
        only checkpoints issued before; `built` is what the service makes of a completed session. */
    method UploadRuns(attempts: seq<Attempt>) returns (built: seq<Option<Bytes>>)
      requires Valid()
      modifies this`sessions, this`issued, this`origin
      ensures Valid() && |built| == |attempts|
      ensures forall i :: 0 <= i < |attempts| && built[i].Some? ==> built[i].value == attempts[i].file
    {
      hide *;
      built := [];
      for i := 0 to |attempts|
        invariant Valid() && |built| == i
        invariant forall k :: 0 <= k < i && built[k].Some? ==> built[k].value == attempts[k].file
      {
        var a := attempts[i];
        var state := if a.state.Some? && a.state.value in issued then a.state else None;
        var clash := a.env.create.Created? && (a.env.create.fileID, a.env.create.uploadID) in sessions;
        var env := if clash then a.env.(create := CreateFails) else a.env;
        var r, put := UploadLocalFile(a.req, a.file, state, env);
        if r.CompleteSent? && |a.file| > 0 {
          HoldsFile((r.fileID, r.uploadID), a.file);
          built := built + [Some(Assemble(sessions[(r.fileID, r.uploadID)], Count(|a.file|)))];
        } else {
          built := built + [None];
        }
      }
    }

    lemma HoldsFile(s: (string, string), file: Bytes)
      requires SessionIs(s, file)
      ensures s in sessions && forall n :: 1 <= n <= Count(|file|) ==> n in sessions[s]
      ensures Assemble(sessions[s], Count(|file|)) == file
    {
    }

    /** The session holds every planned part of the file, and assembles to it. */
    ghost predicate SessionIs(s: (string, string), file: Bytes)
      reads this
    {
      && s in sessions && HoldsParts(sessions[s], file, PartSizeFor(|file|), Count(|file|))
      && Assemble(sessions[s], Count(|file|)) == file
    }
  }

  ghost predicate IsFor(c: Checkpoint, req: Request, file: Bytes, hash: Bytes -> string) {
    c.parentID == req.parentID && c.requestedName == req.requestedName && c.fileSize == |file| && c.contentHash == hash(file)
  }

  /** The bytes of the completed parts, and 100 percent exactly for all of them. */
  ghost predicate ShowsProgress(c: Checkpoint, size: nat, completed: set<nat>) {
    && c.uploadedBytes == SumLen(size, PartSizeFor(size), completed)
    && (size > 0 ==> (c.progress == 100 <==> completed == FirstParts(Count(size))))
  }

  /** A checkpoint is continued exactly when it names this target and this content. */
  ghost predicate Resumes(state: Option<Checkpoint>, req: Request, file: Bytes, hash: Bytes -> string) {
    state.Some? && Accepted(state.value, req, |file|, hash(file))
  }

  /** A checkpoint for this target and a file of this size: worth hashing the file for. */
  ghost predicate Candidate(state: Option<Checkpoint>, req: Request, file: Bytes) {
    state.Some? && Accepted(state.value, req, |file|, "")
  }

  /** There is a name for a new upload; after a candidate whose content is not that of the file it is asked for anew. */
  ghost predicate Named(state: Option<Checkpoint>, req: Request, file: Bytes, env: Env) {
    if Candidate(state, req, file) then env.secondName.NameIs? else env.firstName.NameIs?
  }

  /** The name the file gets: the checkpoint's, or the one the service says, or the one found free. */
  ghost function TargetName(state: Option<Checkpoint>, req: Request, file: Bytes, env: Env, hash: Bytes -> string): string {
    if Resumes(state, req, file, hash) then state.value.targetName
    else if env.create.Created? && env.create.fileName != "" then env.create.fileName
    else if Candidate(state, req, file) then if env.secondName.NameIs? then env.secondName.name else ""
    else if env.firstName.NameIs? then env.firstName.name else ""
  }

  ghost function ResumedParts(state: Option<Checkpoint>, req: Request, file: Bytes, hash: Bytes -> string): set<nat> {
    if Resumes(state, req, file, hash) then ParsePartSet(state.value.completedParts, 1, Count(|file|)) else {}
  }

  /** An environment in which no call fails. */
  ghost predicate Helpful(env: Env) {
    && env.readable && env.firstName != NameFails && env.secondName != NameFails
    && env.create != CreateFails && (env.create.Created? ==> env.create.fileID != "" && env.create.uploadID != "")
    && Addresses(env) && forall n :: env.put(n) == Stored
  }

  /** The service answers with an address for each part asked for. */
  ghost predicate Answers(items: seq<(nat, string)>, batch: seq<PartSpec>) {
    forall i :: 0 <= i < |batch| ==> exists item :: item in items && item.0 == batch[i].partNumber && item.1 != ""
  }

  /** There is an address for every part still to be put. */
  ghost predicate Reachable(size: nat, completed: set<nat>, urls: map<nat, string>) {
    forall n :: 1 <= n <= Count(size) && n !in completed ==> HasUploadURL(urls, n)
  }

  ghost predicate Addresses(env: Env) {
    forall batch :: env.urls(batch).Some? && Answers(env.urls(batch).value, batch)
  }
}
