/** drivers/Quark/upload.go: upload in parts whose entity tags are collected by position. The tags
    of completed parts are checkpointed; a later run re-hashes the file before it trusts them. */
module Quark {
  import opened UploadPlan
  import opened Wrappers

  const DEFAULT_PART_SIZE := 16 * 1024 * 1024

  datatype Session = Session(bucket: string, objKey: string, uploadID: string)

  datatype PreData = PreData(taskID: string, session: Session, uploadURL: string)
  {
    predicate HasTarget() {
      session.bucket != "" && session.objKey != "" && session.uploadID != "" && uploadURL != ""
    }
  }

  datatype Request = Request(parentID: string, requestedName: string)

  datatype Checkpoint = Checkpoint(parentID: string, requestedName: string, targetName: string, fileSize: int,
                                   fileMD5: string, fileSHA1: string, partSize: int, pre: PreData,
                                   completedEtags: map<nat, string>)

  /** `normalizeQuarkResumeState`: whether a persisted state may be continued. */
  predicate Accepted(c: Checkpoint, req: Request, fileSize: int, fileMD5: string, fileSHA1: string) {
    && c.parentID == req.parentID && c.requestedName == req.requestedName && c.targetName != ""
    && c.fileSize == fileSize && c.fileMD5 == fileMD5 && c.fileSHA1 == fileSHA1
    && c.partSize > 0 && c.pre.taskID != "" && c.pre.HasTarget()
  }

  /** A checkpoint is accepted for one parent, name, size and content only. */
  lemma AcceptedForSame(c: Checkpoint, req: Request, fileSize: int, fileMD5: string, fileSHA1: string, other: Request,
                        otherSize: int, otherMD5: string, otherSHA1: string)
    requires Accepted(c, req, fileSize, fileMD5, fileSHA1)
    ensures Accepted(c, other, otherSize, otherMD5, otherSHA1) <==>
              other == req && otherSize == fileSize && otherMD5 == fileMD5 && otherSHA1 == fileSHA1
    ensures c.pre.session.bucket != "" && c.pre.session.objKey != "" && c.pre.session.uploadID != "" && c.pre.uploadURL != ""
  {
  }

  /** The entries of the persisted tags that are kept. */
  function KeptEtags(etags: map<nat, string>, total: nat): (kept: map<nat, string>)
    ensures forall n :: n in kept <==> n in etags && 1 <= n <= total && etags[n] != ""
    ensures forall n :: n in kept ==> kept[n] == etags[n]
  {
    map n | n in etags && 1 <= n <= total && etags[n] != "" :: etags[n]
  }

  /** Tags that were stored read back as they are exactly when each has a part of the file and a value;
      and reading back once makes tags that read back as they are. */
  lemma EtagsRoundTrip(etags: map<nat, string>, total: nat)
    ensures KeptEtags(etags, total) == etags <==> forall n :: n in etags ==> 1 <= n <= total && etags[n] != ""
    ensures KeptEtags(KeptEtags(etags, total), total) == KeptEtags(etags, total)
  {
    if n :| n in etags && !(1 <= n <= total && etags[n] != "") {
      assert n !in KeptEtags(etags, total);
    }
  }

  // ----- one attempt's environment -----

  datatype NameReply = NameFails | NameTaken | NameIs(name: string)
  datatype PreReply = PreFails | Pre(pre: PreData, partSize: int)
  datatype HashReply = HashFails | Finished | NotKnown
  /** A part may be stored although its tag never arrives; a part that is stored already may be
      reported as such, together with its tag. */
  datatype PutReply = Stored | StoredButLost | Refused | AlreadyStored

  datatype Env = Env(readable: bool, name: NameReply, pre: PreReply, hashed: HashReply, put: nat -> PutReply)

  datatype Outcome = Failed | Skipped | RapidUpload | CompleteSent(session: Session, etags: seq<string>, built: Option<Bytes>)

  datatype Attempt = Attempt(req: Request, file: Bytes, state: Option<Checkpoint>, env: Env)

  class Quark {
    const md5: Bytes -> string
    const sha1: Bytes -> string
    /** The entity tag the service gives to a stored part. */
    const etagOf: Bytes -> string
    var sessions: map<Session, map<nat, Bytes>>
    var issued: set<Checkpoint>
    /** The content and part size each session was created for. */
    ghost var origin: map<Session, (Bytes, int)>

    ghost predicate Hashing() {
      && (forall a, b :: md5(a) == md5(b) && sha1(a) == sha1(b) ==> a == b)
      && (forall a :: etagOf(a) != "")
    }

    /** Each remembered tag is that of the part of its number, and that part is stored. */
    ghost predicate TagsMatch(s: Session, etags: map<nat, string>)
      reads this
    {
      && s in sessions && s in origin && origin[s].1 > 0
      && forall n :: n in etags && etags[n] != "" ==>
           n >= 1 && n in sessions[s] && etags[n] == etagOf(Part(origin[s].0, origin[s].1, n))
    }

    ghost predicate CheckpointHolds(c: Checkpoint)
      reads this
    {
      var s := c.pre.session;
      && s in sessions && s in origin
      && c.fileMD5 == md5(origin[s].0) && c.fileSHA1 == sha1(origin[s].0) && c.partSize == origin[s].1
      && TagsMatch(s, c.completedEtags)
    }

    ghost predicate Valid()
      reads this
    {
      && Hashing()
      && origin.Keys == sessions.Keys
      && (forall s :: s in sessions ==> origin[s].1 > 0 && OnlyPartsOf(sessions[s], origin[s].0, origin[s].1))
      && (forall c :: c in issued ==> CheckpointHolds(c))
    }

    constructor (md5: Bytes -> string, sha1: Bytes -> string, etagOf: Bytes -> string)
      requires forall a, b :: md5(a) == md5(b) && sha1(a) == sha1(b) ==> a == b
      requires forall a :: etagOf(a) != ""
      ensures Valid() && issued == {}
    {
      this.md5, this.sha1, this.etagOf := md5, sha1, etagOf;
      sessions, issued, origin := map[], {}, map[];
    }

    /** The tag list sent with the complete call names every planned part at its position, the
        session holds those parts, and they assemble to the file. */
    ghost predicate Completes(s: Session, etags: seq<string>, file: Bytes, partSize: int)
      requires partSize > 0
      reads this
    {
      && |etags| == PartCount(|file|, partSize)
      && (forall i :: 0 <= i < |etags| ==> etags[i] == etagOf(Part(file, partSize, i + 1)))
      && s in sessions && HoldsParts(sessions[s], file, partSize, PartCount(|file|, partSize))
      && Assemble(sessions[s], PartCount(|file|, partSize)) == file
    }

    /** `putPart`. */
    method PutPart(s: Session, n: nat, chunk: Bytes, file: Bytes, partSize: int, reply: PutReply) returns (etag: string)
      requires Valid() && s in sessions && origin[s] == (file, partSize)
      requires n >= 1 && chunk == Part(file, partSize, n)
      modifies this`sessions
      ensures Valid() && Grows(old(sessions), sessions)
      ensures etag != "" ==> n in sessions[s] && etag == etagOf(chunk)
      ensures reply == Stored || (reply == AlreadyStored && n in old(sessions)[s]) ==> etag != ""
    {
      var exists409 := reply == AlreadyStored && n in sessions[s];
      if !exists409 && reply != Refused && reply != AlreadyStored {
        sessions := sessions[s := Store(sessions[s], n, chunk)];
      }
      etag := if exists409 then etagOf(sessions[s][n]) else if reply == Stored then etagOf(chunk) else "";
    }

    /** `persistQuarkResumeState`. */
    method Persist(req: Request, targetName: string, file: Bytes, partSize: int, pre: PreData,
                   completed: map<nat, string>)
      requires Valid() && pre.session in sessions && origin[pre.session] == (file, partSize)
      requires TagsMatch(pre.session, completed)
      modifies this`issued
      ensures Valid() && IssuedFor(old(issued), issued, req, file, md5, sha1, targetName, partSize, pre)
      ensures exists c :: c in issued && c.pre == pre && c.completedEtags == completed
                && Accepted(c, req, |file|, md5(file), sha1(file)) == (targetName != "" && pre.taskID != "" && pre.HasTarget())
    {
      var c := Checkpoint(req.parentID, req.requestedName, targetName, |file|, md5(file), sha1(file), partSize, pre,
                          completed);
      assert CheckpointHolds(c);
      issued := issued + {c};
    }

    /** After k turns: parts 1..k are stored and their tags collected in order. */
    ghost predicate Turned(s: Session, file: Bytes, partSize: int, completed: map<nat, string>, etags: seq<string>,
                           k: nat)
      requires partSize > 0
      reads this
    {
      && TagsMatch(s, completed) && origin[s] == (file, partSize)
      && |etags| == k
      && (forall i :: 0 <= i < k ==> etags[i] == etagOf(Part(file, partSize, i + 1)))
      && (forall n :: 1 <= n <= k ==> n in sessions[s])
    }

    /** A turn of `uploadParts` that finds no tag: put the part, remember its tag, checkpoint. */
    method PutAndCheckpoint(req: Request, targetName: string, file: Bytes, partSize: int, pre: PreData,
                            completed0: map<nat, string>, etags0: seq<string>, chunk: Bytes, reply: PutReply)
      returns (ok: bool, completed: map<nat, string>, etags: seq<string>)
      requires partSize > 0 && Valid() && Turned(pre.session, file, partSize, completed0, etags0, |etags0|)
      requires chunk == Part(file, partSize, |etags0| + 1)
      modifies this`sessions, this`issued
      ensures Valid() && IssuedFor(old(issued), issued, req, file, md5, sha1, targetName, partSize, pre) && Grows(old(sessions), sessions)
      ensures ok ==> Turned(pre.session, file, partSize, completed, etags, |etags0| + 1)
      ensures ok ==> exists c :: c in issued && c.pre == pre && c.completedEtags == completed
      ensures ok ==> forall n: nat :: n != |etags0| + 1 ==> (HasTag(completed, n) <==> HasTag(completed0, n))
      ensures ok ==> HasTag(completed, |etags0| + 1)
      ensures reply == Stored ==> ok
    {
      var n: nat := |etags0| + 1;
      var etag := PutPart(pre.session, n, chunk, file, partSize, reply);
      ok, completed, etags := etag != "", completed0, etags0;
      if ok {
        completed, etags := Remember(completed, n, etag), etags + [etag];
        Persist(req, targetName, file, partSize, pre, completed);
      }
    }

    /** A turn that finds the tag of a completed part. */
    lemma TakeTag(s: Session, file: Bytes, partSize: int, completed: map<nat, string>, etags: seq<string>)
      requires partSize > 0 && Turned(s, file, partSize, completed, etags, |etags|)
      requires |etags| + 1 in completed && completed[|etags| + 1] != ""
      ensures Turned(s, file, partSize, completed, etags + [completed[|etags| + 1]], |etags| + 1)
    {
    }

    /** `uploadParts`. */
    method UploadParts(req: Request, targetName: string, file: Bytes, partSize: int, pre: PreData,
                       completed0: map<nat, string>, env: Env)
      returns (ok: bool, etags: seq<string>, put: seq<nat>)
      requires partSize > 0 && Valid() && TagsMatch(pre.session, completed0) && origin[pre.session] == (file, partSize)
      modifies this`sessions, this`issued
      ensures Valid() && IssuedFor(old(issued), issued, req, file, md5, sha1, targetName, partSize, pre) && Grows(old(sessions), sessions)
      ensures ok && |file| > 0 ==> Completes(pre.session, etags, file, partSize)
      ensures ok && |file| > 0 ==> PutsMissing(put, completed0, PartCount(|file|, partSize))
      ensures (forall n :: env.put(n) == Stored) ==> ok
    {
      hide *;
      var totalParts := (|file| + partSize - 1) / partSize;
      if totalParts <= 0 {
        totalParts := 1;
      }
      assert totalParts == PartCount(|file|, partSize) by {
        Total(|file|, partSize);
      }
      var completed: map<nat, string> := completed0;
      etags, put := [], [];
      GrowsNot(sessions);
      IssuedNothing(issued, req, file, md5, sha1, targetName, partSize, pre);
      NothingPut(completed0);
      NoTurn(pre.session, file, partSize, completed);
      var partNo: nat := 1;
      while partNo <= totalParts
        invariant 1 <= partNo <= totalParts + 1 && |etags| == partNo - 1
        invariant Valid() && IssuedFor(old(issued), issued, req, file, md5, sha1, targetName, partSize, pre)
        invariant Grows(old(sessions), sessions)
        invariant Turned(pre.session, file, partSize, completed, etags, |etags|)
        invariant PutsMissing(put, completed0, partNo - 1) && SameFrom(completed, completed0, partNo)
      {
        TagIs(completed, partNo);
        if partNo in completed && completed[partNo] != "" {
          TakeTag(pre.session, file, partSize, completed, etags);
          PutNext(put, completed, completed, completed0, partNo);
          etags := etags + [completed[partNo]];
        } else {
          var some, chunk := ReadPart(file, partSize, partNo);
          if !some {
            break;
          }
          ghost var before, sent, knew := sessions, issued, completed;
          ok, completed, etags := PutAndCheckpoint(req, targetName, file, partSize, pre, completed, etags, chunk,
                                                   env.put(partNo));
          GrowsJoin(old(sessions), before, sessions);
          IssuedJoin(old(issued), sent, issued, req, file, md5, sha1, targetName, partSize, pre);
          if !ok {
            return;
          }
          PutNext(put, knew, completed, completed0, partNo);
          put := put + [partNo];
        }
        partNo := partNo + 1;
      }
      ok := true;
      if |file| > 0 {
        AllTurned(pre.session, file, partSize, completed, etags);
      }
    }

    lemma NoTurn(s: Session, file: Bytes, partSize: int, completed: map<nat, string>)
      requires partSize > 0 && TagsMatch(s, completed) && origin[s] == (file, partSize)
      ensures Turned(s, file, partSize, completed, [], 0)
    {
    }

    lemma AllTurned(s: Session, file: Bytes, partSize: int, completed: map<nat, string>, etags: seq<string>)
      requires Valid() && partSize > 0 && |file| > 0
      requires Turned(s, file, partSize, completed, etags, PartCount(|file|, partSize))
      ensures Completes(s, etags, file, partSize)
    {
      hide Quark.Hashing, Quark.CheckpointHolds;
      CompleteSession(sessions[s], file, partSize);
    }

    /** `completeUpload`: entry i of the list is sent as part i + 1. The service builds the object
        only if it stores each listed part under the listed tag. */
    method CompleteUpload(s: Session, etags: seq<string>, ghost file: Bytes, ghost partSize: int)
      returns (built: Option<Bytes>)
      requires partSize > 0
      ensures Completes(s, etags, file, partSize) ==> built == Some(file)
      ensures built.Some? <==>
                s in sessions && forall i: nat :: i < |etags| ==> TagFits(sessions[s], etags, i, etagOf)
    {
      if s !in sessions {
        return None;
      }
      var content := [];
      for i := 0 to |etags|
        invariant forall n :: 1 <= n <= i ==> n in sessions[s]
        invariant forall k: nat :: k < i ==> TagFits(sessions[s], etags, k, etagOf)
        invariant content == Assemble(sessions[s], i)
      {
        if !(i + 1 in sessions[s] && etagOf(sessions[s][i + 1]) == etags[i]) {
          assert !TagFits(sessions[s], etags, i, etagOf);
          return None;
        }
        content := content + sessions[s][i + 1];
      }
      built := Some(content);
    }

    /** The part of an attempt before the upload of parts: continue a session or open one. `stop`
        is the result of an attempt that ends here. */
    method OpenSession(req: Request, file: Bytes, state: Option<Checkpoint>, env: Env)
      returns (stop: Option<Outcome>, targetName: string, pre: PreData, partSize: int, completed: map<nat, string>)
      requires Valid() && (state.Some? ==> state.value in issued)
      requires env.pre.Pre? ==> env.pre.pre.session !in sessions
      modifies this`sessions, this`issued, this`origin
      ensures Valid() && old(issued) <= issued && Grows(old(sessions), sessions)
      ensures partSize > 0 && (stop.Some? ==> !stop.value.CompleteSent?)
      ensures stop == None ==> TagsMatch(pre.session, completed) && origin[pre.session] == (file, partSize)
      ensures Resumes(state, req, file, md5, sha1) && env.readable ==>
                && stop == None && targetName == state.value.targetName && pre == state.value.pre && partSize == state.value.partSize
                && KeepsTags(completed, state.value.completedEtags, PartCount(|file|, partSize))
      ensures stop == None && !Resumes(state, req, file, md5, sha1) ==>
                env.name == NameIs(targetName) && FreshSize(partSize, env) && pre == env.pre.pre && completed == map[]
      ensures stop == None && !Resumes(state, req, file, md5, sha1) ==>
                exists c :: c in issued && c.pre == pre && c.completedEtags == map[]
      ensures IssuedFor(old(issued), issued, req, file, md5, sha1, targetName, partSize, pre) && (stop.Some? ==> issued == old(issued))
      ensures !Resumes(state, req, file, md5, sha1) && env.readable && !env.name.NameIs? ==>
                stop == Some(if env.name.NameTaken? then Skipped else Failed)
      ensures !Resumes(state, req, file, md5, sha1) && env.readable && env.name.NameIs? && PreAnswers(env) && env.hashed == Finished ==>
                stop == Some(RapidUpload)
      ensures !env.readable ==> stop == Some(Failed)
      ensures Helpful(env) ==> stop != Some(Failed)
      ensures (stop == Some(Skipped) ==> env.name.NameTaken?) && (stop == Some(RapidUpload) ==> env.hashed == Finished)
    {
      hide Quark.Valid, Quark.Hashing, Quark.CheckpointHolds, Quark.TagsMatch, Accepted;
      stop, partSize, completed := Some(Failed), DEFAULT_PART_SIZE, map[];
      targetName, pre := "", PreData("", Session("", "", ""), "");
      if !env.readable {
        return;
      }
      if state.Some? && Accepted(state.value, req, |file|, md5(file), sha1(file)) {
        var c := state.value;
        targetName, pre, partSize := c.targetName, c.pre, c.partSize;
        StillHolds(c, req, file);
        completed := KeptEtags(c.completedEtags, PartCount(|file|, partSize));
        stop := None;
        return;
      }
      if !env.name.NameIs? {
        stop := Some(if env.name.NameTaken? then Skipped else Failed);
        return;
      }
      targetName := env.name.name;
      if env.pre.PreFails? || env.pre.pre.taskID == "" {
        return;
      }
      pre := env.pre.pre;
      if env.hashed != NotKnown {
        stop := Some(if env.hashed == Finished then RapidUpload else Failed);
        return;
      }
      if !pre.HasTarget() {
        return;
      }
      if env.pre.partSize > 0 {
        partSize := env.pre.partSize;
      }
      CreateSession(req, targetName, file, partSize, pre);
      stop := None;
    }

    /** A new session, and its first checkpoint. */
    method CreateSession(req: Request, targetName: string, file: Bytes, partSize: int, pre: PreData)
      requires Valid() && partSize > 0 && pre.session !in sessions
      modifies this`sessions, this`issued, this`origin
      ensures Valid() && IssuedFor(old(issued), issued, req, file, md5, sha1, targetName, partSize, pre)
      ensures sessions == old(sessions)[pre.session := map[]] && origin[pre.session] == (file, partSize)
      ensures TagsMatch(pre.session, map[]) && exists c :: c in issued && c.pre == pre && c.completedEtags == map[]
    {
      sessions, origin := sessions[pre.session := map[]], origin[pre.session := (file, partSize)];
      assert forall c :: c in issued ==> CheckpointHolds(c);
      Persist(req, targetName, file, partSize, pre, map[]);
    }

    /** An accepted checkpoint is of a session for the same content, and its tags are those of its parts. */
    lemma StillHolds(c: Checkpoint, req: Request, file: Bytes)
      requires Valid() && c in issued && Accepted(c, req, |file|, md5(file), sha1(file))
      ensures c.partSize > 0 && c.pre.session in origin && origin[c.pre.session] == (file, c.partSize)
      ensures TagsMatch(c.pre.session, KeptEtags(c.completedEtags, PartCount(|file|, c.partSize)))
    {
      assert CheckpointHolds(c);
    }

    /** One attempt. */
    method UploadLocalFile(req: Request, file: Bytes, state: Option<Checkpoint>, env: Env)
      returns (r: Outcome, put: seq<nat>, ghost partSize: int)
      requires Valid() && (state.Some? ==> state.value in issued)
      // the service opens a new session under a name not used before
      requires env.pre.Pre? ==> env.pre.pre.session !in sessions
      modifies this`sessions, this`issued, this`origin
      ensures Valid() && old(issued) <= issued && Grows(old(sessions), sessions)
      ensures partSize > 0
      ensures r.CompleteSent? && |file| > 0 ==> Completes(r.session, r.etags, file, partSize)
      ensures r.CompleteSent? && |file| > 0 ==> r.built == Some(file)
      ensures r.CompleteSent? && Resumes(state, req, file, md5, sha1) ==>
                r.session == state.value.pre.session && partSize == state.value.partSize
      ensures r.CompleteSent? && !Resumes(state, req, file, md5, sha1) ==>
                FreshSize(partSize, env) && r.session == env.pre.pre.session
      ensures r.CompleteSent? && |file| > 0 ==>
                PutsMissing(put, KnownTags(state, req, file, md5, sha1, PartCount(|file|, partSize)), PartCount(|file|, partSize))
      ensures Resumes(state, req, file, md5, sha1) && env.readable && (forall n :: env.put(n) == Stored) ==>
                r.CompleteSent?
      ensures forall c :: c in issued - old(issued) ==> IsFor(c, req, file, md5, sha1)
      ensures !Resumes(state, req, file, md5, sha1) && env.readable && !env.name.NameIs? ==>
                r == if env.name.NameTaken? then Skipped else Failed
      ensures !Resumes(state, req, file, md5, sha1) && env.readable && env.name.NameIs? && PreAnswers(env) && env.hashed == Finished ==>
                r == RapidUpload
      ensures Helpful(env) ==> r != Failed
      ensures (r == Skipped ==> env.name.NameTaken?) && (r == RapidUpload ==> env.hashed == Finished)
    {
      hide *;
      HelpfulMeans(env);
      var stop, targetName, pre, size, completed := OpenSession(req, file, state, env);
      partSize, put := size, [];
      if stop.Some? {
        IssuedJoin(issued, issued, issued, req, file, md5, sha1, targetName, size, pre);
        r := stop.value;
        return;
      }
      ghost var sent, before := issued, sessions;
      var ok, etags, asked := UploadParts(req, targetName, file, size, pre, completed, env);
      IssuedJoin(old(issued), sent, issued, req, file, md5, sha1, targetName, size, pre);
      GrowsJoin(old(sessions), before, sessions);
      if !ok {
        r := Failed;
        return;
      }
      put := asked;
      TagsAtStart(put, completed, req, file, state, PartCount(|file|, size));
      var built := CompleteUpload(pre.session, etags, file, size);
      r := CompleteSent(pre.session, etags, built);
    }

    lemma TagsAtStart(put: seq<nat>, completed: map<nat, string>, req: Request, file: Bytes, state: Option<Checkpoint>,
                      total: nat)
      ensures PutsMissing(put, completed, total) && Resumes(state, req, file, md5, sha1)
              && KeepsTags(completed, state.value.completedEtags, total) ==>
                PutsMissing(put, KnownTags(state, req, file, md5, sha1, total), total)
      ensures PutsMissing(put, completed, total) && !Resumes(state, req, file, md5, sha1) && completed == map[] ==>
                PutsMissing(put, KnownTags(state, req, file, md5, sha1, total), total)
    {
      if Resumes(state, req, file, md5, sha1) && KeepsTags(completed, state.value.completedEtags, total) {
        assert completed == KeptEtags(state.value.completedEtags, total);
      }
    }

    /** Any number of attempts, each with whatever file, checkpoint and faults: each complete call
        for a file that is not empty builds that file. */
    method UploadRuns(attempts: seq<Attempt>) returns (outcomes: seq<Outcome>)
      requires Valid()
      modifies this`sessions, this`issued, this`origin
      ensures Valid() && |outcomes| == |attempts|
      ensures forall i :: 0 <= i < |attempts| ==> Faithful(outcomes[i], attempts[i].file)
    {
      hide Quark.Valid;
      outcomes := [];
      for i := 0 to |attempts|
        invariant Valid() && |outcomes| == i
        invariant forall k :: 0 <= k < i ==> Faithful(outcomes[k], attempts[k].file)
      {
        var a := attempts[i];
        var state := if a.state.Some? && a.state.value in issued then a.state else None;
        var clash := a.env.pre.Pre? && a.env.pre.pre.session in sessions;
        var env := if clash then a.env.(pre := PreFails) else a.env;
        var r, _, _ := UploadLocalFile(a.req, a.file, state, env);
        outcomes := outcomes + [r];
      }
    }
  }

  /** A complete call for a file that is not empty builds that file. */
  ghost predicate Faithful(outcome: Outcome, file: Bytes) {
    outcome.CompleteSent? && |file| > 0 ==> outcome.built == Some(file)
  }

  /** A checkpoint is continued exactly when it names this target and this content. */
  ghost predicate Resumes(state: Option<Checkpoint>, req: Request, file: Bytes, md5: Bytes -> string, sha1: Bytes -> string) {
    state.Some? && Accepted(state.value, req, |file|, md5(file), sha1(file))
  }

  /** An environment in which no call fails. */
  ghost predicate Helpful(env: Env) {
    && env.readable && env.name != NameFails && env.hashed != HashFails
    && env.pre.Pre? && env.pre.pre.taskID != "" && env.pre.pre.HasTarget() && forall n :: env.put(n) == Stored
  }

  /** Entry i of the list is the tag of part i + 1 as it is stored. */
  ghost predicate TagFits(stored: map<nat, Bytes>, etags: seq<string>, i: nat, etagOf: Bytes -> string)
    requires i < |etags|
  {
    i + 1 in stored && etagOf(stored[i + 1]) == etags[i]
  }

  predicate HasTag(etags: map<nat, string>, n: nat) {
    n in etags && etags[n] != ""
  }

  /** The parts put are those of 1..k that had no tag before, in order. */
  ghost predicate PutsMissing(put: seq<nat>, completed0: map<nat, string>, k: nat) {
    Ascending(put) && forall n :: n in put <==> 1 <= n <= k && !HasTag(completed0, n)
  }

  ghost predicate IsFor(c: Checkpoint, req: Request, file: Bytes, md5: Bytes -> string, sha1: Bytes -> string) {
    && c.parentID == req.parentID && c.requestedName == req.requestedName
    && c.fileSize == |file| && c.fileMD5 == md5(file) && c.fileSHA1 == sha1(file)
  }

  /** The tags an attempt starts with: those of its checkpoint where that is continued. */
  ghost function KnownTags(state: Option<Checkpoint>, req: Request, file: Bytes, md5: Bytes -> string,
                           sha1: Bytes -> string, total: nat): map<nat, string>
  {
    if Resumes(state, req, file, md5, sha1) then KeptEtags(state.value.completedEtags, total) else map[]
  }

  /** All checkpoints handed out since are for this request, this content and this name. */
  ghost predicate IssuedFor(before: set<Checkpoint>, issued: set<Checkpoint>, req: Request, file: Bytes,
                            md5: Bytes -> string, sha1: Bytes -> string, targetName: string, partSize: int,
                            pre: PreData)
  {
    && before <= issued
    && forall c :: c in issued - before ==>
         IsFor(c, req, file, md5, sha1) && c.targetName == targetName && c.partSize == partSize && c.pre == pre
  }

  lemma IssuedJoin(a: set<Checkpoint>, b: set<Checkpoint>, c: set<Checkpoint>, req: Request, file: Bytes,
                   md5: Bytes -> string, sha1: Bytes -> string, targetName: string, partSize: int, pre: PreData)
    requires IssuedFor(a, b, req, file, md5, sha1, targetName, partSize, pre)
    requires IssuedFor(b, c, req, file, md5, sha1, targetName, partSize, pre)
    ensures IssuedFor(a, c, req, file, md5, sha1, targetName, partSize, pre)
    ensures a <= c && forall x :: x in c - a ==> IsFor(x, req, file, md5, sha1)
  {
    hide IsFor;
  }

  lemma IssuedNothing(a: set<Checkpoint>, req: Request, file: Bytes, md5: Bytes -> string, sha1: Bytes -> string,
                      targetName: string, partSize: int, pre: PreData)
    ensures IssuedFor(a, a, req, file, md5, sha1, targetName, partSize, pre)
  {
  }

  lemma GrowsJoin(a: map<Session, map<nat, Bytes>>, b: map<Session, map<nat, Bytes>>, c: map<Session, map<nat, Bytes>>)
    requires Grows(a, b) && Grows(b, c)
    ensures Grows(a, c)
  {
  }

  lemma GrowsNot(a: map<Session, map<nat, Bytes>>)
    ensures Grows(a, a)
  {
  }

  /** The tags of parts not yet looked at are those of the start. */
  ghost predicate SameFrom(completed: map<nat, string>, completed0: map<nat, string>, k: nat) {
    forall n: nat :: n >= k ==> (HasTag(completed, n) <==> HasTag(completed0, n))
  }

  lemma Total(size: nat, partSize: int)
    requires partSize > 0
    ensures var n := (size + partSize - 1) / partSize; PartCount(size, partSize) == if n <= 0 then 1 else n
  {
  }

  lemma TagIs(etags: map<nat, string>, n: nat)
    ensures HasTag(etags, n) <==> n in etags && etags[n] != ""
  {
  }

  lemma HelpfulMeans(env: Env)
    ensures Helpful(env) ==> forall n :: env.put(n) == Stored
  {
  }

  lemma NothingPut(completed0: map<nat, string>)
    ensures PutsMissing([], completed0, 0) && SameFrom(completed0, completed0, 1)
  {
  }

  lemma PutNext(put: seq<nat>, completed: map<nat, string>, after: map<nat, string>, completed0: map<nat, string>,
                n: nat)
    requires n >= 1 && PutsMissing(put, completed0, n - 1) && SameFrom(completed, completed0, n)
    requires after == completed || forall k: nat :: k != n ==> (HasTag(after, k) <==> HasTag(completed, k))
    ensures PutsMissing(if HasTag(completed, n) then put else put + [n], completed0, n) && SameFrom(after, completed0, n + 1)
  {
    hide HasTag;
    if !HasTag(completed, n) {
      AscendingSnoc(put, n);
    }
  }

  predicate PreAnswers(env: Env) {
    env.pre.Pre? && env.pre.pre.taskID != ""
  }

  /** All tags of the checkpoint that have a value and a part of the file are kept, and no others. */
  ghost predicate KeepsTags(kept: map<nat, string>, etags: map<nat, string>, total: nat) {
    forall n: nat :: (n in kept <==> 1 <= n <= total && HasTag(etags, n)) && (n in kept && n in etags ==> kept[n] == etags[n])
  }

  /** The part size of a new session: the service's, or 16 MiB. */
  ghost predicate FreshSize(partSize: int, env: Env) {
    env.pre.Pre? && partSize == if env.pre.partSize > 0 then env.pre.partSize else 16777216
  }

  function Remember(etags: map<nat, string>, n: nat, etag: string): map<nat, string> {
    etags[n := etag]
  }
}
