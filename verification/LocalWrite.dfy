/** drivers/LocalFs/ops.go: a file is written to a temporary `.part` file next to its target, which a
    later attempt continues by its size, and is then renamed. */
module LocalWrite {
  import opened Text
  import opened UploadPlan
  import opened Wrappers

  const CHUNK_SIZE := 1024 * 1024

  datatype Path = Path(dir: string, base: string)

  function TmpOf(dst: Path): Path {
    dst.(base := dst.base + ".part")
  }

  lemma TmpIsOther(dst: Path)
    ensures TmpOf(dst) != dst
  {
    assert |dst.base + ".part"| == |dst.base| + 5;
  }

  // ----- a free name -----

  /** Where the last dot among the first n characters is, or the end of the name: `filepath.Ext`. */
  function DotAt(base: string, n: nat): (d: nat)
    requires n <= |base|
    ensures d <= |base|
    ensures d < |base| ==> d < n && base[d] == '.'
    ensures forall k :: 0 <= k < n && base[k] == '.' ==> k <= d < |base|
  {
    if n == 0 then |base| else if base[n - 1] == '.' then n - 1 else DotAt(base, n - 1)
  }

  /** The name with a number before its extension. */
  function Numbered(base: string, i: nat): string {
    var d := DotAt(base, |base|);
    base[..d] + " (" + Digits(i) + ")" + base[d..]
  }

  function Candidate(target: Path, i: nat): Path {
    target.(base := Numbered(target.base, i))
  }

  const LAST_NUMBER := 999

  /** The first candidate from number i on that is not taken, or the last one. */
  function FirstFree(files: map<Path, Bytes>, target: Path, i: nat): (free: Path)
    ensures free.dir == target.dir
    decreases LAST_NUMBER - i
  {
    if i >= LAST_NUMBER || Candidate(target, i) !in files then Candidate(target, if i < LAST_NUMBER then i else LAST_NUMBER)
    else FirstFree(files, target, i + 1)
  }

  /** The name that is found has the least number that is not taken; it is taken only if all are. */
  lemma {:induction false} FirstFreeIsLeast(files: map<Path, Bytes>, target: Path, i: nat) returns (k: nat)
    requires 1 <= i <= LAST_NUMBER && forall j :: 1 <= j < i ==> Candidate(target, j) in files
    ensures i <= k <= LAST_NUMBER && FirstFree(files, target, i) == Candidate(target, k)
    ensures forall j :: 1 <= j < k ==> Candidate(target, j) in files
    ensures k == LAST_NUMBER || Candidate(target, k) !in files
    decreases LAST_NUMBER - i
  {
    if i >= LAST_NUMBER || Candidate(target, i) !in files {
      k := i;
    } else {
      k := FirstFreeIsLeast(files, target, i + 1);
    }
  }

  /** Neither the candidate nor its temporary file is the file itself. */
  lemma CandidateDiffers(target: Path, i: nat)
    ensures Candidate(target, i) != target && TmpOf(Candidate(target, i)) != target
  {
    assert |Numbered(target.base, i)| > |target.base|;
  }

  // ----- the copy -----

  /** How one turn of the copy loop ends: all of the bytes read are written, or only some of them
      before the attempt stops. */
  datatype Step = Written(read: nat) | Stops(read: nat, written: nat)

  /** What an interrupted or complete copy leaves: what was there, continued from the source. */
  ghost predicate Continues(part: Bytes, start: Bytes, src: Bytes) {
    |start| <= |part| <= |src| && part == start + src[|start|..|part|]
  }

  ghost predicate Begins(part: Bytes, src: Bytes) {
    |part| <= |src| && part == src[..|part|]
  }

  /** A continued file is a beginning of the source exactly when what was continued is; and a complete
      one is the source exactly then. */
  lemma PrefixStaysPrefix(part: Bytes, start: Bytes, src: Bytes)
    requires Continues(part, start, src)
    ensures Begins(part, src) <==> Begins(start, src)
    ensures |part| == |src| ==> (part == src <==> Begins(start, src))
  {
    SliceJoin(src, |start|, |part|);
    if Begins(part, src) {
      assert start == part[..|start|];
      assert start == src[..|start|];
    }
    assert src[..|src|] == src;
  }

  lemma ContinueOne(part: Bytes, start: Bytes, src: Bytes, n: nat)
    requires Continues(part, start, src) && |part| + n <= |src|
    ensures Continues(part + src[|part|..|part| + n], start, src)
  {
    var next := part + src[|part|..|part| + n];
    assert src[|start|..|part| + n] == src[|start|..|part|] + src[|part|..|part| + n];
    assert next == start + src[|start|..|next|];
  }

  /** All turns before this one were completed, and this one was not. */
  ghost predicate CutAt(turn: nat, steps: nat -> Step) {
    steps(turn).Stops? && forall i :: 0 <= i < turn ==> steps(i).Written?
  }

  /** The last count handed out, or the one at the start. */
  function Last(counts: seq<nat>, start: nat): nat {
    if counts == [] then start else counts[|counts| - 1]
  }

  /** The read loop of `copyFileWithProgress`, with both files open at `offset`, where the written one
      ends. `checkpoints` are the byte counts handed to the caller. */
  method CopyLoop(src: Bytes, start: Bytes, steps: nat -> Step) returns (ok: bool, part: Bytes, checkpoints: seq<nat>)
    requires |start| <= |src|
    ensures Continues(part, start, src) && (ok ==> |part| == |src|)
    ensures forall c :: c in checkpoints ==> |start| < c <= |part|
    ensures (forall i :: steps(i).Written?) ==> ok
    ensures !ok ==> CutAt(|checkpoints|, steps)
    ensures Last(checkpoints, |start|) <= |part| && (ok ==> Last(checkpoints, |start|) == |src|)
  {
    part, checkpoints := start, [];
    var uploaded, turn: nat := |start|, 0;
    while uploaded < |src|
      invariant uploaded == |part| && Continues(part, start, src)
      invariant forall c :: c in checkpoints ==> |start| < c <= |part|
      invariant turn == |checkpoints| && Last(checkpoints, |start|) == uploaded
      invariant forall i :: 0 <= i < turn ==> steps(i).Written?
      decreases |src| - uploaded
    {
      var step := steps(turn);
      var n: nat := Min(Min(if step.read > 0 then step.read else 1, CHUNK_SIZE), |src| - uploaded);
      if step.Stops? {
        var k: nat := Min(step.written, n);
        ContinueOne(part, start, src, k);
        part := part + src[uploaded..uploaded + k];
        return false, part, checkpoints;
      }
      ContinueOne(part, start, src, n);
      part := part + src[uploaded..uploaded + n];
      uploaded, turn := uploaded + n, turn + 1;
      checkpoints := checkpoints + [uploaded];
    }
    ok := true;
  }

  // ----- whole attempts -----

  datatype Request = Request(parent: string, name: string, policy: string)

  datatype ResumeState = ResumeState(parent: string, requestedName: string, target: Path, fileSize: nat,
                                     uploadedBytes: nat)

  /** `normalizeLocalUploadResumeState`. */
  predicate Accepted(s: ResumeState, req: Request, fileSize: nat) {
    s.parent == req.parent && s.requestedName == req.name && s.fileSize == fileSize && s.target.dir == req.parent
  }

  /** A state that is accepted for a request and a size is accepted for another exactly when these are
      the same but for the conflict policy. */
  lemma AcceptedForSame(s: ResumeState, req: Request, fileSize: nat, other: Request, otherSize: nat)
    requires Accepted(s, req, fileSize)
    ensures Accepted(s, other, otherSize) <==>
              other.parent == req.parent && other.name == req.name && otherSize == fileSize
    ensures s.parent == s.target.dir == req.parent
  {
  }

  /** The flags say which calls succeed. An attempt that is cut off before the files are open is one
      where they do not open. */
  datatype Env = Env(statOk: bool, srcOpens: bool, tmpOpens: bool, steps: nat -> Step, renames: bool,
                     removes: bool)

  predicate Opens(env: Env) {
    env.srcOpens && env.tmpOpens
  }

  datatype Outcome = Failed | Skipped | Done(target: Path)

  /** `back` says which of the states handed out before the attempt is given: Some(0) is the newest. */
  datatype Attempt = Attempt(req: Request, back: Option<nat>, env: Env)

  function Handed(issued: seq<ResumeState>, back: Option<nat>): (state: Option<ResumeState>)
    ensures state.Some? ==> state.value in issued
    ensures issued != [] && back.Some? ==> state.Some?
  {
    if issued == [] || back == None then None
    else if back.value < |issued| then Some(issued[|issued| - 1 - back.value])
    else Some(issued[0])
  }

  /** The target of an attempt that gets as far as writing, decided before it. */
  function TargetOf(files: map<Path, Bytes>, req: Request, state: Option<ResumeState>, total: nat, env: Env): Option<Path> {
    var named := Path(req.parent, req.name);
    if state.Some? && Accepted(state.value, req, total) then Some(state.value.target)
    else if !env.statOk then None
    else if named !in files then Some(named)
    else if req.policy == "skip" then None
    else if req.policy == "rename" then Some(FirstFree(files, named, 1))
    else Some(named)
  }

  /** An older `.part` file that a later attempt would take up although it is no beginning of the source. */
  predicate Stale(files: map<Path, Bytes>, tmp: Path, src: Bytes) {
    tmp in files && |files[tmp]| <= |src| && files[tmp] != src[..|files[tmp]|]
  }

  /** The temporary file is taken up when a state is handed over and the file is not too long. */
  predicate TakenUp(files: map<Path, Bytes>, s: Option<ResumeState>, req: Request, total: nat) {
    && s.Some? && Accepted(s.value, req, total)
    && TmpOf(s.value.target) in files && |files[TmpOf(s.value.target)]| <= total
  }

  /** What the attempt starts from. */
  function StartOf(files: map<Path, Bytes>, s: Option<ResumeState>, req: Request, total: nat): (start: Bytes)
    ensures |start| <= total
  {
    if TakenUp(files, s, req, total) then files[TmpOf(s.value.target)] else []
  }

  /** Only this one file changed. */
  ghost predicate SameBut(before: map<Path, Bytes>, after: map<Path, Bytes>, changed: Path) {
    forall p :: p != changed ==> Same(before, after, p)
  }

  /** The file is the same before and after. */
  ghost predicate Same(before: map<Path, Bytes>, after: map<Path, Bytes>, p: Path) {
    (p in after <==> p in before) && (p in after && p in before ==> after[p] == before[p])
  }

  /** What an attempt that gets as far as writing to `target` leaves. */
  ghost predicate Attempted(before: map<Path, Bytes>, after: map<Path, Bytes>, target: Path, start: Bytes,
                            src: Bytes, env: Env, r: Outcome)
  {
    var tmp := TmpOf(target);
    && (forall p :: p != target && p != tmp ==> Same(before, after, p))
    && (Opens(env) && env.renames && (forall i :: env.steps(i).Written?) ==> r == Done(target))
    && (if r.Done? then
          && r.target == target && Opens(env) && tmp !in after
          && target in after && Continues(after[target], start, src) && |after[target]| == |src|
        else
          && Same(before, after, target)
          && (if Opens(env) then tmp in after ==> Continues(after[tmp], start, src) else after == before)
          && (Opens(env) && (env.renames || !env.removes) ==> tmp in after)
          && (Opens(env) && env.removes && (forall i :: env.steps(i).Written?) ==> tmp !in after))
  }

  /** At least one state was handed out, and all new ones are for this request and target. */
  ghost predicate Issues(before: seq<ResumeState>, after: seq<ResumeState>, req: Request, target: Path, total: nat) {
    && before < after
    && forall s :: s in after[|before|..] ==> s.target == target && Accepted(s, req, total)
  }

  function Checkpoints(given: ResumeState, counts: seq<nat>): seq<ResumeState> {
    seq(|counts|, k requires 0 <= k < |counts| => given.(uploadedBytes := counts[k]))
  }

  lemma IssuesAll(before: seq<ResumeState>, given: ResumeState, counts: seq<nat>, req: Request, target: Path,
                  total: nat)
    requires given.target == target && Accepted(given, req, total)
    ensures Issues(before, before + [given] + Checkpoints(given, counts), req, target, total)
  {
    var after := before + [given] + Checkpoints(given, counts);
    assert after[|before|..] == [given] + Checkpoints(given, counts);
  }

  /** The copy was cut off, or the rename failed and the temporary file may be removed. */
  lemma CutOff(before: map<Path, Bytes>, copied: map<Path, Bytes>, target: Path, start: Bytes, src: Bytes, env: Env,
               ok: bool)
    requires SameBut(before, copied, TmpOf(target))
    requires if Opens(env) then TmpOf(target) in copied && Continues(copied[TmpOf(target)], start, src) else copied == before
    requires Opens(env) && (forall i :: env.steps(i).Written?) ==> ok
    requires ok ==> Opens(env)
    ensures !ok ==> Attempted(before, copied, target, start, src, env, Failed)
    ensures ok && !env.renames && !env.removes ==> Attempted(before, copied, target, start, src, env, Failed)
    ensures ok && !env.renames && env.removes ==>
              Attempted(before, copied - {TmpOf(target)}, target, start, src, env, Failed)
  {
    TmpIsOther(target);
    var less := copied - {TmpOf(target)};
    forall p | p != TmpOf(target)
      ensures Same(before, less, p)
    {
      assert Same(before, copied, p);
    }
  }

  lemma Renamed(before: map<Path, Bytes>, copied: map<Path, Bytes>, target: Path, start: Bytes, src: Bytes, env: Env)
    requires SameBut(before, copied, TmpOf(target))
    requires Opens(env) && TmpOf(target) in copied && Continues(copied[TmpOf(target)], start, src)
    requires |copied[TmpOf(target)]| == |src|
    ensures Attempted(before, (copied - {TmpOf(target)})[target := copied[TmpOf(target)]], target, start, src, env, Done(target))
  {
    TmpIsOther(target);
    var after := (copied - {TmpOf(target)})[target := copied[TmpOf(target)]];
    forall p | p != TmpOf(target) && p != target
      ensures Same(before, after, p)
    {
      assert Same(before, copied, p);
    }
  }

  /** Number k makes a free name, or all 999 names are taken; smaller numbers do not. */
  ghost predicate IsLeastFree(files: map<Path, Bytes>, req: Request, k: nat) {
    && 1 <= k <= 999
    && (forall j :: 1 <= j < k ==> Path(req.parent, Numbered(req.name, j)) in files)
    && (k == 999 || Path(req.parent, Numbered(req.name, k)) !in files)
  }

  /** What the conflict policy promises where no state decides the target: under "skip" an existing file
      ends the attempt, under "rename" it is left alone for the free name with the least number, and
      otherwise the file is written under its own name. */
  ghost predicate ByPolicy(before: map<Path, Bytes>, after: map<Path, Bytes>, req: Request, env: Env, r: Outcome) {
    var named := Path(req.parent, req.name);
    if !env.statOk then r == Failed && after == before
    else if named in before && req.policy == "skip" then r == Skipped && after == before
    else if named in before && req.policy == "rename" then
      && r != Skipped && Same(before, after, named)
      && (r.Done? ==> exists k :: IsLeastFree(before, req, k) && r.target == Path(req.parent, Numbered(req.name, k)))
    else r != Skipped && (r.Done? ==> r.target == named)
  }

  lemma NotStarted(files: map<Path, Bytes>, req: Request, state: Option<ResumeState>, total: nat, env: Env, r: Outcome)
    requires TargetOf(files, req, state, total, env) == None
    requires (r == Failed && !env.statOk) ||
             (r == Skipped && req.policy == "skip" && Path(req.parent, req.name) in files && env.statOk)
    ensures !(state.Some? && Accepted(state.value, req, total)) && ByPolicy(files, files, req, env, r)
  {
  }

  lemma TargetByPolicy(files: map<Path, Bytes>, req: Request, state: Option<ResumeState>, src: Bytes, env: Env)
    requires TargetOf(files, req, state, |src|, env).Some?
    ensures var target, given := TargetOf(files, req, state, |src|, env).value, state.Some? && Accepted(state.value, req, |src|);
            if given then target == state.value.target
            else
              forall after, start, r: Outcome :: (r.Done? || r == Failed) && Attempted(files, after, target, start, src, env, r) ==>
                ByPolicy(files, after, req, env, r)
  {
    var target, named := TargetOf(files, req, state, |src|, env).value, Path(req.parent, req.name);
    if !(state.Some? && Accepted(state.value, req, |src|)) {
      var k := FirstFreeIsLeast(files, named, 1);
      CandidateDiffers(named, k);
      assert forall j: nat :: Candidate(named, j) == Path(req.parent, Numbered(req.name, j));
      assert IsLeastFree(files, req, k);
      forall after, start, r: Outcome | (r.Done? || r == Failed) && Attempted(files, after, target, start, src, env, r)
        ensures ByPolicy(files, after, req, env, r)
      {
        if named in files && req.policy == "rename" {
          assert target == Candidate(named, k);
          assert Same(files, after, named);
        }
      }
    }
  }

  /** What is at the place, if anything. */
  function Old(files: map<Path, Bytes>, p: Path): Option<Bytes> {
    if p in files then Some(files[p]) else None
  }

  lemma WholeIs(part: Bytes, start: Bytes, src: Bytes)
    requires Continues(part, start, src) && |part| == |src|
    ensures part == start + src[|start|..] && (start == [] ==> part == src)
  {
  }

  lemma StartIs(files: map<Path, Bytes>, state: Option<ResumeState>, req: Request, total: nat, dst: Path)
    requires state.Some? && Accepted(state.value, req, total) ==> dst == state.value.target
    ensures StartOf(files, state, req, total) ==
            if state.Some? && Accepted(state.value, req, total) && Old(files, TmpOf(dst)).Some? && |Old(files, TmpOf(dst)).value| <= total
            then Old(files, TmpOf(dst)).value else []
  {
  }

  lemma StartIsThere(files: map<Path, Bytes>, state: Option<ResumeState>, req: Request, total: nat, env: Env)
    requires TargetOf(files, req, state, total, env).Some?
    ensures var tmp, start := TmpOf(TargetOf(files, req, state, total, env).value), StartOf(files, state, req, total);
            start != [] ==> tmp in files && files[tmp] == start
  {
  }

  class LocalFs {
    /** The regular files of the storage. */
    var files: map<Path, Bytes>
    /** The resume states handed to the callback so far, oldest first. */
    var issued: seq<ResumeState>

    constructor (files: map<Path, Bytes>)
      ensures this.files == files && issued == []
    {
      this.files, issued := files, [];
    }

    /** `suffixForUnique`. */
    method SuffixForUnique(target: Path) returns (unique: Path)
      ensures unique == FirstFree(files, target, 1)
    {
      var i := 1;
      while i < LAST_NUMBER + 1
        invariant 1 <= i <= LAST_NUMBER + 1
        invariant i <= LAST_NUMBER ==> FirstFree(files, target, 1) == FirstFree(files, target, i)
        invariant i > LAST_NUMBER ==> FirstFree(files, target, 1) == Candidate(target, LAST_NUMBER)
      {
        var candidate := Candidate(target, i);
        if candidate !in files {
          return candidate;
        }
        i := i + 1;
      }
      unique := Candidate(target, LAST_NUMBER);
    }

    /** Where to write: the target of the state, or the named file as the conflict policy wants it. */
    method ChooseTarget(req: Request, state: Option<ResumeState>, total: nat, env: Env)
      returns (stop: Option<Outcome>, dst: Path)
      ensures stop == None <==> TargetOf(files, req, state, total, env).Some?
      ensures stop == None ==> dst == TargetOf(files, req, state, total, env).value && dst.dir == req.parent
      ensures stop.Some? ==> stop.value == Skipped || stop.value == Failed
      ensures stop == Some(Failed) ==> !env.statOk
      ensures stop == Some(Skipped) ==> env.statOk && req.policy == "skip" && Path(req.parent, req.name) in files
    {
      stop, dst := None, Path(req.parent, req.name);
      if state.Some? && Accepted(state.value, req, total) {
        dst := state.value.target;
      } else if !env.statOk {
        stop := Some(Failed);
      } else if dst in files {
        if req.policy == "skip" {
          stop := Some(Skipped);
        } else if req.policy == "rename" {
          dst := SuffixForUnique(dst);
        }
      }
    }

    /** `copyFileWithProgress` into the temporary file. */
    method CopyToTmp(src: Bytes, tmp: Path, start: Bytes, env: Env) returns (ok: bool, checkpoints: seq<nat>)
      requires |start| <= |src| && (start != [] ==> tmp in files && files[tmp] == start)
      modifies this`files
      ensures SameBut(old(files), files, tmp)
      ensures !Opens(env) ==> !ok && files == old(files) && checkpoints == []
      ensures Opens(env) ==> tmp in files && Continues(files[tmp], start, src)
      ensures ok ==> |files[tmp]| == |src|
      ensures Opens(env) && (forall i :: env.steps(i).Written?) ==> ok
      ensures ok ==> Last(checkpoints, |start|) == |src|
      ensures Opens(env) && !ok ==> CutAt(|checkpoints|, env.steps) && Last(checkpoints, |start|) <= |files[tmp]|
    {
      checkpoints := [];
      if !env.srcOpens || !env.tmpOpens {
        return false, checkpoints;
      }
      var part;
      ok, part, checkpoints := CopyLoop(src, start, env.steps);
      files := files[tmp := part];
    }

    /** One attempt. When it succeeds, the target is what the attempt started from, continued from the
        source; otherwise what it wrote may stay in the temporary file. Nothing else changes. */
    method UploadLocalFile(req: Request, src: Bytes, state: Option<ResumeState>, env: Env) returns (r: Outcome)
      modifies this
      ensures r.Done? || r == Failed || (r == Skipped && req.policy == "skip" && Path(req.parent, req.name) in old(files))
      ensures TargetOf(old(files), req, state, |src|, env) == None ==>
                !r.Done? && files == old(files) && issued == old(issued)
      ensures var target := TargetOf(old(files), req, state, |src|, env);
              target.Some? ==>
                && Issues(old(issued), issued, req, target.value, |src|)
                && Attempted(old(files), files, target.value, StartOf(old(files), state, req, |src|), src, env, r)
      ensures r.Done? ==>
                r.target in files && (files[r.target] == src <==> Begins(StartOf(old(files), state, req, |src|), src))
      ensures r.Done? ==>
                files[r.target] ==
                  if state.Some? && Accepted(state.value, req, |src|) && Old(old(files), TmpOf(r.target)).Some?
                     && |Old(old(files), TmpOf(r.target)).value| <= |src|
                  then var part := Old(old(files), TmpOf(r.target)).value; part + src[|part|..] else src
      ensures r.Done? ==>
                issued != [] && issued[|issued| - 1].uploadedBytes == |src| && issued[|issued| - 1].target == r.target
      ensures env.statOk && Opens(env) && env.renames && (forall i :: env.steps(i).Written?) ==> r != Failed
      ensures state.Some? && Accepted(state.value, req, |src|) ==>
                r != Skipped && (r.Done? ==> r.target == state.value.target)
      ensures !(state.Some? && Accepted(state.value, req, |src|)) ==> ByPolicy(old(files), files, req, env, r)
    {
      hide Attempted, Issues, Continues, Same, SameBut, TmpOf, TargetOf, ByPolicy, Accepted;
      ghost var files0 := files;
      var total := |src|;
      var stop, dst := ChooseTarget(req, state, total, env);
      if stop.Some? {
        NotStarted(files, req, state, total, env, stop.value);
        return stop.value;
      }
      TargetByPolicy(files, req, state, src, env);
      var tmp := TmpOf(dst);
      var start := StartOf(files, state, req, total);
      StartIsThere(files, state, req, total, env);
      ghost var before := files;
      var given := ResumeState(req.parent, req.name, dst, total, |start|);
      issued := issued + [given];
      var ok, checkpoints := CopyToTmp(src, tmp, start, env);
      issued := issued + Checkpoints(given, checkpoints);
      IssuesAll(old(issued), given, checkpoints, req, dst, total);
      CutOff(before, files, dst, start, src, env, ok);
      if !ok {
        return Failed;
      }
      if !env.renames {
        files := if env.removes then files - {tmp} else files;
        return Failed;
      }
      Renamed(before, files, dst, start, src, env);
      files := (files - {tmp})[dst := files[tmp]];
      r := Done(dst);
      PrefixStaysPrefix(files[dst], start, src);
      WholeIs(files[dst], start, src);
      StartIs(before, state, req, total, dst);
    }

    /** Every temporary file that a later attempt may take up is a beginning of the source. */
    ghost predicate Clean(src: Bytes)
      reads this
    {
      forall s :: s in issued ==> !Stale(files, TmpOf(s.target), src)
    }

    /** One attempt for an unchanged source, handed a state that was issued before. It writes the source.
        Later attempts are safe exactly unless it started afresh, was cut off before its files were open,
        and an older `.part` file that is no beginning of the source lies at its target. */
    method RunOnce(src: Bytes, a: Attempt) returns (written: Option<Bytes>)
      requires Clean(src)
      modifies this
      ensures written.Some? ==> written.value == src
      ensures var state := Handed(old(issued), a.back); var target := TargetOf(old(files), a.req, state, |src|, a.env);
              && (target == None ==> files == old(files) && issued == old(issued))
              && (target.Some? ==> Issues(old(issued), issued, a.req, target.value, |src|))
              && (Clean(src) <==> Safe(old(files), a.req, state, src, a.env))
    {
      var state := Handed(issued, a.back);
      ghost var files0, issued0, start := files, issued, StartOf(files, state, a.req, |src|);
      ghost var target := TargetOf(files, a.req, state, |src|, a.env);
      StartBegins(src, state, a.req);
      var r := UploadLocalFile(a.req, src, state, a.env);
      if target.Some? {
        if r.Done? {
          PrefixStaysPrefix(files[r.target], start, src);
        }
        StaysClean(files0, issued0, a.req, state, target.value, start, src, a.env, r);
      }
      written := if r.Done? then Some(files[r.target]) else None;
    }

    lemma StartBegins(src: Bytes, state: Option<ResumeState>, req: Request)
      requires Clean(src) && (state.Some? ==> state.value in issued)
      ensures Begins(StartOf(files, state, req, |src|), src)
    {
      WholeBegins(src);
    }

    lemma StaysClean(files0: map<Path, Bytes>, issued0: seq<ResumeState>, req: Request, state: Option<ResumeState>,
                     target: Path, start: Bytes, src: Bytes, env: Env, r: Outcome)
      requires Attempted(files0, files, target, start, src, env, r) && Issues(issued0, issued, req, target, |src|)
      requires TargetOf(files0, req, state, |src|, env) == Some(target) && Begins(start, src)
      requires forall s :: s in issued0 ==> !Stale(files0, TmpOf(s.target), src)
      requires state.Some? ==> state.value in issued0
      ensures Clean(src) <==> Safe(files0, req, state, src, env)
    {
      forall s | s in issued && (Opens(env) || s in issued0)
        ensures !Stale(files, TmpOf(s.target), src)
      {
        TmpIsDistinct(s.target, target);
        if s.target == target {
          if Opens(env) && TmpOf(target) in files {
            PrefixStaysPrefix(files[TmpOf(target)], start, src);
          }
        } else {
          assert s in issued0;
          OtherTmp(files0, s, target, start, src, env, r);
        }
      }
      var first := issued[|issued0|];
      assert first in issued[|issued0|..] && first in issued;
      assert issued == issued0 + issued[|issued0|..];
    }

    /** The temporary file of another target stays as it was, or is the new target and holds the source. */
    lemma OtherTmp(files0: map<Path, Bytes>, s: ResumeState, target: Path, start: Bytes, src: Bytes, env: Env,
                   r: Outcome)
      requires Attempted(files0, files, target, start, src, env, r) && Begins(start, src)
      requires s.target != target && !Stale(files0, TmpOf(s.target), src)
      ensures !Stale(files, TmpOf(s.target), src)
    {
      TmpIsDistinct(s.target, target);
      if TmpOf(s.target) == target {
        if r.Done? {
          PrefixStaysPrefix(files[target], start, src);
        }
      } else {
        assert Same(files0, files, TmpOf(s.target));
      }
    }

    /** Any number of attempts for an unchanged source, from any files, each cut off anywhere and handed
        any state issued before: what is written is the source. An attempt may be cut off before its
        files are open once an earlier one of the same upload opened them. */
    method UploadRuns(src: Bytes, attempts: seq<Attempt>) returns (written: seq<Option<Bytes>>)
      requires issued == [] && forall i :: 0 <= i < |attempts| ==> Careful(attempts, i)
      modifies this
      ensures Clean(src) && |written| == |attempts|
      ensures forall b :: b in written && b.Some? ==> b.value == src
    {
      written := [];
      for i := 0 to |attempts|
        invariant Clean(src) && |written| == i
        invariant forall b :: b in written && b.Some? ==> b.value == src
        invariant OneUpload(attempts) && |attempts| > 0 ==>
                    UploadStands(attempts[0].req, |src|, OpenedBefore(attempts, i))
      {
        ghost var files0, issued0 := files, issued;
        var w := RunOnce(src, attempts[i]);
        written := written + [w];
        assert Careful(attempts, i);
        OpenedBeforeNext(attempts, i);
        if OneUpload(attempts) {
          assert attempts[i] in attempts && attempts[0] in attempts;
        }
      }
    }

    /** All states issued are for the one request; and where none was, although an attempt got as far as
        its files, the request is skipped each time. */
    ghost predicate UploadStands(req: Request, total: nat, tried: bool)
      reads this
    {
      && (forall s :: s in issued ==> Accepted(s, req, total))
      && (issued == [] && tried ==> req.policy == "skip" && Path(req.parent, req.name) in files)
    }
  }

  /** Whether a later attempt cannot take up a wrong `.part` file because of this one. */
  predicate Safe(files: map<Path, Bytes>, req: Request, state: Option<ResumeState>, src: Bytes, env: Env) {
    var target := TargetOf(files, req, state, |src|, env);
    || Opens(env) || target == None
    || (state.Some? && Accepted(state.value, req, |src|))
    || !Stale(files, TmpOf(target.value), src)
  }

  ghost predicate OneUpload(attempts: seq<Attempt>) {
    forall a, b :: a in attempts && b in attempts ==> a.req == b.req
  }

  /** Some attempt before i looked its target up and could open its files. */
  ghost predicate OpenedBefore(attempts: seq<Attempt>, i: nat)
    requires i <= |attempts|
  {
    exists j :: 0 <= j < i && attempts[j].env.statOk && Opens(attempts[j].env)
  }

  lemma OpenedBeforeNext(attempts: seq<Attempt>, i: nat)
    requires i < |attempts|
    ensures OpenedBefore(attempts, i + 1) <==>
              OpenedBefore(attempts, i) || (attempts[i].env.statOk && Opens(attempts[i].env))
  {
  }

  /** Attempt i opens its files; or it is handed a state if there is one, and an earlier attempt of
      this one upload got as far as opening them. */
  ghost predicate Careful(attempts: seq<Attempt>, i: nat)
    requires i < |attempts|
  {
    Opens(attempts[i].env) || (OneUpload(attempts) && attempts[i].back.Some? && OpenedBefore(attempts, i))
  }

  lemma TmpIsDistinct(a: Path, b: Path)
    ensures TmpOf(a) == TmpOf(b) ==> a == b
    ensures TmpOf(a) != a && TmpOf(b) != b
  {
    TmpIsOther(a);
    TmpIsOther(b);
    if TmpOf(a) == TmpOf(b) {
      assert (a.base + ".part")[..|a.base|] == a.base;
      assert (b.base + ".part")[..|b.base|] == b.base;
    }
  }

  lemma WholeBegins(src: Bytes)
    ensures Begins(src, src) && Begins([], src)
  {
    assert src[..|src|] == src;
  }

  /** A run with a wrong result. The state is handed out before the temporary file is emptied; so after an
      attempt that is cut off in between, the next one takes up whatever an older `.part` file holds. */
  method StalePartIsTakenUp() returns (src: Bytes, written: Option<Bytes>)
    ensures src == [1, 2] && written == Some([9, 2])
  {
    src := [1, 2];
    var req, dst := Request("dir", "name", "overwrite"), Path("dir", "name");
    var goes := Env(true, true, true, (i: nat) => Written(1024), true, true);
    TmpIsOther(dst);
    var fs := new LocalFs(map[TmpOf(dst) := [9]]);
    var r := fs.UploadLocalFile(req, src, None, goes.(tmpOpens := false));
    assert fs.files == map[TmpOf(dst) := [9]];
    var state := Handed(fs.issued, Some(0));
    assert fs.issued[0..] == fs.issued;
    assert TargetOf(fs.files, req, state, 2, goes) == Some(dst) && StartOf(fs.files, state, req, 2) == [9];
    r := fs.UploadLocalFile(req, src, state, goes);
    assert r == Done(dst) && fs.files[dst] == [9] + src[1..2];
    assert src[1..2] == [2];
    assert [9] + src[1..2] == [9, 2];
    written := Some(fs.files[dst]);
  }
}
