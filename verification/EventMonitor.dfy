/** internal/eventmonitor/service.go: the poller that stores the cursor of the event log of 115,
    while reading it, polling and storing it may each fail. */
module EventMonitor {
  import opened Events115
  import opened Seqs
  import opened Text

  /** Whether reading the stored cursor and storing the new one succeed in one round. */
  datatype Round = Round(read: bool, saved: bool)

  /** One poll: the cursor it starts from, the pages it sees, what it returns, and the number of its requests. */
  datatype Poll = Poll(round: Round, fromID: string, pages: seq<seq<RawEvent>>, events: seq<Operation>, next: string,
                       out: Outcome, calls: nat)
  {
    /** The events handed on: none while the baseline is set. */
    function Handed(): seq<Operation> {
      if out == Failed || fromID == "" then [] else events
    }

    function CursorAfter(stored: string): string {
      if out == Failed || !round.saved || next == "" then stored
      else if fromID == "" || events != [] then next
      else stored
    }
  }

  ghost predicate Polled(w: World, first: nat, p: Poll) {
    PollResult(w, first, p.fromID, 1000, p.pages, p.calls, p.out, p.events, p.next)
  }

  /** The number of requests before poll r. */
  ghost function CallsBefore(run: seq<Poll>, r: nat): nat
    requires r <= |run|
  {
    if r == 0 then 0 else CallsBefore(run, r - 1) + run[r - 1].calls
  }

  /** The cursor that is stored when poll r starts. */
  ghost function CursorAt(run: seq<Poll>, r: nat): string
    requires r <= |run|
  {
    if r == 0 then "" else run[r - 1].CursorAfter(CursorAt(run, r - 1))
  }

  /** The first cursor that was stored. */
  ghost function BaselineAt(run: seq<Poll>, r: nat): string
    requires r <= |run|
  {
    if r == 0 then ""
    else if BaselineAt(run, r - 1) != "" then BaselineAt(run, r - 1)
    else CursorAt(run, r)
  }

  ghost function DeliveredBefore(run: seq<Poll>, r: nat): seq<Operation>
    requires r <= |run|
  {
    if r == 0 then [] else DeliveredBefore(run, r - 1) + run[r - 1].Handed()
  }

  /** Poll r starts from the stored cursor, or from none when that could not be read, and sees the
      log as it is by then. */
  ghost predicate Follows(w: World, run: seq<Poll>, r: nat)
    requires r < |run|
  {
    && run[r].fromID == (if run[r].round.read then CursorAt(run, r) else "")
    && Polled(w, CallsBefore(run, r), run[r])
  }

  ghost predicate IsRun(w: World, run: seq<Poll>) {
    forall r: nat :: r < |run| ==> Follows(w, run, r)
  }

  lemma FollowsAt(w: World, run: seq<Poll>, r: nat)
    requires IsRun(w, run) && r < |run|
    ensures run[r].fromID == (if run[r].round.read then CursorAt(run, r) else "")
    ensures Polled(w, CallsBefore(run, r), run[r])
  {
    assert Follows(w, run, r);
  }

  ghost function ValueAt(w: World, run: seq<Poll>, r: nat): int
    requires r <= |run|
  {
    w.idValue(CursorAt(run, r))
  }

  ghost predicate AllSaved(run: seq<Poll>) {
    forall p :: p in run ==> p.round.saved
  }

  // ----- the stored cursor only advances -----

  /** `v` is the id of an event that every request from `call` on can see. */
  ghost predicate KnownAt(w: World, call: nat, v: int, j: nat) {
    && j < |w.history| && w.idValue(w.history[j].id) == v > 0
    && forall k: nat :: call <= k < |w.script| ==> j < w.Visible(k)
  }

  ghost predicate Known(w: World, call: nat, v: int) {
    exists j :: KnownAt(w, call, v, j)
  }

  lemma KnownLater(w: World, call: nat, later: nat, v: int)
    requires Known(w, call, v) && call <= later
    ensures Known(w, later, v)
  {
    var j :| KnownAt(w, call, v, j);
    assert KnownAt(w, later, v, j);
  }

  lemma NextIsKnown(w: World, first: nat, p: Poll)
    requires w.Growing() && w.Ordered() && Polled(w, first, p)
    requires w.idValue(p.fromID) >= 0 && p.next != p.fromID
    ensures p.out != Failed && Known(w, first + p.calls, w.idValue(p.next))
  {
    MaxValueMeaning(w, Flatten(p.pages));
    var v := MaxValue(w, Flatten(p.pages));
    var e :| e in Flatten(p.pages) && w.idValue(e.id) == v;
    var last := first + |p.pages| - 1;
    var lo, hi := Coverage(w, first, 1000, p.pages);
    var j :| 0 <= j < hi && j < |w.history| && w.history[j] == e;
    forall k: nat | first + p.calls <= k < |w.script|
      ensures j < w.Visible(k)
    {
      VisibleGrows(w, last, k);
    }
    assert KnownAt(w, first + p.calls, v, j);
  }

  lemma EmptyReadsZero(w: World)
    requires w.Ordered()
    ensures w.idValue("") == 0 && ReadsIds(w.idValue, w.idText)
  {
  }

  lemma KnownIsPositive(w: World, call: nat, v: int)
    requires Known(w, call, v)
    ensures v > 0
  {
  }

  /** A stored cursor is the id of an event that all later requests can see. */
  lemma {:induction false} CursorIsKnown(w: World, run: seq<Poll>, r: nat)
    requires w.Growing() && w.Ordered() && IsRun(w, run) && r <= |run|
    ensures CursorAt(run, r) != "" ==> ValueAt(w, run, r) > 0 && Known(w, CallsBefore(run, r), ValueAt(w, run, r))
  {
    hide World.Growing, World.Ordered, Known, Polled;
    if r > 0 && CursorAt(run, r) != "" {
      var p, first := run[r - 1], CallsBefore(run, r - 1);
      CursorIsKnown(w, run, r - 1);
      assert Follows(w, run, r - 1);
      EmptyReadsZero(w);
      if CursorAt(run, r) == CursorAt(run, r - 1) {
        KnownLater(w, first, first + p.calls, ValueAt(w, run, r));
      } else {
        NextIsKnown(w, first, p);
        KnownIsPositive(w, first + p.calls, w.idValue(p.next));
      }
    }
  }

  lemma NewestIsGreatest(w: World, call: nat, v: int)
    requires w.Ordered() && Known(w, call, v) && !w.Fails(call)
    ensures Newest(w, call) != "" && w.idValue(Newest(w, call)) >= v
  {
    var j :| KnownAt(w, call, v, j);
    var n := w.Visible(call);
    assert j < n;
    assert w.idValue(w.history[n - 1].id) >= v;
  }

  /** The cursor never goes back, and never gets lost: also after a poll that could not read it and
      stores a new baseline. */
  lemma CursorOnlyAdvances(w: World, run: seq<Poll>, r: nat)
    requires w.Growing() && w.Ordered() && IsRun(w, run) && r < |run|
    ensures ValueAt(w, run, r) <= ValueAt(w, run, r + 1)
    ensures CursorAt(run, r) != "" ==> CursorAt(run, r + 1) != ""
  {
    hide World.Growing, World.Ordered, Known, PollResult, Newest;
    var p, first := run[r], CallsBefore(run, r);
    assert Follows(w, run, r);
    CursorIsKnown(w, run, r);
    EmptyReadsZero(w);
    PollKeepsCursor(w, first, p.fromID, 1000, p.pages, p.calls, p.out, p.events, p.next);
    if CursorAt(run, r) != "" && p.fromID == "" {
      BaselineReadsNewest(w, first, 1000, p.pages, p.calls, p.out, p.events, p.next);
      if p.out != Failed {
        NewestIsGreatest(w, first, ValueAt(w, run, r));
      }
    }
  }

  lemma {:induction false} CursorIsMonotone(w: World, run: seq<Poll>, a: nat, b: nat)
    requires w.Growing() && w.Ordered() && IsRun(w, run) && a <= b <= |run|
    ensures ValueAt(w, run, a) <= ValueAt(w, run, b)
    ensures CursorAt(run, a) != "" ==> CursorAt(run, b) != ""
    decreases b
  {
    if a < b {
      CursorIsMonotone(w, run, a, b - 1);
      CursorOnlyAdvances(w, run, b - 1);
    }
  }

  lemma {:induction false} BaselineIsFirst(w: World, run: seq<Poll>, r: nat) returns (a: nat)
    requires w.Growing() && w.Ordered() && IsRun(w, run) && r <= |run| && CursorAt(run, r) != ""
    ensures a <= r && CursorAt(run, a) == BaselineAt(run, r) != ""
    ensures forall q :: 0 <= q < a ==> CursorAt(run, q) == ""
  {
    if CursorAt(run, r - 1) != "" {
      a := BaselineIsFirst(w, run, r - 1);
    } else {
      NoBaseline(w, run, r - 1);
      a := r;
    }
  }

  lemma {:induction false} NoBaseline(w: World, run: seq<Poll>, r: nat)
    requires w.Growing() && w.Ordered() && IsRun(w, run) && r <= |run| && CursorAt(run, r) == ""
    ensures BaselineAt(run, r) == "" && forall q :: 0 <= q <= r ==> CursorAt(run, q) == ""
  {
    if r > 0 {
      CursorOnlyAdvances(w, run, r - 1);
      NoBaseline(w, run, r - 1);
    }
  }

  // ----- which events are delivered -----

  /** Poll r starts from a stored cursor, and event i is due and on one of its pages. */
  ghost predicate HandsOn(w: World, run: seq<Poll>, r: nat, i: nat)
    requires r < |run|
  {
    && run[r].fromID != "" && run[r].out != Failed
    && Due(w, w.idValue(run[r].fromID), w.idValue(run[r].next), i)
    && Shown(w, CallsBefore(run, r), run[r].pages, i)
  }

  lemma HandedExactly(w: World, run: seq<Poll>, r: nat, i: nat)
    requires w.Growing() && w.Ordered() && IsRun(w, run) && r < |run|
    requires i < |w.history| && MapBehaviorType(w.history[i].typ).Some?
    ensures ToOperation(w.history[i]) in run[r].Handed() <==> HandsOn(w, run, r, i)
  {
    hide World.Growing, World.Ordered, PollResult, Due, Shown, ToOperation;
    var p := run[r];
    assert Follows(w, run, r);
    if p.out != Failed && p.fromID != "" {
      CursorIsKnown(w, run, r);
      ReturnsExactly(w, CallsBefore(run, r), p.fromID, 1000, p.pages, p.calls, p.out, p.events, p.next, i);
    }
  }

  lemma {:induction false} DeliveredExactly(w: World, run: seq<Poll>, r: nat, i: nat)
    requires w.Growing() && w.Ordered() && IsRun(w, run) && r <= |run|
    requires i < |w.history| && MapBehaviorType(w.history[i].typ).Some?
    ensures ToOperation(w.history[i]) in DeliveredBefore(run, r) <==> exists q: nat :: q < r && HandsOn(w, run, q, i)
  {
    hide World.Growing, World.Ordered, IsRun, HandsOn;
    if r > 0 {
      DeliveredExactly(w, run, r - 1, i);
      HandedExactly(w, run, r - 1, i);
    }
  }

  /** Poll r moves the stored cursor past event i. */
  ghost predicate Crosses(w: World, run: seq<Poll>, r: nat, i: nat) {
    r < |run| && i < |w.history| && ValueAt(w, run, r) < w.idValue(w.history[i].id) <= ValueAt(w, run, r + 1)
  }

  /** Poll r could read the cursor, and if the scan limit cut it short it came down to event i. */
  ghost predicate Reaches(w: World, run: seq<Poll>, r: nat, i: nat)
    requires r < |run|
  {
    run[r].round.read && (run[r].out == Capped ==> Shown(w, CallsBefore(run, r), run[r].pages, i))
  }

  lemma {:induction false} FindCrossing(w: World, run: seq<Poll>, a: nat, b: nat, i: nat) returns (r: nat)
    requires w.Growing() && w.Ordered() && IsRun(w, run) && a <= b <= |run| && i < |w.history|
    requires ValueAt(w, run, a) < w.idValue(w.history[i].id) <= ValueAt(w, run, b)
    ensures a <= r < b && Crosses(w, run, r, i)
    decreases b
  {
    if w.idValue(w.history[i].id) <= ValueAt(w, run, b - 1) {
      r := FindCrossing(w, run, a, b - 1, i);
    } else {
      r := b - 1;
    }
  }

  lemma DueFrom(w: World, base: int, cursor: int, from: int, to: int, i: int)
    requires Due(w, base, cursor, i) && from < w.idValue(w.history[i].id) <= to
    ensures Due(w, from, to, i)
  {
  }

  /** The poll that moves the cursor past an event hands it on exactly when it could read the cursor
      and came down to it. */
  lemma CrossingHandsOn(w: World, run: seq<Poll>, r: nat, i: nat, base: int, cursor: int)
    requires w.Growing() && w.Ordered() && IsRun(w, run) && Crosses(w, run, r, i) && CursorAt(run, r) != ""
    requires Due(w, base, cursor, i)
    ensures run[r].out != Failed && run[r].round.saved
    ensures HandsOn(w, run, r, i) <==> Reaches(w, run, r, i)
  {
    hide World.Growing, World.Ordered, PollResult, Due, Shown;
    var p := run[r];
    assert Follows(w, run, r);
    if p.round.read {
      CursorIsKnown(w, run, r);
      DueFrom(w, base, cursor, w.idValue(p.fromID), w.idValue(p.next), i);
      DueMeans(w, base, cursor, i);
      ReturnsExactly(w, CallsBefore(run, r), p.fromID, 1000, p.pages, p.calls, p.out, p.events, p.next, i);
    }
  }

  lemma DueMeans(w: World, from: int, to: int, i: int)
    requires Due(w, from, to, i)
    ensures 0 <= i < |w.history| && MapBehaviorType(w.history[i].typ).Some? && from < w.idValue(w.history[i].id) <= to
  {
  }

  /** Whoever hands an event on and stores the cursor moves it past the event. */
  lemma HandingCrosses(w: World, run: seq<Poll>, q: nat, i: nat)
    requires w.Growing() && w.Ordered() && IsRun(w, run) && q < |run| && HandsOn(w, run, q, i)
    ensures i < |w.history| && ValueAt(w, run, q) < w.idValue(w.history[i].id)
    ensures run[q].round.saved ==> w.idValue(w.history[i].id) <= ValueAt(w, run, q + 1)
  {
    hide World.Growing, World.Ordered, PollResult, Due, Shown;
    var p := run[q];
    assert Follows(w, run, q);
    DueMeans(w, w.idValue(p.fromID), w.idValue(p.next), i);
    CursorIsKnown(w, run, q);
    HandedExactly(w, run, q, i);
    EmptyReadsZero(w);
  }

  lemma OnlyCrossingHandsOn(w: World, run: seq<Poll>, r: nat, q: nat, i: nat)
    requires w.Growing() && w.Ordered() && IsRun(w, run) && Crosses(w, run, r, i) && q < |run| && q != r
    requires HandsOn(w, run, q, i)
    ensures q < r && !run[q].round.saved
  {
    hide World.Growing, World.Ordered, IsRun, HandsOn;
    HandingCrosses(w, run, q, i);
    if q > r {
      CursorIsMonotone(w, run, r + 1, q);
    } else {
      CursorIsMonotone(w, run, q + 1, r);
    }
  }

  /** What becomes of event i, which poll r moves the cursor past: it is delivered exactly when that
      poll reaches it, or an earlier one that failed to store the cursor had handed it on. */
  ghost predicate Accounted(w: World, run: seq<Poll>, r: nat, i: nat) {
    && Crosses(w, run, r, i) && MapBehaviorType(w.history[i].typ).Some?
    && (ToOperation(w.history[i]) in DeliveredBefore(run, |run|) <==>
        Reaches(w, run, r, i) || exists q: nat :: q < r && !run[q].round.saved && HandsOn(w, run, q, i))
  }

  /** Every due event between the baseline and the cursor has one poll that decides on it. */
  lemma EachEventDecided(w: World, run: seq<Poll>, i: nat) returns (r: nat)
    requires w.Growing() && w.Ordered() && IsRun(w, run) && CursorAt(run, |run|) != ""
    requires Due(w, w.idValue(BaselineAt(run, |run|)), ValueAt(w, run, |run|), i)
    ensures Accounted(w, run, r, i) && CursorAt(run, r) != ""
  {
    hide World.Growing, World.Ordered, IsRun, HandsOn, Reaches, Due, Crosses;
    var n := |run|;
    var base, cursor := w.idValue(BaselineAt(run, n)), ValueAt(w, run, n);
    DueMeans(w, base, cursor, i);
    var a := BaselineIsFirst(w, run, n);
    r := FindCrossing(w, run, a, n, i);
    CursorIsMonotone(w, run, a, r);
    CrossesMeans(w, run, r, i);
    CrossingHandsOn(w, run, r, i, base, cursor);
    DeliveredExactly(w, run, n, i);
    forall q: nat | q < n && HandsOn(w, run, q, i) && q != r
      ensures q < r && !run[q].round.saved
    {
      OnlyCrossingHandsOn(w, run, r, q, i);
    }
  }

  lemma CrossesMeans(w: World, run: seq<Poll>, r: nat, i: nat)
    requires Crosses(w, run, r, i)
    ensures r < |run| && i < |w.history|
  {
  }

  // ----- nothing twice, nothing unowed -----

  /** Every delivered operation stems from an event above the baseline and at or below the cursor. */
  ghost predicate OnlyDue(w: World, base: int, cursor: int, delivered: seq<Operation>) {
    forall op :: op in delivered ==> exists i :: Due(w, base, cursor, i) && op == ToOperation(w.history[i])
  }

  lemma PollAddsOnlyDue(w: World, first: nat, p: Poll, base: int, delivered: seq<Operation>)
    requires w.Growing() && w.Ordered() && 0 < base <= w.idValue(p.fromID) && Polled(w, first, p)
    requires OnlyDue(w, base, w.idValue(p.fromID), delivered)
    ensures OnlyDue(w, base, w.idValue(p.next), delivered + p.events)
  {
    hide World.Growing, World.Ordered, PollResult, ToOperation;
    var from, to := w.idValue(p.fromID), w.idValue(p.next);
    EmptyReadsZero(w);
    PollKeepsCursor(w, first, p.fromID, 1000, p.pages, p.calls, p.out, p.events, p.next);
    forall op | op in delivered + p.events
      ensures exists i :: Due(w, base, to, i) && op == ToOperation(w.history[i])
    {
      if op in delivered {
        var i :| Due(w, base, from, i) && op == ToOperation(w.history[i]);
        assert Due(w, base, to, i);
      } else {
        var i := DeliveredIsDue(w, first, p.fromID, 1000, p.pages, p.calls, p.out, p.events, p.next, op);
        assert Due(w, base, to, i);
      }
    }
  }

  lemma PollKeepsDistinct(w: World, first: nat, p: Poll, base: int, delivered: seq<Operation>)
    requires w.Growing() && w.Ordered() && 0 < base <= w.idValue(p.fromID) && Polled(w, first, p)
    requires OnlyDue(w, base, w.idValue(p.fromID), delivered) && DistinctIds(delivered)
    ensures DistinctIds(delivered + p.events)
  {
    hide World.Growing, World.Ordered, PollResult;
    var from := w.idValue(p.fromID);
    EmptyReadsZero(w);
    PollKeepsCursor(w, first, p.fromID, 1000, p.pages, p.calls, p.out, p.events, p.next);
    forall x, y | x in delivered && y in p.events
      ensures x.id != y.id
    {
      var i :| Due(w, base, from, i) && x == ToOperation(w.history[i]);
      var j := DeliveredIsDue(w, first, p.fromID, 1000, p.pages, p.calls, p.out, p.events, p.next, y);
      assert w.idValue(w.history[i].id) < w.idValue(w.history[j].id);
    }
  }

  /** What one poll from a stored cursor adds to what was delivered. */
  lemma LaterPollAdds(w: World, first: nat, p: Poll, base: int, delivered: seq<Operation>)
    requires w.Growing() && w.Ordered() && Polled(w, first, p) && p.round.saved && 0 < base <= w.idValue(p.fromID)
    requires OnlyDue(w, base, w.idValue(p.fromID), delivered) && DistinctIds(delivered)
    ensures OnlyDue(w, base, w.idValue(p.CursorAfter(p.fromID)), delivered + p.Handed())
    ensures DistinctIds(delivered + p.Handed())
  {
    hide World.Growing, World.Ordered, PollResult, OnlyDue, DistinctIds, Due;
    EmptyReadsZero(w);
    assert delivered + [] == delivered;
    if p.Handed() != [] {
      PollAddsOnlyDue(w, first, p, base, delivered);
      PollKeepsDistinct(w, first, p, base, delivered);
      PollKeepsCursor(w, first, p.fromID, 1000, p.pages, p.calls, p.out, p.events, p.next);
    }
  }

  /** A poll without a cursor hands nothing on. */
  lemma BaselinePollAdds(w: World, run: seq<Poll>, r: nat)
    requires w.Growing() && w.Ordered() && IsRun(w, run) && r < |run| && run[r].fromID == ""
    requires CursorAt(run, r) == "" ==> DeliveredBefore(run, r) == []
    requires OnlyDue(w, w.idValue(BaselineAt(run, r)), ValueAt(w, run, r), DeliveredBefore(run, r))
    ensures DeliveredBefore(run, r + 1) == DeliveredBefore(run, r)
    ensures OnlyDue(w, w.idValue(BaselineAt(run, r + 1)), ValueAt(w, run, r + 1), DeliveredBefore(run, r))
  {
    hide World.Growing, World.Ordered, IsRun, OnlyDue;
    CursorOnlyAdvances(w, run, r);
    if CursorAt(run, r) == "" {
      NothingDelivered(w, w.idValue(BaselineAt(run, r + 1)), ValueAt(w, run, r + 1));
    } else {
      var a := BaselineIsFirst(w, run, r);
      OnlyDueWider(w, w.idValue(BaselineAt(run, r)), ValueAt(w, run, r), ValueAt(w, run, r + 1),
                   DeliveredBefore(run, r));
    }
  }

  /** As long as every new cursor was stored, nothing is delivered twice and only what is due. */
  lemma {:induction false} NothingTwice(w: World, run: seq<Poll>, r: nat)
    requires w.Growing() && w.Ordered() && IsRun(w, run) && AllSaved(run) && r <= |run|
    ensures CursorAt(run, r) == "" ==> DeliveredBefore(run, r) == []
    ensures OnlyDue(w, w.idValue(BaselineAt(run, r)), ValueAt(w, run, r), DeliveredBefore(run, r))
    ensures DistinctIds(DeliveredBefore(run, r))
  {
    hide World.Growing, World.Ordered, IsRun, Polled, OnlyDue, DistinctIds, Poll.Handed, Poll.CursorAfter;
    if r == 0 {
      NothingDelivered(w, 0, 0);
      EmptyReadsZero(w);
    } else {
      var p := run[r - 1];
      NothingTwice(w, run, r - 1);
      CursorOnlyAdvances(w, run, r - 1);
      if p.fromID == "" {
        BaselinePollAdds(w, run, r - 1);
      } else {
        FollowsAt(w, run, r - 1);
        assert p in run;
        var a := BaselineIsFirst(w, run, r - 1);
        CursorIsMonotone(w, run, a, r - 1);
        CursorIsKnown(w, run, a);
        LaterPollAdds(w, CallsBefore(run, r - 1), p, w.idValue(BaselineAt(run, r - 1)), DeliveredBefore(run, r - 1));
      }
    }
  }

  lemma NothingDelivered(w: World, base: int, cursor: int)
    ensures OnlyDue(w, base, cursor, []) && DistinctIds([])
  {
  }

  lemma OnlyDueWider(w: World, base: int, cursor: int, cursor': int, delivered: seq<Operation>)
    requires OnlyDue(w, base, cursor, delivered) && cursor <= cursor'
    ensures OnlyDue(w, base, cursor', delivered)
  {
    forall op | op in delivered
      ensures exists i :: Due(w, base, cursor', i) && op == ToOperation(w.history[i])
    {
      var i :| Due(w, base, cursor, i) && op == ToOperation(w.history[i]);
      assert Due(w, base, cursor', i);
    }
  }

  // ----- whole runs -----

  /** The whole of what is claimed of a run. */
  ghost predicate RunHolds(w: World, run: seq<Poll>) {
    var n := |run|;
    var base, cursor := w.idValue(BaselineAt(run, n)), ValueAt(w, run, n);
    && (forall r: nat :: r < n ==> ValueAt(w, run, r) <= ValueAt(w, run, r + 1))
    && (CursorAt(run, n) != "" ==>
          0 < base <= cursor && forall i: nat :: Due(w, base, cursor, i) ==> exists r: nat :: Accounted(w, run, r, i))
    && (AllSaved(run) ==> OnlyDue(w, base, cursor, DeliveredBefore(run, n)) && DistinctIds(DeliveredBefore(run, n)))
  }

  /** Every run of polls, however many fail in whatever way and however the log grows. */
  lemma EveryRunHolds(w: World, run: seq<Poll>)
    requires w.Growing() && w.Ordered() && IsRun(w, run)
    ensures RunHolds(w, run)
  {
    hide World.Growing, World.Ordered, IsRun, OnlyDue, DistinctIds, Due, Accounted;
    var n := |run|;
    forall r: nat | r < n
      ensures ValueAt(w, run, r) <= ValueAt(w, run, r + 1)
    {
      CursorOnlyAdvances(w, run, r);
    }
    if CursorAt(run, n) != "" {
      var a := BaselineIsFirst(w, run, n);
      CursorIsMonotone(w, run, a, n);
      CursorIsKnown(w, run, a);
      forall i: nat | Due(w, w.idValue(BaselineAt(run, n)), ValueAt(w, run, n), i)
        ensures exists r: nat :: Accounted(w, run, r, i)
      {
        var r := EachEventDecided(w, run, i);
      }
    }
    if AllSaved(run) {
      NothingTwice(w, run, n);
    }
  }

  /** A poll that could not read the cursor delivers nothing and stores the newest id it sees. */
  lemma FailedReadRebases(w: World, run: seq<Poll>, r: nat)
    requires w.Growing() && w.Ordered() && IsRun(w, run)
    requires r < |run| && !run[r].round.read
    ensures DeliveredBefore(run, r + 1) == DeliveredBefore(run, r)
    ensures var first := CallsBefore(run, r);
            CursorAt(run, r + 1) ==
            if w.Fails(first) || !run[r].round.saved || Newest(w, first) == "" then CursorAt(run, r) else Newest(w, first)
  {
    hide World.Growing, World.Ordered, IsRun, PollResult, Newest;
    var p := run[r];
    FollowsAt(w, run, r);
    BaselineReadsNewest(w, CallsBefore(run, r), 1000, p.pages, p.calls, p.out, p.events, p.next);
  }

  lemma CrossesOnce(w: World, run: seq<Poll>, c: nat, r: nat, i: nat)
    requires w.Growing() && w.Ordered() && IsRun(w, run) && Crosses(w, run, c, i) && Crosses(w, run, r, i)
    ensures c == r
  {
    hide World.Growing, World.Ordered, IsRun;
    if c < r {
      CursorIsMonotone(w, run, c + 1, r);
    } else if c > r {
      CursorIsMonotone(w, run, r + 1, c);
    }
  }

  /** A failed read in an otherwise undisturbed run: a due event survives it exactly when the poll
      does not move the cursor past it, from the stored one to the new baseline. */
  lemma FailedReadLoses(w: World, run: seq<Poll>, r: nat, i: nat)
    requires w.Growing() && w.Ordered() && IsRun(w, run) && CursorAt(run, |run|) != ""
    requires r < |run| && !run[r].round.read && AllSaved(run)
    requires forall q: nat :: q < |run| && q != r ==> run[q].round.read && run[q].out != Capped
    requires Due(w, w.idValue(BaselineAt(run, |run|)), ValueAt(w, run, |run|), i)
    ensures ToOperation(w.history[i]) in DeliveredBefore(run, |run|) <==> !Crosses(w, run, r, i)
  {
    hide World.Growing, World.Ordered, IsRun, HandsOn, Due, Crosses;
    var c := EachEventDecided(w, run, i);
    CrossesMeans(w, run, c, i);
    assert forall q: nat :: q < |run| ==> run[q] in run;
    if Crosses(w, run, r, i) {
      CrossesOnce(w, run, c, r, i);
    }
  }

  /** Without a failed read and a cut-off scan nothing is lost, whatever else fails. */
  lemma ReadRunLosesNothing(w: World, run: seq<Poll>, i: nat)
    requires w.Growing() && w.Ordered() && IsRun(w, run) && CursorAt(run, |run|) != ""
    requires forall p :: p in run ==> p.round.read && p.out != Capped
    requires Due(w, w.idValue(BaselineAt(run, |run|)), ValueAt(w, run, |run|), i)
    ensures ToOperation(w.history[i]) in DeliveredBefore(run, |run|)
  {
    var r := EachEventDecided(w, run, i);
    assert run[r] in run;
  }

  lemma {:induction false} SameBefore(run: seq<Poll>, p: Poll, r: nat)
    requires r <= |run|
    ensures CursorAt(run + [p], r) == CursorAt(run, r) && CallsBefore(run + [p], r) == CallsBefore(run, r)
    ensures DeliveredBefore(run + [p], r) == DeliveredBefore(run, r)
  {
    if r > 0 {
      SameBefore(run, p, r - 1);
    }
  }

  lemma RunMore(w: World, run: seq<Poll>, p: Poll)
    requires IsRun(w, run) && Polled(w, CallsBefore(run, |run|), p)
    requires p.fromID == if p.round.read then CursorAt(run, |run|) else ""
    ensures IsRun(w, run + [p])
    ensures var n := |run|;
            && CallsBefore(run + [p], n + 1) == CallsBefore(run, n) + p.calls
            && DeliveredBefore(run + [p], n + 1) == DeliveredBefore(run, n) + p.Handed()
            && CursorAt(run + [p], n + 1) == p.CursorAfter(CursorAt(run, n))
  {
    var more := run + [p];
    SameBefore(run, p, |run|);
    forall r: nat | r < |more|
      ensures Follows(w, more, r)
    {
      SameBefore(run, p, r);
      if r < |run| {
        assert Follows(w, run, r) && more[r] == run[r];
      }
    }
  }

  lemma NoPollsYet(w: World)
    ensures IsRun(w, []) && CallsBefore([], 0) == 0 && DeliveredBefore([], 0) == [] && CursorAt([], 0) == ""
  {
  }

  /** A run of these rounds after which so much was delivered and this cursor is stored. */
  ghost predicate Yields(w: World, rounds: seq<Round>, run: seq<Poll>, delivered: seq<Operation>, cursor: string) {
    && |run| == |rounds| && (forall r :: 0 <= r < |run| ==> run[r].round == rounds[r]) && IsRun(w, run)
    && delivered == DeliveredBefore(run, |run|) && cursor == CursorAt(run, |run|)
  }

  /** The repeated `pollAccount`: a poll without a cursor only sets the baseline, another one hands
      its events on and then stores the cursor. */
  method PollRepeatedly(w: World, rounds: seq<Round>) returns (delivered: seq<Operation>, cursor: string)
    ensures exists run :: Yields(w, rounds, run, delivered, cursor) && (w.Growing() && w.Ordered() ==> RunHolds(w, run))
  {
    hide *;
    delivered, cursor := [], "";
    ghost var run: seq<Poll> := [];
    var call := 0;
    NoPollsYet(w);
    for r := 0 to |rounds|
      invariant |run| == r && (forall q :: 0 <= q < r ==> run[q].round == rounds[q]) && IsRun(w, run)
      invariant call == CallsBefore(run, r) && delivered == DeliveredBefore(run, r) && cursor == CursorAt(run, r)
    {
      var fromID := "";
      if rounds[r].read {
        fromID := cursor;
      }
      var events, next, out, calls := RecentOperations(w, call, fromID, 1000);
      ghost var pages :| PollResult(w, call, fromID, 1000, pages, calls, out, events, next);
      ghost var p := Poll(rounds[r], fromID, pages, events, next, out, calls);
      PollMeans(w, call, p, cursor);
      RunMore(w, run, p);
      var ok := out != Failed;
      if ok && fromID == "" {
        if next != "" && rounds[r].saved {
          cursor := next;
        }
      } else if ok && events != [] {
        delivered := delivered + events;
        if next != "" && next != fromID && rounds[r].saved {
          cursor := next;
        }
      }
      call, run := call + calls, run + [p];
    }
    if w.Growing() && w.Ordered() {
      EveryRunHolds(w, run);
    }
    RunYields(w, rounds, run, delivered, cursor);
  }

  lemma RunYields(w: World, rounds: seq<Round>, run: seq<Poll>, delivered: seq<Operation>, cursor: string)
    requires |run| == |rounds| && (forall r :: 0 <= r < |run| ==> run[r].round == rounds[r]) && IsRun(w, run)
    requires delivered == DeliveredBefore(run, |run|) && cursor == CursorAt(run, |run|)
    ensures Yields(w, rounds, run, delivered, cursor)
  {
  }

  lemma PollMeans(w: World, first: nat, p: Poll, stored: string)
    requires PollResult(w, first, p.fromID, 1000, p.pages, p.calls, p.out, p.events, p.next)
    requires p.fromID == "" || p.fromID == stored
    ensures Polled(w, first, p)
    ensures p.Handed() == if p.out == Failed || p.fromID == "" then [] else p.events
    ensures p.CursorAfter(stored) ==
            (if p.out != Failed && p.round.saved && p.next != "" && (p.fromID == "" || (p.events != [] && p.next != p.fromID))
             then p.next else stored)
  {
  }

  // ----- a run that loses an event -----

  function SampleEvent(v: int): RawEvent {
    RawEvent(FormatInt(v), 1, "f", "p", "name", 0, 0)
  }

  /** Two events, the second one new at the second request; the cursor cannot be read for the second poll. */
  function SampleWorld(): World {
    World([SampleEvent(1), SampleEvent(2)], [Behavior(1, false, 1000, false), Behavior(2, false, 1000, false)],
          ParseInt, FormatInt)
  }

  lemma SampleIsFair()
    ensures SampleWorld().Growing() && SampleWorld().Ordered()
    ensures Due(SampleWorld(), 1, 2, 1) && !SampleWorld().Fails(0) && !SampleWorld().Fails(1)
    ensures Newest(SampleWorld(), 0) == FormatInt(1) && Newest(SampleWorld(), 1) == FormatInt(2)
    ensures FormatInt(1) != "" && FormatInt(2) != "" && ParseInt(FormatInt(1)) == 1 && ParseInt(FormatInt(2)) == 2
  {
    DecimalReadsIds();
    var w := SampleWorld();
    assert w.history[0] == SampleEvent(1) && w.history[1] == SampleEvent(2);
    assert w.Visible(0) == 1 && w.Visible(1) == 2;
  }

  /** One failed read of the cursor loses an event: the second one is above the baseline and at or
      below the stored cursor, and was not delivered. */
  method FailedReadLosesEvent() returns (delivered: seq<Operation>, cursor: string)
    ensures delivered == [] && cursor == FormatInt(2) && Due(SampleWorld(), 1, 2, 1)
    ensures exists run ::
              && Yields(SampleWorld(), [Round(true, true), Round(false, true)], run, delivered, cursor)
              && BaselineAt(run, |run|) == FormatInt(1)
  {
    hide *;
    delivered, cursor := PollRepeatedly(SampleWorld(), [Round(true, true), Round(false, true)]);
    ghost var run :| Yields(SampleWorld(), [Round(true, true), Round(false, true)], run, delivered, cursor);
    SampleRun(run, delivered, cursor);
  }

  lemma SampleRun(run: seq<Poll>, delivered: seq<Operation>, cursor: string)
    requires Yields(SampleWorld(), [Round(true, true), Round(false, true)], run, delivered, cursor)
    ensures |run| == 2 && delivered == [] && cursor == FormatInt(2) && BaselineAt(run, 2) == FormatInt(1)
    ensures Due(SampleWorld(), 1, 2, 1)
  {
    hide SampleWorld, PollResult, Newest, World.Growing, World.Ordered, Due, FormatInt, ParseInt;
    SampleIsFair();
    var w := SampleWorld();
    assert run[0].round == Round(true, true) && run[1].round == Round(false, true);
    assert Follows(w, run, 0) && Follows(w, run, 1);
    BaselineReadsNewest(w, 0, 1000, run[0].pages, run[0].calls, run[0].out, run[0].events, run[0].next);
    BaselineReadsNewest(w, 1, 1000, run[1].pages, run[1].calls, run[1].out, run[1].events, run[1].next);
    assert CallsBefore(run, 1) == 1;
    assert CursorAt(run, 1) == FormatInt(1) && BaselineAt(run, 1) == FormatInt(1);
    assert DeliveredBefore(run, 1) == [];
  }
}
