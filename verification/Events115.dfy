/** drivers/115Cloud/events.go: polling an event log with a cursor while the log grows,
    and the poller of internal/eventmonitor/service.go that stores the cursor. */
module Events115 {
  import opened Seqs
  import opened Text
  import opened Wrappers

  datatype Kind = Upload | Create | Copy | Delete | Move | Rename

  /** `id`, `fileID` and `parentID` stand for the trimmed texts. */
  datatype RawEvent = RawEvent(id: string, typ: int, fileID: string, parentID: string,
                               fileName: string, fileSize: int, updateTime: int)

  datatype Operation = Operation(id: string, kind: Kind, fileID: string, parentID: string,
                                 fileName: string, fileSize: int, isDir: bool, time: int)

  function MapBehaviorType(t: int): Option<Kind> {
    if t == 1 || t == 2 then Some(Upload)
    else if t == 14 || t == 17 then Some(Create)
    else if t == 18 || t == 23 then Some(Copy)
    else if t == 22 then Some(Delete)
    else if t == 5 || t == 6 then Some(Move)
    else if t == 20 || t == 24 then Some(Rename)
    else None
  }

  predicate IsFolderBehavior(t: int) { t == 17 || t == 18 || t == 20 }

  /** The type codes of each kind of operation, as the service numbers them. */
  function CodesOf(kind: Kind): set<int> {
    match kind
    case Upload => {1, 2}
    case Create => {14, 17}
    case Copy => {18, 23}
    case Delete => {22}
    case Move => {5, 6}
    case Rename => {20, 24}
  }

  lemma KindIsByCode(t: int)
    ensures forall kind :: MapBehaviorType(t) == Some(kind) <==> t in CodesOf(kind)
    ensures IsFolderBehavior(t) <==> t in {17, 18, 20}
  {
  }

  /** What the cursor needs of the reading and writing of ids. */
  ghost predicate ReadsIds(value: string -> int, text: int -> string) {
    && value("") == 0
    && (forall id :: MIN_INT64 <= value(id) <= MAX_INT64)
    && (forall v :: MIN_INT64 <= v <= MAX_INT64 ==> text(v) != "" && value(text(v)) == v)
  }

  /** `eventIDValue` and the cursor's `strconv.FormatInt`. */
  lemma DecimalReadsIds()
    ensures ReadsIds(ParseInt, FormatInt)
  {
    forall v | MIN_INT64 <= v <= MAX_INT64
      ensures FormatInt(v) != "" && ParseInt(FormatInt(v)) == v
    {
      FormatIsTrimmed(v);
      ParseFormat(v);
    }
  }

  // ----- the remote log -----

  /** How the service meets one request: how many of the events exist by then, whether the
      request fails, how long a page it gives, and whether it announces a further page
      although there is none. */
  datatype Behavior = Behavior(visible: nat, fails: bool, cut: nat, eager: bool)

  /** The log in order of occurrence, the behaviour at each request of a run (requests after the
      last one fail), and how ids are read as and written from numbers. */
  datatype World = World(history: seq<RawEvent>, script: seq<Behavior>, idValue: string -> int, idText: int -> string)
  {
    function At(call: nat): Behavior {
      if call < |script| then script[call] else Behavior(0, true, 0, false)
    }

    predicate Fails(call: nat) { At(call).fails }

    function Visible(call: nat): (n: nat)
      ensures n <= |history|
    {
      if At(call).visible < |history| then At(call).visible else |history|
    }

    function PageLength(call: nat, offset: nat, limit: nat): nat {
      var rest := Visible(call) - offset;
      if rest <= 0 || limit == 0 then 0
      else
        var most := if limit < rest then limit else rest;
        var cut := At(call).cut;
        if cut == 0 then 1 else if cut < most then cut else most
    }

    /** Newest first, starting `offset` entries below the newest. */
    function Items(call: nat, offset: nat, limit: nat): (items: seq<RawEvent>)
      ensures |items| == PageLength(call, offset, limit) <= limit
    {
      var n := Visible(call);
      seq(PageLength(call, offset, limit),
          j requires 0 <= j < PageLength(call, offset, limit) => history[n - offset - 1 - j])
    }

    /** The `next_page` flag of a page that ends `end` entries below the newest. */
    predicate NextPage(call: nat, end: nat) {
      end < Visible(call) || At(call).eager
    }

    /** Events are only ever added, at the new end. */
    ghost predicate Growing() {
      forall i, j :: 0 <= i <= j < |script| ==> Visible(i) <= Visible(j)
    }

    /** Ids increase with time: the log is strictly descending when read newest first. */
    ghost predicate Ordered() {
      ReadsIds(idValue, idText) &&
      forall i, j :: 0 <= i < j < |history| ==> idValue(history[i].id) < idValue(history[j].id)
    }
  }

  // ----- what a scan over pages delivers -----

  predicate Wanted(w: World, e: RawEvent, from: int) {
    && !(from > 0 && w.idValue(e.id) <= from)
    && MapBehaviorType(e.typ).Some?
    && e.fileID != ""
    && e.id != ""
  }

  function ToOperation(e: RawEvent): Operation
    requires MapBehaviorType(e.typ).Some?
  {
    Operation(e.id, MapBehaviorType(e.typ).value, e.fileID, e.parentID,
              e.fileName, e.fileSize, IsFolderBehavior(e.typ), e.updateTime)
  }

  function Ids(ops: seq<Operation>): set<string> {
    if ops == [] then {} else Ids(ops[..|ops| - 1]) + {ops[|ops| - 1].id}
  }

  lemma {:induction false} IdsMeaning(ops: seq<Operation>, id: string)
    ensures id in Ids(ops) <==> exists k :: 0 <= k < |ops| && ops[k].id == id
  {
    if ops != [] {
      var init := ops[..|ops| - 1];
      IdsMeaning(init, id);
      assert forall k :: 0 <= k < |init| ==> init[k] == ops[k];
    }
  }

  ghost predicate DistinctIds(ops: seq<Operation>) {
    forall j, k :: 0 <= j < k < |ops| ==> ops[j].id != ops[k].id
  }

  /** The wanted events of a scan, first occurrence of each id, in scan order. */
  ghost function Collect(w: World, scanned: seq<RawEvent>, from: int): seq<Operation> {
    if scanned == [] then []
    else
      var before := Collect(w, scanned[..|scanned| - 1], from);
      var e := scanned[|scanned| - 1];
      if Wanted(w, e, from) && e.id !in Ids(before) then before + [ToOperation(e)] else before
  }

  lemma IdsSnoc(ops: seq<Operation>, op: Operation)
    ensures Ids(ops + [op]) == Ids(ops) + {op.id}
  {
    assert (ops + [op])[..|ops|] == ops;
  }

  lemma {:induction false} CollectDistinct(w: World, scanned: seq<RawEvent>, from: int)
    ensures DistinctIds(Collect(w, scanned, from))
  {
    if scanned != [] {
      var init, last := scanned[..|scanned| - 1], scanned[|scanned| - 1];
      CollectDistinct(w, init, from);
      IdsMeaning(Collect(w, init, from), last.id);
    }
  }

  lemma {:induction false} CollectSound(w: World, scanned: seq<RawEvent>, from: int, op: Operation)
    returns (e: RawEvent)
    requires op in Collect(w, scanned, from)
    ensures e in scanned && Wanted(w, e, from) && ToOperation(e) == op
  {
    var init, last := scanned[..|scanned| - 1], scanned[|scanned| - 1];
    assert scanned == init + [last];
    if op in Collect(w, init, from) {
      e := CollectSound(w, init, from, op);
    } else {
      e := last;
    }
  }

  lemma {:induction false} CollectComplete(w: World, scanned: seq<RawEvent>, from: int, e: RawEvent)
    returns (op: Operation)
    requires e in scanned && Wanted(w, e, from)
    ensures op in Collect(w, scanned, from) && op.id == e.id
  {
    var init, last := scanned[..|scanned| - 1], scanned[|scanned| - 1];
    var before := Collect(w, init, from);
    assert scanned == init + [last];
    if e in init {
      op := CollectComplete(w, init, from, e);
    } else {
      IdsMeaning(before, e.id);
      if k :| 0 <= k < |before| && before[k].id == e.id {
        op := before[k];
      } else {
        op := ToOperation(e);
      }
    }
  }

  ghost function MaxValue(w: World, scanned: seq<RawEvent>): int {
    if scanned == [] then 0
    else
      var before := MaxValue(w, scanned[..|scanned| - 1]);
      var v := w.idValue(scanned[|scanned| - 1].id);
      if v > before then v else before
  }

  ghost function Flatten(pages: seq<seq<RawEvent>>): seq<RawEvent> {
    if pages == [] then [] else Flatten(pages[..|pages| - 1]) + pages[|pages| - 1]
  }

  /** The non-empty pages a scan received: each at the offset its predecessors add up to. */
  ghost predicate Scan(w: World, first: nat, limit: nat, pages: seq<seq<RawEvent>>) {
    pages == [] ||
    var last := |pages| - 1;
    && Scan(w, first, limit, pages[..last])
    && !w.Fails(first + last)
    && pages[last] == w.Items(first + last, |Flatten(pages[..last])|, limit)
    && pages[last] != []
  }

  const SCAN_CAP := 10000

  function PageLimit(limit: int): (n: nat)
    ensures 0 < n <= 1000
  {
    if limit <= 0 || limit > 1000 then 1000 else limit
  }

  /** Some event of the page is at or below the cursor. */
  ghost predicate HasOld(w: World, page: seq<RawEvent>, from: int) {
    page != [] && (w.idValue(page[|page| - 1].id) <= from || HasOld(w, page[..|page| - 1], from))
  }

  function LastOf(pages: seq<seq<RawEvent>>): seq<RawEvent> {
    if pages == [] then [] else pages[|pages| - 1]
  }

  /** The scan has come as far down the log as it needs to: its last page reaches the cursor,
      or the log had nothing further at request `call`. */
  ghost predicate Reached(w: World, call: nat, from: int, scanned: nat, last: seq<RawEvent>) {
    (from > 0 && HasOld(w, last, from)) || w.Visible(call) <= scanned
  }

  datatype Outcome = Failed | Complete | Capped

  /** What a scan is: its pages, and why it ended at request `call`. */
  ghost predicate ScanResult(w: World, first: nat, limit: nat, from: int, pages: seq<seq<RawEvent>>, call: nat, out: Outcome) {
    && Scan(w, first, limit, pages)
    && first <= call
    && first + |pages| - 1 <= call <= first + |pages|
    && (out == Failed <==> w.Fails(call))
    && |Flatten(pages)| < SCAN_CAP + limit
    && (out == Complete && (from != 0 || pages == []) ==> Reached(w, call, from, |Flatten(pages)|, LastOf(pages)))
    && (from == 0 ==> call == first)
    && (out == Capped ==> SCAN_CAP <= |Flatten(pages)| && from != 0 && (from > 0 ==> !HasOld(w, LastOf(pages), from)))
  }

  /** What a poll of `calls` requests from request `first` on returns. */
  ghost predicate PollResult(w: World, first: nat, fromID: string, limit: int, pages: seq<seq<RawEvent>>, calls: nat,
                             out: Outcome, events: seq<Operation>, next: string) {
    var from := w.idValue(fromID);
    && calls > 0 && ScanResult(w, first, PageLimit(limit), from, pages, first + calls - 1, out)
    && if out == Failed then events == [] && next == fromID
       else
         && events == (if from == 0 then [] else Collect(w, Flatten(pages), from))
         && next == (if MaxValue(w, Flatten(pages)) > from then w.idText(MaxValue(w, Flatten(pages))) else fromID)
  }

  lemma ScanSnoc(w: World, scanned: seq<RawEvent>, page: seq<RawEvent>, e: RawEvent, from: int)
    ensures Collect(w, scanned + [e], from) ==
            if Wanted(w, e, from) && e.id !in Ids(Collect(w, scanned, from)) then Collect(w, scanned, from) + [ToOperation(e)]
            else Collect(w, scanned, from)
    ensures MaxValue(w, scanned + [e]) ==
            if w.idValue(e.id) > MaxValue(w, scanned) then w.idValue(e.id) else MaxValue(w, scanned)
    ensures HasOld(w, page + [e], from) <==> w.idValue(e.id) <= from || HasOld(w, page, from)
  {
    DropLast(scanned, e);
    DropLast(page, e);
  }

  /** The loop over the items of one page, after `before` was scanned. */
  method ScanPage(w: World, items: seq<RawEvent>, fromVal: int, events0: seq<Operation>, seen0: set<string>,
                  maxID0: int, ghost before: seq<RawEvent>)
    returns (events: seq<Operation>, seen: set<string>, maxID: int, reachedFrom: bool)
    requires fromVal != 0 ==> events0 == Collect(w, before, fromVal)
    requires seen0 == Ids(events0)
    requires maxID0 == MaxValue(w, before)
    ensures events == (if fromVal == 0 then events0 else Collect(w, before + items, fromVal))
    ensures seen == Ids(events)
    ensures maxID == MaxValue(w, before + items)
    ensures reachedFrom <==> fromVal > 0 && HasOld(w, items, fromVal)
  {
    var baseline := fromVal == 0;
    events, seen, maxID, reachedFrom := events0, seen0, maxID0, false;
    ghost var scanned, page := before, [];
    assert items[..0] == [];
    for i := 0 to |items|
      invariant page == items[..i] && scanned == before + page
      invariant maxID == MaxValue(w, scanned)
      invariant events == (if baseline then events0 else Collect(w, scanned, fromVal))
      invariant seen == Ids(events)
      invariant reachedFrom <==> fromVal > 0 && HasOld(w, page, fromVal)
    {
      var it := items[i];
      ScanSnoc(w, scanned, page, it, fromVal);
      AppendAssoc(before, page, [it]);
      TakeNext(items, i);
      scanned, page := scanned + [it], page + [it];
      var idv := w.idValue(it.id);
      if idv > maxID {
        maxID := idv;
      }
      if baseline {
        continue;
      }
      if fromVal > 0 && idv <= fromVal {
        reachedFrom := true;
        continue;
      }
      var typ := MapBehaviorType(it.typ);
      if typ == None {
        continue;
      }
      var fid := it.fileID;
      if fid == "" {
        continue;
      }
      var eid := it.id;
      if eid == "" || eid in seen {
        continue;
      }
      var op := Operation(eid, typ.value, fid, it.parentID, it.fileName, it.fileSize,
                          IsFolderBehavior(it.typ), it.updateTime);
      IdsSnoc(events, op);
      seen := seen + {eid};
      events := events + [op];
    }
    TakeAll(items);
  }

  lemma PageSnoc(w: World, first: nat, limit: nat, pages: seq<seq<RawEvent>>, page: seq<RawEvent>)
    requires Scan(w, first, limit, pages) && !w.Fails(first + |pages|)
    requires page == w.Items(first + |pages|, |Flatten(pages)|, limit) && page != []
    ensures Flatten(pages + [page]) == Flatten(pages) + page
    ensures Scan(w, first, limit, pages + [page])
  {
    DropLast(pages, page);
  }

  lemma NothingScanned(w: World, first: nat, limit: nat, from: int)
    ensures Scan(w, first, limit, []) && Flatten([]) == [] && Collect(w, [], from) == []
    ensures MaxValue(w, []) == 0 && Ids([]) == {}
  {
  }

  lemma PageGoesDown(w: World, call: nat, offset: nat, limit: nat)
    requires limit > 0
    ensures |w.Items(call, offset, limit)| <= limit
    ensures w.Items(call, offset, limit) == [] ==> w.Visible(call) <= offset
  {
  }

  lemma ScanEnds(w: World, first: nat, limit: nat, from: int, pages: seq<seq<RawEvent>>, scanned: nat, call: nat,
                 out: Outcome)
    requires Scan(w, first, limit, pages) && scanned == |Flatten(pages)| < SCAN_CAP + limit
    requires first <= call && first + |pages| - 1 <= call <= first + |pages| && (from == 0 ==> call == first)
    requires out == Failed <==> w.Fails(call)
    requires out == Complete && (from != 0 || pages == []) ==>
               (from > 0 && HasOld(w, LastOf(pages), from)) || w.Visible(call) <= scanned
    requires out == Capped ==> SCAN_CAP <= scanned && from != 0 && (from > 0 ==> !HasOld(w, LastOf(pages), from))
    ensures ScanResult(w, first, limit, from, pages, call, out)
  {
  }

  /** The loop of `RecentOperations` over pages; `first` numbers its first request. The ghost
      result names the pages it saw. */
  method ScanPages(w: World, first: nat, fromVal: int, size: nat)
    returns (events: seq<Operation>, maxID: int, calls: nat, out: Outcome, ghost pages: seq<seq<RawEvent>>)
    requires size > 0
    ensures calls > 0 && ScanResult(w, first, size, fromVal, pages, first + calls - 1, out)
    ensures events == (if fromVal == 0 then [] else Collect(w, Flatten(pages), fromVal))
    ensures maxID == MaxValue(w, Flatten(pages))
  {
    hide ScanResult, Scan, Flatten, Collect, MaxValue, Ids, HasOld, Reached, World.Visible, World.Items, World.At;
    NothingScanned(w, first, size, fromVal);
    events, maxID, out := [], 0, Complete;
    var seen: set<string> := {};
    var offset: nat := 0;
    var call := first;
    ghost var scanned: seq<RawEvent> := [];
    pages := [];
    while true
      invariant Scan(w, first, size, pages) && call == first + |pages|
      invariant scanned == Flatten(pages)
      invariant offset == |scanned| < SCAN_CAP
      invariant fromVal == 0 ==> pages == []
      invariant maxID == MaxValue(w, scanned)
      invariant events == (if fromVal == 0 then [] else Collect(w, scanned, fromVal))
      invariant seen == Ids(events)
      invariant out == Complete
      decreases SCAN_CAP - offset
    {
      if w.Fails(call) {
        out := Failed;
        break;
      }
      var items := w.Items(call, offset, size);
      PageGoesDown(w, call, offset, size);
      if items == [] {
        break;
      }
      PageSnoc(w, first, size, pages, items);
      var reachedFrom;
      events, seen, maxID, reachedFrom := ScanPage(w, items, fromVal, events, seen, maxID, scanned);
      offset := offset + |items|;
      pages, scanned := pages + [items], scanned + items;
      if fromVal == 0 || reachedFrom || !w.NextPage(call, offset) {
        break;
      }
      if offset >= SCAN_CAP {
        out := Capped;
        break;
      }
      call := call + 1;
    }
    calls := call + 1 - first;
    ScanEnds(w, first, size, fromVal, pages, offset, call, out);
  }

  /** `RecentOperations`. */
  method RecentOperations(w: World, first: nat, fromID: string, limit: int)
    returns (events: seq<Operation>, next: string, out: Outcome, calls: nat)
    ensures exists pages :: PollResult(w, first, fromID, limit, pages, calls, out, events, next)
  {
    var fromVal := w.idValue(fromID);
    var maxID;
    ghost var pages;
    events, maxID, calls, out, pages := ScanPages(w, first, fromVal, PageLimit(limit));
    next := fromID;
    if out == Failed {
      events := [];
    } else if maxID > fromVal {
      next := w.idText(maxID);
    }
    assert PollResult(w, first, fromID, limit, pages, calls, out, events, next);
  }

  // ----- nothing is lost, nothing is delivered twice -----

  /** Whatever the order of the ids: the greatest value seen is that of some event. */
  lemma {:induction false} MaxValueMeaning(w: World, scanned: seq<RawEvent>)
    requires ReadsIds(w.idValue, w.idText)
    ensures 0 <= MaxValue(w, scanned) <= MAX_INT64
    ensures forall e :: e in scanned ==> w.idValue(e.id) <= MaxValue(w, scanned)
    ensures MaxValue(w, scanned) > 0 ==> exists e :: e in scanned && w.idValue(e.id) == MaxValue(w, scanned)
  {
    if scanned != [] {
      var init, last := scanned[..|scanned| - 1], scanned[|scanned| - 1];
      MaxValueMeaning(w, init);
      assert scanned == init + [last];
    }
  }

  /** `e` is one of the entries [lo, hi) of the log. */
  ghost predicate Within(w: World, lo: int, hi: int, e: RawEvent) {
    exists i :: lo <= i < hi && 0 <= i < |w.history| && w.history[i] == e
  }

  lemma WithinWider(w: World, lo: int, hi: int, lo': int, hi': int, e: RawEvent)
    requires Within(w, lo, hi, e) && lo' <= lo && hi <= hi'
    ensures Within(w, lo', hi', e)
  {
    var i :| lo <= i < hi && 0 <= i < |w.history| && w.history[i] == e;
    assert lo' <= i < hi';
  }

  /** One page covers the entries [lower, upper) of the log. */
  lemma PageCovers(w: World, call: nat, offset: nat, limit: nat, lower: nat, upper: nat)
    requires upper == w.Visible(call) - offset && lower == upper - w.PageLength(call, offset, limit)
    ensures var page := w.Items(call, offset, limit);
            && (forall i :: lower <= i < upper ==> w.history[i] in page)
            && (forall e :: e in page ==> Within(w, lower, upper, e))
            && (page != [] ==> page[|page| - 1] == w.history[lower])
  {
    var page := w.Items(call, offset, limit);
    forall i | lower <= i < upper
      ensures w.history[i] in page
    {
      assert page[upper - 1 - i] == w.history[i];
    }
    forall e | e in page
      ensures Within(w, lower, upper, e)
    {
      var j :| 0 <= j < |page| && page[j] == e;
      assert w.history[upper - 1 - j] == e;
    }
  }

  /** The events `scanned` include the entries [lo, hi) and none beyond `hi`. */
  ghost predicate Covers(w: World, lo: nat, hi: nat, scanned: seq<RawEvent>) {
    && lo <= hi <= |w.history|
    && (forall i :: lo <= i < hi ==> w.history[i] in scanned)
    && (forall e :: e in scanned ==> Within(w, 0, hi, e))
  }

  lemma CoversJoin(w: World, lo0: nat, hi0: nat, before: seq<RawEvent>, lo: nat, upper: nat, page: seq<RawEvent>)
    requires Covers(w, lo0, hi0, before) && lo0 <= upper
    requires lo <= upper <= |w.history| && forall i :: lo <= i < upper ==> w.history[i] in page
    requires forall e :: e in page ==> Within(w, lo, upper, e)
    ensures Covers(w, lo, if hi0 < upper then upper else hi0, before + page)
  {
    var hi := if hi0 < upper then upper else hi0;
    forall e | e in before + page
      ensures Within(w, 0, hi, e)
    {
      if e in before {
        WithinWider(w, 0, hi0, 0, hi, e);
      } else {
        WithinWider(w, lo, upper, 0, hi, e);
      }
    }
  }

  /** The last page of a scan covers [lo, upper). */
  lemma LastPageCovers(w: World, first: nat, limit: nat, pages: seq<seq<RawEvent>>) returns (lo: nat, upper: nat)
    requires Scan(w, first, limit, pages) && pages != []
    ensures first + |pages| <= |w.script|
    ensures lo + |Flatten(pages)| == w.Visible(first + |pages| - 1)
    ensures lo < upper <= |w.history| && upper + |Flatten(pages[..|pages| - 1])| == w.Visible(first + |pages| - 1)
    ensures forall i :: lo <= i < upper ==> w.history[i] in LastOf(pages)
    ensures forall e :: e in LastOf(pages) ==> Within(w, lo, upper, e)
    ensures LastOf(pages)[|LastOf(pages)| - 1] == w.history[lo]
  {
    var last := |pages| - 1;
    var before, page := Flatten(pages[..last]), pages[last];
    upper := w.Visible(first + last) - |before|;
    lo := upper - |page|;
    PageCovers(w, first + last, |before|, limit, lo, upper);
  }

  /** The pages of one scan cover a contiguous stretch of the log that ends where the newest
      page began, although a page may lie wholly above the one before it. */
  lemma {:induction false} Coverage(w: World, first: nat, limit: nat, pages: seq<seq<RawEvent>>)
    returns (lo: nat, hi: nat)
    requires w.Growing() && Scan(w, first, limit, pages) && pages != []
    ensures first + |pages| <= |w.script|
    ensures lo + |Flatten(pages)| == w.Visible(first + |pages| - 1)
    ensures lo < hi <= w.Visible(first + |pages| - 1) && Covers(w, lo, hi, Flatten(pages))
    ensures forall e :: e in LastOf(pages) ==> Within(w, lo, |w.history|, e)
    ensures LastOf(pages)[|LastOf(pages)| - 1] == w.history[lo]
  {
    var last := |pages| - 1;
    var init := pages[..last];
    var upper;
    lo, upper := LastPageCovers(w, first, limit, pages);
    forall e | e in LastOf(pages)
      ensures Within(w, lo, |w.history|, e)
    {
      WithinWider(w, lo, upper, lo, |w.history|, e);
    }
    var lo0: nat, hi0: nat := 0, 0;
    if last == 0 {
      assert Covers(w, 0, 0, Flatten(init));
    } else {
      lo0, hi0 := Coverage(w, first, limit, init);
      VisibleGrows(w, first + last - 1, first + last);
    }
    CoversJoin(w, lo0, hi0, Flatten(init), lo, upper, LastOf(pages));
    hi := if hi0 < upper then upper else hi0;
  }

  lemma VisibleGrows(w: World, i: nat, j: nat)
    requires w.Growing() && i <= j < |w.script|
    ensures w.Visible(i) <= w.Visible(j)
  {
  }

  lemma OldTail(w: World, from: int, page: seq<RawEvent>, lo: nat)
    requires w.Ordered() && HasOld(w, page, from) && lo <= |w.history|
    requires forall e :: e in page ==> Within(w, lo, |w.history|, e)
    ensures forall i :: 0 <= i < lo ==> w.idValue(w.history[i].id) <= from
    decreases page
  {
    var e := page[|page| - 1];
    if w.idValue(e.id) <= from {
      assert e in page;
      var k :| lo <= k < |w.history| && w.history[k] == e;
    } else {
      var init := page[..|page| - 1];
      assert forall x :: x in init ==> x in page;
      OldTail(w, from, init, lo);
    }
  }

  /** An event that a poll from cursor `from` owes its caller once the cursor is `to`. */
  ghost predicate Due(w: World, from: int, to: int, i: int) {
    0 <= i < |w.history| && Wanted(w, w.history[i], from) && from < w.idValue(w.history[i].id) <= to
  }

  /** Where a scan that was not cut short stopped, everything older is at or below the cursor. */
  lemma OlderIsOld(w: World, first: nat, limit: nat, from: int, pages: seq<seq<RawEvent>>, call: nat, lo: nat)
    requires w.Growing() && w.Ordered() && limit > 0 && from > 0
    requires ScanResult(w, first, limit, from, pages, call, Complete) && pages != []
    requires lo <= |w.history| && lo + |Flatten(pages)| == w.Visible(first + |pages| - 1)
    requires forall e :: e in LastOf(pages) ==> Within(w, lo, |w.history|, e)
    ensures forall i :: 0 <= i < lo ==> w.idValue(w.history[i].id) <= from
  {
    if HasOld(w, LastOf(pages), from) {
      OldTail(w, from, LastOf(pages), lo);
    } else {
      assert w.Visible(first + |pages| - 1) <= w.Visible(call);
    }
  }

  lemma SameIdSameEvent(w: World, i: nat, j: nat)
    requires w.Ordered() && i < |w.history| && j < |w.history|
    requires w.history[i].id == w.history[j].id
    ensures i == j
  {
    assert w.idValue(w.history[i].id) == w.idValue(w.history[j].id);
  }

  lemma NewerIsGreater(w: World, scanned: seq<RawEvent>, hi: nat, i: nat)
    requires w.Ordered() && hi <= |w.history| && i < |w.history| && MaxValue(w, scanned) > 0
    requires forall e :: e in scanned ==> Within(w, 0, hi, e)
    ensures i >= hi ==> MaxValue(w, scanned) < w.idValue(w.history[i].id)
  {
    MaxValueMeaning(w, scanned);
    var e :| e in scanned && w.idValue(e.id) == MaxValue(w, scanned);
    var m :| 0 <= m < hi && m < |w.history| && w.history[m] == e;
  }

  lemma ScannedIndex(w: World, first: nat, fromID: string, limit: int, pages: seq<seq<RawEvent>>, calls: nat,
                     out: Outcome, events: seq<Operation>, next: string, e: RawEvent) returns (i: nat)
    requires w.Growing() && w.Ordered() && PollResult(w, first, fromID, limit, pages, calls, out, events, next)
    requires e in Flatten(pages) && out != Failed
    ensures i < |w.history| && w.history[i] == e
    ensures w.idValue(e.id) <= w.idValue(next)
  {
    var lo, hi := Coverage(w, first, PageLimit(limit), pages);
    i :| 0 <= i < hi && i < |w.history| && w.history[i] == e;
    MaxValueMeaning(w, Flatten(pages));
  }

  /** A poll delivers only events it owes. */
  lemma DeliveredIsDue(w: World, first: nat, fromID: string, limit: int, pages: seq<seq<RawEvent>>, calls: nat,
                       out: Outcome, events: seq<Operation>, next: string, op: Operation) returns (i: nat)
    requires w.Growing() && w.Ordered() && w.idValue(fromID) > 0
    requires PollResult(w, first, fromID, limit, pages, calls, out, events, next)
    requires op in events
    ensures Due(w, w.idValue(fromID), w.idValue(next), i) && op == ToOperation(w.history[i])
  {
    var e := CollectSound(w, Flatten(pages), w.idValue(fromID), op);
    i := ScannedIndex(w, first, fromID, limit, pages, calls, out, events, next, e);
  }

  /** The newest event of a scan bounds the events at or below the returned cursor. */
  lemma DueIsCovered(w: World, first: nat, fromID: string, limit: int, pages: seq<seq<RawEvent>>, calls: nat,
                     out: Outcome, events: seq<Operation>, next: string, i: nat)
    requires w.Growing() && w.Ordered() && w.idValue(fromID) > 0
    requires PollResult(w, first, fromID, limit, pages, calls, out, events, next)
    requires out != Capped
    requires Due(w, w.idValue(fromID), w.idValue(next), i)
    ensures w.history[i] in Flatten(pages)
  {
    hide PollResult, ScanResult, Scan, Flatten, LastOf, HasOld, MaxValue, World.Growing, World.Ordered, Covers, Within,
      Wanted, Due,
      Reached, Collect, PageLimit;
    DueMeansScanned(w, first, fromID, limit, pages, calls, out, events, next, i);
    var scanned, from, size, call := Flatten(pages), w.idValue(fromID), PageLimit(limit), first + calls - 1;
    var lo, hi := Coverage(w, first, size, pages);
    OlderIsOld(w, first, size, from, pages, call, lo);
    CoversMeans(w, lo, hi, scanned);
    NewerIsGreater(w, scanned, hi, i);
  }

  lemma CoversMeans(w: World, lo: nat, hi: nat, scanned: seq<RawEvent>)
    requires Covers(w, lo, hi, scanned)
    ensures hi <= |w.history|
    ensures forall i :: lo <= i < hi ==> w.history[i] in scanned
    ensures forall e :: e in scanned ==> Within(w, 0, hi, e)
  {
  }

  /** The cursor only moves past events when the scan was complete and saw a newer one. */
  lemma DueMeansScanned(w: World, first: nat, fromID: string, limit: int, pages: seq<seq<RawEvent>>, calls: nat,
                        out: Outcome, events: seq<Operation>, next: string, i: nat)
    requires w.Ordered() && w.idValue(fromID) > 0 && out != Capped
    requires PollResult(w, first, fromID, limit, pages, calls, out, events, next)
    requires Due(w, w.idValue(fromID), w.idValue(next), i)
    ensures calls > 0 && ScanResult(w, first, PageLimit(limit), w.idValue(fromID), pages, first + calls - 1, Complete)
    ensures pages != [] && Scan(w, first, PageLimit(limit), pages)
    ensures MaxValue(w, Flatten(pages)) > 0
    ensures 0 <= i < |w.history| && w.idValue(fromID) < w.idValue(w.history[i].id) <= MaxValue(w, Flatten(pages))
  {
    MaxValueMeaning(w, Flatten(pages));
  }

  /** A poll that is not cut short by the scan limit loses no event up to the cursor it returns. */
  lemma NoGap(w: World, first: nat, fromID: string, limit: int, pages: seq<seq<RawEvent>>, calls: nat, out: Outcome,
              events: seq<Operation>, next: string, i: nat)
    requires w.Growing() && w.Ordered() && w.idValue(fromID) > 0
    requires PollResult(w, first, fromID, limit, pages, calls, out, events, next)
    requires out != Capped
    requires Due(w, w.idValue(fromID), w.idValue(next), i)
    ensures ToOperation(w.history[i]) in events
  {
    DueIsCovered(w, first, fromID, limit, pages, calls, out, events, next, i);
    var op := CollectComplete(w, Flatten(pages), w.idValue(fromID), w.history[i]);
    var i' := DeliveredIsDue(w, first, fromID, limit, pages, calls, out, events, next, op);
    SameIdSameEvent(w, i, i');
  }

  lemma PollKeepsCursor(w: World, first: nat, fromID: string, limit: int, pages: seq<seq<RawEvent>>, calls: nat,
                        out: Outcome, events: seq<Operation>, next: string)
    requires PollResult(w, first, fromID, limit, pages, calls, out, events, next)
    requires ReadsIds(w.idValue, w.idText)
    ensures w.idValue(next) >= w.idValue(fromID)
    ensures next == fromID || (w.idValue(next) > w.idValue(fromID) && next == w.idText(w.idValue(next)))
    ensures DistinctIds(events)
  {
    MaxValueMeaning(w, Flatten(pages));
    CollectDistinct(w, Flatten(pages), w.idValue(fromID));
  }

  // ----- the scan limit -----

  lemma NotOld(w: World, page: seq<RawEvent>, from: int, e: RawEvent)
    requires !HasOld(w, page, from) && e in page
    ensures w.idValue(e.id) > from
    decreases page
  {
    var init, last := page[..|page| - 1], page[|page| - 1];
    assert page == init + [last];
    if e in init {
      NotOld(w, init, from, e);
    }
  }

  /** What the first page holds: as many of the newest events as asked for, or 1000, where the service
      does not cut it short. */
  lemma {:induction false} FirstPageIs(w: World, first: nat, limit: int, pages: seq<seq<RawEvent>>)
    requires Scan(w, first, PageLimit(limit), pages) && pages != []
    ensures var asked: nat := if 1 <= limit <= 1000 then limit else 1000;
            pages[0] == w.Items(first, 0, asked) && |pages[0]| <= asked
  {
    if |pages| > 1 {
      FirstPageIs(w, first, limit, pages[..|pages| - 1]);
    } else {
      assert pages[..0] == [] && Flatten([]) == [];
    }
  }

  /** A poll is cut short only when at least 10000 events lie above the cursor. */
  lemma CapNeedsBacklog(w: World, first: nat, fromID: string, limit: int, pages: seq<seq<RawEvent>>, calls: nat,
                        events: seq<Operation>, next: string)
    requires w.Growing() && w.Ordered() && w.idValue(fromID) > 0
    requires PollResult(w, first, fromID, limit, pages, calls, Capped, events, next)
    ensures var n := w.Visible(first + |pages| - 1);
            n >= 10000 && forall i :: n - 10000 <= i < n ==> w.idValue(w.history[i].id) > w.idValue(fromID)
  {
    CappedScan(w, first, fromID, limit, pages, calls, events, next);
    hide PollResult, Scan, HasOld, Flatten, LastOf, World.Growing, World.Ordered, Covers, Within;
    var lo, hi := Coverage(w, first, PageLimit(limit), pages);
    NotOld(w, LastOf(pages), w.idValue(fromID), w.history[lo]);
    NewerIsAbove(w, lo, w.idValue(fromID));
  }

  lemma CappedScan(w: World, first: nat, fromID: string, limit: int, pages: seq<seq<RawEvent>>, calls: nat,
                   events: seq<Operation>, next: string)
    requires PollResult(w, first, fromID, limit, pages, calls, Capped, events, next) && w.idValue(fromID) > 0
    ensures pages != [] && Scan(w, first, PageLimit(limit), pages) && |Flatten(pages)| >= SCAN_CAP
    ensures !HasOld(w, LastOf(pages), w.idValue(fromID)) && |LastOf(pages)| > 0
  {
  }

  lemma NewerIsAbove(w: World, lo: nat, from: int)
    requires w.Ordered() && lo < |w.history| && w.idValue(w.history[lo].id) > from
    ensures forall i :: lo <= i < |w.history| ==> w.idValue(w.history[i].id) > from
  {
  }

  lemma {:induction false} ScanStaysAbove(w: World, first: nat, limit: nat, pages: seq<seq<RawEvent>>, e: RawEvent)
    requires w.Growing() && Scan(w, first, limit, pages) && e in Flatten(pages)
    requires |Flatten(pages)| <= w.Visible(first)
    ensures Within(w, w.Visible(first) - |Flatten(pages)|, |w.history|, e)
  {
    var last := |pages| - 1;
    var before, page := Flatten(pages[..last]), pages[last];
    var base := w.Visible(first) - |Flatten(pages)|;
    if e in before {
      ScanStaysAbove(w, first, limit, pages[..last], e);
      WithinWider(w, base + |page|, |w.history|, base, |w.history|, e);
    } else {
      VisibleGrows(w, first, first + last);
      var upper := w.Visible(first + last) - |before|;
      PageCovers(w, first + last, |before|, limit, upper - |page|, upper);
      WithinWider(w, upper - |page|, upper, base, |w.history|, e);
    }
  }

  /** With 11000 or more events above the cursor, a poll that does not fail skips the oldest of
      them for good: the event is owed but not delivered. */
  lemma BacklogLosesEvents(w: World, first: nat, fromID: string, limit: int, pages: seq<seq<RawEvent>>, calls: nat,
                           out: Outcome, events: seq<Operation>, next: string, i: nat)
    requires w.Growing() && w.Ordered() && w.idValue(fromID) > 0
    requires PollResult(w, first, fromID, limit, pages, calls, out, events, next) && out != Failed
    requires i + 11000 <= w.Visible(first) && Wanted(w, w.history[i], w.idValue(fromID))
    ensures Due(w, w.idValue(fromID), w.idValue(next), i) && ToOperation(w.history[i]) !in events
    ensures out == Capped
  {
    var from, scanned, op := w.idValue(fromID), Flatten(pages), ToOperation(w.history[i]);
    if pages == [] {
      assert false;
    }
    var lo, hi := Coverage(w, first, PageLimit(limit), pages);
    ScannedIsNewer(w, first, PageLimit(limit), pages, i);
    var top := w.history[hi - 1];
    var m := ScannedIndex(w, first, fromID, limit, pages, calls, out, events, next, top);
    assert w.idValue(w.history[i].id) < w.idValue(top.id);
    forall x | x in events
      ensures x != op
    {
      var e := CollectSound(w, scanned, from, x);
    }
    if out != Capped {
      NoGap(w, first, fromID, limit, pages, calls, out, events, next, i);
    }
  }

  lemma ScannedIsNewer(w: World, first: nat, limit: nat, pages: seq<seq<RawEvent>>, i: nat)
    requires w.Growing() && w.Ordered() && Scan(w, first, limit, pages)
    requires i + |Flatten(pages)| < w.Visible(first)
    ensures forall e :: e in Flatten(pages) ==> w.idValue(w.history[i].id) < w.idValue(e.id)
  {
    forall e | e in Flatten(pages)
      ensures w.idValue(w.history[i].id) < w.idValue(e.id)
    {
      ScanStaysAbove(w, first, limit, pages, e);
      var base := w.Visible(first) - |Flatten(pages)|;
      var j :| base <= j < |w.history| && w.history[j] == e;
    }
  }

  // ----- exactly which events a poll returns -----

  /** Page k of a scan shows entry i of the log: a statement about lengths alone. */
  ghost predicate OnPage(w: World, first: nat, pages: seq<seq<RawEvent>>, k: nat, i: int) {
    && k < |pages|
    && w.Visible(first + k) - |Flatten(pages[..k + 1])| <= i < w.Visible(first + k) - |Flatten(pages[..k])|
  }

  ghost predicate Shown(w: World, first: nat, pages: seq<seq<RawEvent>>, i: int) {
    exists k: nat :: OnPage(w, first, pages, k, i)
  }

  lemma OnPageSnoc(w: World, first: nat, pages: seq<seq<RawEvent>>, page: seq<RawEvent>, i: int)
    ensures Shown(w, first, pages + [page], i) <==>
            Shown(w, first, pages, i) || OnPage(w, first, pages + [page], |pages|, i)
  {
    var more := pages + [page];
    assert forall k: nat :: k <= |pages| ==> more[..k] == pages[..k];
    forall k: nat | k < |pages|
      ensures OnPage(w, first, more, k, i) <==> OnPage(w, first, pages, k, i)
    {
      assert more[..k + 1] == pages[..k + 1];
    }
  }

  lemma {:induction false} ShownExactly(w: World, first: nat, limit: nat, pages: seq<seq<RawEvent>>, i: nat)
    requires w.Ordered() && Scan(w, first, limit, pages) && i < |w.history|
    ensures w.history[i] in Flatten(pages) <==> Shown(w, first, pages, i)
  {
    if pages != [] {
      var last := |pages| - 1;
      var init := pages[..last];
      ShownExactly(w, first, limit, init, i);
      assert pages == init + [pages[last]];
      OnPageSnoc(w, first, init, pages[last], i);
      LastPageExactly(w, first, limit, pages, i);
    }
  }

  lemma LastPageExactly(w: World, first: nat, limit: nat, pages: seq<seq<RawEvent>>, i: nat)
    requires w.Ordered() && Scan(w, first, limit, pages) && pages != [] && i < |w.history|
    ensures w.history[i] in LastOf(pages) <==> OnPage(w, first, pages, |pages| - 1, i)
  {
    hide Scan, Flatten, LastOf, World.Ordered, World.Visible;
    var lo, upper := LastPageCovers(w, first, limit, pages);
    assert pages[..|pages|] == pages;
    if w.history[i] in LastOf(pages) {
      var j :| lo <= j < upper && 0 <= j < |w.history| && w.history[j] == w.history[i];
      SameIdSameEvent(w, i, j);
    }
  }

  /** A poll returns exactly the events that are due and on one of its pages; where the scan limit
      did not cut it short, every due event is on a page. */
  lemma ReturnsExactly(w: World, first: nat, fromID: string, limit: int, pages: seq<seq<RawEvent>>, calls: nat,
                       out: Outcome, events: seq<Operation>, next: string, i: nat)
    requires w.Growing() && w.Ordered() && w.idValue(fromID) > 0
    requires PollResult(w, first, fromID, limit, pages, calls, out, events, next) && out != Failed
    requires i < |w.history| && MapBehaviorType(w.history[i].typ).Some?
    ensures ToOperation(w.history[i]) in events <==>
              Due(w, w.idValue(fromID), w.idValue(next), i) && Shown(w, first, pages, i)
    ensures out != Capped && Due(w, w.idValue(fromID), w.idValue(next), i) ==> Shown(w, first, pages, i)
  {
    var from, to, scanned, op := w.idValue(fromID), w.idValue(next), Flatten(pages), ToOperation(w.history[i]);
    ShownExactly(w, first, PageLimit(limit), pages, i);
    if op in events {
      ReturnedIsShown(w, first, fromID, limit, pages, calls, out, events, next, i);
    } else if Due(w, from, to, i) && w.history[i] in scanned {
      ShownIsReturned(w, first, fromID, limit, pages, calls, out, events, next, i);
    }
    if out != Capped && Due(w, from, to, i) {
      DueIsCovered(w, first, fromID, limit, pages, calls, out, events, next, i);
    }
  }

  lemma ReturnedIsShown(w: World, first: nat, fromID: string, limit: int, pages: seq<seq<RawEvent>>, calls: nat,
                        out: Outcome, events: seq<Operation>, next: string, i: nat)
    requires w.Growing() && w.Ordered() && w.idValue(fromID) > 0
    requires PollResult(w, first, fromID, limit, pages, calls, out, events, next) && out != Failed
    requires i < |w.history| && MapBehaviorType(w.history[i].typ).Some? && ToOperation(w.history[i]) in events
    ensures Due(w, w.idValue(fromID), w.idValue(next), i) && w.history[i] in Flatten(pages)
  {
    var op := ToOperation(w.history[i]);
    var e := CollectSound(w, Flatten(pages), w.idValue(fromID), op);
    var j := ScannedIndex(w, first, fromID, limit, pages, calls, out, events, next, e);
    SameIdSameEvent(w, i, j);
  }

  lemma ShownIsReturned(w: World, first: nat, fromID: string, limit: int, pages: seq<seq<RawEvent>>, calls: nat,
                        out: Outcome, events: seq<Operation>, next: string, i: nat)
    requires w.Growing() && w.Ordered() && w.idValue(fromID) > 0
    requires PollResult(w, first, fromID, limit, pages, calls, out, events, next) && out != Failed
    requires Due(w, w.idValue(fromID), w.idValue(next), i) && w.history[i] in Flatten(pages)
    ensures ToOperation(w.history[i]) in events
  {
    var op := CollectComplete(w, Flatten(pages), w.idValue(fromID), w.history[i]);
    var j := DeliveredIsDue(w, first, fromID, limit, pages, calls, out, events, next, op);
    SameIdSameEvent(w, i, j);
  }

  /** The operation of this kind that stems from the event: its own ids, name, size and time. */
  predicate StemsFrom(op: Operation, e: RawEvent) {
    && e.typ in CodesOf(op.kind) && op.isDir == (e.typ in {17, 18, 20})
    && op.id == e.id && op.fileID == e.fileID && op.parentID == e.parentID
    && op.fileName == e.fileName && op.fileSize == e.fileSize && op.time == e.updateTime
  }

  /** What it means that an event is due, in terms of its own fields; its operation stems from it. */
  lemma DueByCode(w: World, from: int, to: int, i: nat)
    requires i < |w.history|
    ensures var e := w.history[i];
            Due(w, from, to, i) <==>
              && (exists kind :: e.typ in CodesOf(kind)) && e.fileID != "" && e.id != ""
              && from < w.idValue(e.id) <= to
    ensures Due(w, from, to, i) ==> StemsFrom(ToOperation(w.history[i]), w.history[i])
  {
    KindIsByCode(w.history[i].typ);
    var kind := MapBehaviorType(w.history[i].typ);
    assert kind.Some? ==> w.history[i].typ in CodesOf(kind.value);
  }

  /** A poll that is not cut short returns, for every kind, each event with a code of that kind, with a
      file id, and with an id between the cursors, as an operation of that kind. */
  lemma EachKindReturned(w: World, first: nat, fromID: string, limit: int, pages: seq<seq<RawEvent>>, calls: nat,
                         out: Outcome, events: seq<Operation>, next: string, i: nat, kind: Kind)
    returns (op: Operation)
    requires w.Growing() && w.Ordered() && w.idValue(fromID) > 0 && i < |w.history|
    requires PollResult(w, first, fromID, limit, pages, calls, out, events, next) && out == Complete
    requires w.history[i].typ in CodesOf(kind) && w.history[i].fileID != "" && w.history[i].id != ""
    requires w.idValue(fromID) < w.idValue(w.history[i].id) <= w.idValue(next)
    ensures op in events && op.kind == kind && StemsFrom(op, w.history[i])
  {
    KindIsByCode(w.history[i].typ);
    NoGap(w, first, fromID, limit, pages, calls, out, events, next, i);
    op := ToOperation(w.history[i]);
  }

  /** Whatever a poll returns, cut short or not, stems from such an event, so nothing with another code
      is returned. */
  lemma OnlyKindsReturned(w: World, first: nat, fromID: string, limit: int, pages: seq<seq<RawEvent>>, calls: nat,
                          out: Outcome, events: seq<Operation>, next: string, op: Operation)
    returns (i: nat)
    requires w.Growing() && w.Ordered() && w.idValue(fromID) > 0
    requires PollResult(w, first, fromID, limit, pages, calls, out, events, next) && op in events
    ensures i < |w.history| && StemsFrom(op, w.history[i]) && op.fileID != "" && op.id != ""
    ensures w.idValue(fromID) < w.idValue(op.id) <= w.idValue(next)
  {
    i := DeliveredIsDue(w, first, fromID, limit, pages, calls, out, events, next, op);
    KindIsByCode(w.history[i].typ);
  }

  lemma {:induction false} FlattenGrows(pages: seq<seq<RawEvent>>, k: nat)
    requires k <= |pages|
    ensures |Flatten(pages[..k])| <= |Flatten(pages)|
  {
    if k < |pages| {
      var init := pages[..|pages| - 1];
      FlattenGrows(init, k);
      assert init[..k] == pages[..k];
    } else {
      assert pages[..k] == pages;
    }
  }

  /** The due events that no page shows all lie below the end of the last page; in a log that does
      not grow during the poll they are exactly the due ones below it. */
  lemma SkippedAreBelow(w: World, first: nat, fromID: string, limit: int, pages: seq<seq<RawEvent>>, calls: nat,
                        out: Outcome, events: seq<Operation>, next: string, i: nat)
    requires w.Growing() && w.Ordered() && w.idValue(fromID) > 0
    requires PollResult(w, first, fromID, limit, pages, calls, out, events, next) && out != Failed
    requires Due(w, w.idValue(fromID), w.idValue(next), i)
    ensures pages != [] && (i >= w.Visible(first + |pages| - 1) - |Flatten(pages)| ==> Shown(w, first, pages, i))
    ensures w.Visible(first + |pages| - 1) == w.Visible(first) ==>
              (Shown(w, first, pages, i) <==> i >= w.Visible(first) - |Flatten(pages)|)
  {
    hide PollResult, ScanResult, Scan, LastOf, HasOld, MaxValue, World.Growing, World.Ordered, Covers, Within, Wanted,
      Due,
      Reached, Collect, PageLimit, Shown, World.Visible;
    var n := w.Visible(first);
    ShownExactlyAt(w, first, fromID, limit, pages, calls, out, events, next, i);
    var lo, hi := Coverage(w, first, PageLimit(limit), pages);
    CoversMeans(w, lo, hi, Flatten(pages));
    NewerIsGreater(w, Flatten(pages), hi, i);
    if w.Visible(first + |pages| - 1) == n && Shown(w, first, pages, i) {
      var k := ShownOn(w, first, pages, i);
      FlattenGrows(pages, k + 1);
      VisibleGrows(w, first, first + k);
      VisibleGrows(w, first + k, first + |pages| - 1);
    }
  }

  lemma ShownOn(w: World, first: nat, pages: seq<seq<RawEvent>>, i: int) returns (k: nat)
    requires Shown(w, first, pages, i)
    ensures k < |pages| && w.Visible(first + k) - |Flatten(pages[..k + 1])| <= i
  {
    k :| OnPage(w, first, pages, k, i);
  }

  lemma ShownExactlyAt(w: World, first: nat, fromID: string, limit: int, pages: seq<seq<RawEvent>>, calls: nat,
                       out: Outcome, events: seq<Operation>, next: string, i: nat)
    requires w.Ordered() && w.idValue(fromID) > 0
    requires PollResult(w, first, fromID, limit, pages, calls, out, events, next) && out != Failed
    requires Due(w, w.idValue(fromID), w.idValue(next), i)
    ensures i < |w.history| && pages != [] && Scan(w, first, PageLimit(limit), pages) && MaxValue(w, Flatten(pages)) > 0
    ensures w.history[i] in Flatten(pages) <==> Shown(w, first, pages, i)
    ensures w.idValue(w.history[i].id) <= MaxValue(w, Flatten(pages))
  {
    MaxValueMeaning(w, Flatten(pages));
    ShownExactly(w, first, PageLimit(limit), pages, i);
  }

  // ----- the poll that sets the baseline -----

  /** The cursor for the newest event visible at request `call`; empty if its id is not positive. */
  function Newest(w: World, call: nat): string {
    var n := w.Visible(call);
    if n == 0 || w.idValue(w.history[n - 1].id) <= 0 then "" else w.idText(w.idValue(w.history[n - 1].id))
  }

  /** A poll from the empty cursor asks once, returns no event and moves the cursor to the newest. */
  lemma BaselineReadsNewest(w: World, first: nat, limit: int, pages: seq<seq<RawEvent>>, calls: nat, out: Outcome,
                            events: seq<Operation>, next: string)
    requires w.Ordered() && PollResult(w, first, "", limit, pages, calls, out, events, next)
    ensures calls == 1 && events == [] && (out == Failed <==> w.Fails(first))
    ensures out != Failed ==> out == Complete && next == Newest(w, first)
  {
    if out != Failed {
      assert w.idValue("") == 0;
      var n := w.Visible(first);
      if pages == [] {
        assert n == 0;
      } else {
        assert pages[..0] == [] && Flatten(pages) == pages[0];
        MaxIsNewest(w, first, PageLimit(limit), pages[0]);
      }
    }
  }

  lemma MaxIsNewest(w: World, call: nat, limit: nat, page: seq<RawEvent>)
    requires w.Ordered() && page == w.Items(call, 0, limit) && page != []
    ensures w.Visible(call) > 0
    ensures var v := w.idValue(w.history[w.Visible(call) - 1].id);
            MaxValue(w, page) == if v > 0 then v else 0
  {
    var n := w.Visible(call);
    MaxValueMeaning(w, page);
    PageCovers(w, call, 0, limit, n - |page|, n);
    assert w.history[n - 1] in page;
    if MaxValue(w, page) > 0 {
      var e :| e in page && w.idValue(e.id) == MaxValue(w, page);
      var j :| n - |page| <= j < n && 0 <= j < |w.history| && w.history[j] == e;
    }
  }
}
