/** drivers/115_Open/full_list.go: paging through a recursive listing that changes meanwhile.
    A missing entry would be taken for a deleted one by the caller. */
module FullList115 {
  import opened Seqs

  /** `id` and `sha1` stand for the trimmed texts. */
  datatype Entry = Entry(id: string, aid: string, parentID: string, name: string, size: int,
                         sha1: string, pickCode: string, mtime: int)
  {
    predicate IsTrashed() { aid == "7" || aid == "120" }

    function ToListed(): Listed {
      Listed(id, parentID, name, size, sha1, pickCode, mtime)
    }
  }

  datatype Listed = Listed(fileID: string, parentID: string, name: string, size: int,
                           sha1: string, pickCode: string, mtime: int)

  datatype Error = Cancelled | FetchFailed | MissingID | RepeatedPage
  datatype Result<T> = Ok(value: T) | Err(error: Error)

  const FULL_LIST_PAGE_SIZE := 1150

  /** The listing as it stands at one request, and how the request is met. */
  datatype Snapshot = Snapshot(listing: seq<Entry>, cancelled: bool, fails: bool, cut: nat)

  /** Requests after the last snapshot fail. */
  datatype World = World(script: seq<Snapshot>)
  {
    predicate Answers(call: nat) {
      call < |script| && !script[call].cancelled && !script[call].fails
    }

    /** A page may be shorter than asked for, but is empty only beyond the end of the listing. */
    function Items(call: nat, offset: nat): (items: seq<Entry>)
      requires Answers(call)
      ensures |items| <= 1150 && (items == [] <==> offset >= |script[call].listing|)
      ensures 1150 <= script[call].cut && offset + 1150 <= |script[call].listing| ==> |items| == 1150
    {
      var s := script[call];
      if offset >= |s.listing| then []
      else
        var rest := |s.listing| - offset;
        var most := if FULL_LIST_PAGE_SIZE < rest then FULL_LIST_PAGE_SIZE else rest;
        var k := if s.cut == 0 then 1 else if s.cut < most then s.cut else most;
        s.listing[offset..offset + k]
    }

    /** No id is listed twice at one time. */
    ghost predicate DistinctIds() {
      forall i, x, y :: 0 <= i < |script| && x in script[i].listing && y in script[i].listing && x.id == y.id
                        ==> x == y
    }

    /** Between two requests entries are only inserted, anywhere. */
    ghost predicate OnlyInserts() {
      forall i :: 0 <= i < |script| - 1 ==> Inserted(script[i].listing, script[i + 1].listing)
    }
  }

  /** Entry k of `a` is entry at[k] of `b`. */
  ghost predicate Embeds(at: seq<nat>, a: seq<Entry>, b: seq<Entry>) {
    && |at| == |a|
    && (forall i, j :: 0 <= i < j < |at| ==> at[i] < at[j])
    && (forall i :: 0 <= i < |at| ==> at[i] < |b| && b[at[i]] == a[i])
  }

  ghost predicate Inserted(a: seq<Entry>, b: seq<Entry>) {
    exists at :: Embeds(at, a, b)
  }

  // ----- what a scan collects -----

  ghost function Flatten(pages: seq<seq<Entry>>): seq<Entry> {
    if pages == [] then [] else Flatten(pages[..|pages| - 1]) + pages[|pages| - 1]
  }

  ghost function SeenIds(scanned: seq<Entry>): set<string> {
    if scanned == [] then {} else SeenIds(scanned[..|scanned| - 1]) + {scanned[|scanned| - 1].id}
  }

  /** The first entry of each id, unless it is trashed. */
  ghost function Collected(scanned: seq<Entry>): seq<Listed> {
    if scanned == [] then []
    else
      var before, e := scanned[..|scanned| - 1], scanned[|scanned| - 1];
      if e.id in SeenIds(before) || e.IsTrashed() then Collected(before)
      else Collected(before) + [e.ToListed()]
  }

  /** The non-empty pages a scan received, each at the offset its predecessors add up to, and
      each bringing an id not seen before. */
  ghost predicate Scan(w: World, pages: seq<seq<Entry>>) {
    pages == [] ||
    var last := |pages| - 1;
    var before := Flatten(pages[..last]);
    && Scan(w, pages[..last])
    && w.Answers(last)
    && pages[last] == w.Items(last, |before|)
    && pages[last] != []
    && SeenIds(before + pages[last]) != SeenIds(before)
  }

  /** The scan met the end of the listing. */
  ghost predicate Completed(w: World, pages: seq<seq<Entry>>) {
    Scan(w, pages) && w.Answers(|pages|) && w.Items(|pages|, |Flatten(pages)|) == []
  }

  lemma Snoc(scanned: seq<Entry>, e: Entry)
    ensures SeenIds(scanned + [e]) == SeenIds(scanned) + {e.id}
    ensures Collected(scanned + [e]) ==
            if e.id in SeenIds(scanned) || e.IsTrashed() then Collected(scanned)
            else Collected(scanned) + [e.ToListed()]
  {
    DropLast(scanned, e);
  }

  lemma PageSnoc(w: World, pages: seq<seq<Entry>>, page: seq<Entry>)
    requires Scan(w, pages) && w.Answers(|pages|) && page == w.Items(|pages|, |Flatten(pages)|) && page != []
    requires SeenIds(Flatten(pages) + page) != SeenIds(Flatten(pages))
    ensures Flatten(pages + [page]) == Flatten(pages) + page && Scan(w, pages + [page])
  {
    DropLast(pages, page);
  }

  /** The loop over one page, after `before` was scanned. */
  method ScanPage(page: seq<Entry>, entries0: seq<Listed>, seen0: set<string>, ghost before: seq<Entry>)
    returns (ok: bool, entries: seq<Listed>, seen: set<string>, newIDs: nat)
    requires entries0 == Collected(before) && seen0 == SeenIds(before)
    ensures ok ==> entries == Collected(before + page) && seen == SeenIds(before + page)
    ensures ok ==> |seen| == |seen0| + newIDs && seen0 <= seen
    ensures ok <==> forall e :: e in page ==> e.id != ""
  {
    entries, seen, newIDs, ok := entries0, seen0, 0, true;
    ghost var done, scanned := [], before;
    for i := 0 to |page|
      invariant done == page[..i] && scanned == before + done
      invariant entries == Collected(scanned) && seen == SeenIds(scanned)
      invariant |seen| == |seen0| + newIDs && seen0 <= seen
      invariant forall e :: e in done ==> e.id != ""
    {
      var f := page[i];
      Snoc(scanned, f);
      AppendAssoc(before, done, [f]);
      TakeNext(page, i);
      done, scanned := done + [f], scanned + [f];
      var fileID := f.id;
      if fileID == "" {
        assert f in page;
        ok := false;
        return;
      }
      if fileID in seen {
        continue;
      }
      seen := seen + {fileID};
      newIDs := newIDs + 1;
      if f.IsTrashed() {
        continue;
      }
      entries := entries + [Listed(fileID, f.parentID, f.name, f.size, f.sha1, f.pickCode, f.mtime)];
    }
    TakeAll(page);
  }

  /** `collectFullListPages`. `universe` is any finite set of the ids that may be listed. */
  method CollectFullListPages(w: World, ghost universe: set<string>)
    returns (r: Result<seq<Listed>>)
    requires forall i, e :: 0 <= i < |w.script| && e in w.script[i].listing ==> e.id in universe
    ensures exists pages :: |pages| <= |universe| && ListResult(w, pages, r)
  {
    var entries: seq<Listed>, seen: set<string>, offset: nat := [], {}, 0;
    ghost var scanned: seq<Entry>, pages: seq<seq<Entry>> := [], [];
    var call := 0;
    while true
      invariant Scan(w, pages) && call == |pages| <= |seen|
      invariant scanned == Flatten(pages) && offset == |scanned|
      invariant entries == Collected(scanned) && seen == SeenIds(scanned)
      invariant seen <= universe && "" !in seen
      decreases universe - seen
    {
      SubsetSize(seen, universe);
      r := Err(Cancelled);
      if call >= |w.script| || w.script[call].cancelled {
        break;
      }
      if w.script[call].fails {
        r := Err(FetchFailed);
        break;
      }
      var page := w.Items(call, offset);
      if page == [] {
        r := Ok(entries);
        break;
      }
      var seen0 := seen;
      var ok, newIDs;
      ok, entries, seen, newIDs := ScanPage(page, entries, seen, scanned);
      if !ok {
        r := Err(MissingID);
        break;
      }
      if newIDs == 0 {
        SameSize(seen0, seen);
        r := Err(RepeatedPage);
        break;
      }
      assert seen != seen0;
      PageIds(w, call, offset, scanned, universe);
      PageSnoc(w, pages, page);
      pages, scanned, offset, call := pages + [page], scanned + page, offset + |page|, call + 1;
      assert scanned == Flatten(pages);
    }
    assert ListResult(w, pages, r);
  }

  /** How a listing ends after the pages it accepted. */
  ghost predicate ListResult(w: World, pages: seq<seq<Entry>>, r: Result<seq<Listed>>) {
    var call, scanned := |pages|, Flatten(pages);
    && Scan(w, pages)
    && match r
       case Ok(entries) => Completed(w, pages) && "" !in SeenIds(scanned) && entries == Collected(scanned)
       case Err(MissingID) => w.Answers(call) && exists e :: e in w.Items(call, |scanned|) && e.id == ""
       case Err(RepeatedPage) =>
         w.Answers(call) && w.Items(call, |scanned|) != [] && SeenIds(scanned + w.Items(call, |scanned|)) == SeenIds(scanned)
       case Err(FetchFailed) => call < |w.script| && !w.script[call].cancelled && w.script[call].fails
       case Err(Cancelled) => call < |w.script| ==> w.script[call].cancelled
  }

  lemma SameSize<T>(small: set<T>, large: set<T>)
    requires small <= large && |small| == |large|
    ensures small == large
  {
    if x :| x in large && x !in small {
      SubsetSize(small, large - {x});
    }
  }

  lemma {:induction false} SeenIdsMeaning(scanned: seq<Entry>, id: string)
    ensures id in SeenIds(scanned) <==> exists e :: e in scanned && e.id == id
  {
    if scanned != [] {
      var init, last := scanned[..|scanned| - 1], scanned[|scanned| - 1];
      SeenIdsMeaning(init, id);
      assert scanned == init + [last];
    }
  }

  lemma PageIds(w: World, call: nat, offset: nat, before: seq<Entry>, universe: set<string>)
    requires w.Answers(call) && SeenIds(before) <= universe && "" !in SeenIds(before)
    requires forall i, e :: 0 <= i < |w.script| && e in w.script[i].listing ==> e.id in universe
    requires forall e :: e in w.Items(call, offset) ==> e.id != ""
    ensures SeenIds(before + w.Items(call, offset)) <= universe && "" !in SeenIds(before + w.Items(call, offset))
  {
    var all := before + w.Items(call, offset);
    forall id | id in SeenIds(all)
      ensures id in universe && id != ""
    {
      SeenIdsMeaning(all, id);
      SeenIdsMeaning(before, id);
    }
  }

  // ----- completeness -----

  lemma EmbeddingMovesDown(at: seq<nat>, a: seq<Entry>, b: seq<Entry>, p: nat)
    requires Embeds(at, a, b) && p < |a|
    ensures p <= at[p]
  {
    if p > 0 {
      EmbeddingMovesDown(at, a, b, p - 1);
    }
  }

  /** Entry `e` is at or after position `from` of the listing at request `call`. */
  ghost predicate Ahead(w: World, call: nat, from: nat, e: Entry) {
    call < |w.script| && exists p :: from <= p < |w.script[call].listing| && w.script[call].listing[p] == e
  }

  lemma AheadStays(w: World, call: nat, from: nat, e: Entry)
    requires w.OnlyInserts() && Ahead(w, call, from, e) && call + 1 < |w.script|
    ensures Ahead(w, call + 1, from, e)
  {
    var a, b := w.script[call].listing, w.script[call + 1].listing;
    var p :| from <= p < |a| && a[p] == e;
    var at :| Embeds(at, a, b);
    EmbeddingMovesDown(at, a, b, p);
    assert b[at[p]] == e;
  }

  /** An entry at or after the place a page starts is on the page, or after it. */
  lemma OnPageOrAhead(w: World, call: nat, offset: nat, e: Entry)
    requires w.Answers(call) && Ahead(w, call, offset, e)
    ensures e in w.Items(call, offset) || Ahead(w, call, offset + |w.Items(call, offset)|, e)
  {
    var listing, page := w.script[call].listing, w.Items(call, offset);
    var p :| offset <= p < |listing| && listing[p] == e;
    if p < offset + |page| {
      assert page[p - offset] == e;
    }
  }

  lemma StartsAhead(w: World, e: Entry)
    requires 0 < |w.script| && e in w.script[0].listing
    ensures Ahead(w, 0, 0, e) && |Flatten([])| == 0
  {
  }

  /** Where the request after the first k pages starts. */
  ghost function Offset(pages: seq<seq<Entry>>, k: nat): nat
    requires k <= |pages|
  {
    |Flatten(pages[..k])|
  }

  /** Between request k and the next one the entry moves from after the next offset to before it. */
  ghost predicate Jumps(w: World, pages: seq<seq<Entry>>, k: nat, e: Entry) {
    && k < |pages|
    && Ahead(w, k, Offset(pages, k + 1), e) && !Ahead(w, k + 1, Offset(pages, k + 1), e)
  }

  ghost predicate NeverJumps(w: World, pages: seq<seq<Entry>>, e: Entry) {
    forall k: nat :: k < |pages| ==> !Jumps(w, pages, k, e)
  }

  lemma {:induction false} PageAt(w: World, pages: seq<seq<Entry>>, k: nat)
    requires Scan(w, pages) && k < |pages|
    ensures w.Answers(k) && pages[k] == w.Items(k, Offset(pages, k))
    ensures Flatten(pages[..k + 1]) == Flatten(pages[..k]) + pages[k]
  {
    var last := |pages| - 1;
    if k < last {
      PageAt(w, pages[..last], k);
      assert pages[..last][..k] == pages[..k] && pages[..last][..k + 1] == pages[..k + 1];
    } else {
      assert pages[..k + 1] == pages;
    }
  }

  /** After each page an entry that was there at the start and never jumps has been scanned or is
      still to come. */
  lemma {:induction false} ScannedOrAhead(w: World, pages: seq<seq<Entry>>, k: nat, e: Entry)
    requires Scan(w, pages) && k <= |pages| && NeverJumps(w, pages, e)
    requires 0 < |w.script| && e in w.script[0].listing
    ensures e in Flatten(pages[..k]) || Ahead(w, k, Offset(pages, k), e)
  {
    hide Scan, Ahead, Flatten, World.Answers, World.Items;
    if k == 0 {
      assert pages[..0] == [];
      StartsAhead(w, e);
    } else {
      ScannedOrAhead(w, pages, k - 1, e);
      PageAt(w, pages, k - 1);
      if e !in Flatten(pages[..k]) {
        OnPageOrAhead(w, k - 1, Offset(pages, k - 1), e);
        assert !Jumps(w, pages, k - 1, e);
      }
    }
  }

  /** With insertions only no entry ever jumps. */
  lemma InsertsNeverJump(w: World, pages: seq<seq<Entry>>, e: Entry)
    requires w.OnlyInserts() && |pages| < |w.script|
    ensures NeverJumps(w, pages, e)
  {
    forall k: nat | k < |pages|
      ensures !Jumps(w, pages, k, e)
    {
      if Ahead(w, k, Offset(pages, k + 1), e) {
        AheadStays(w, k, Offset(pages, k + 1), e);
      }
    }
  }

  lemma {:induction false} StaysListed(w: World, i: nat, j: nat, e: Entry)
    requires w.OnlyInserts() && i <= j < |w.script| && e in w.script[i].listing
    ensures e in w.script[j].listing
  {
    if i < j {
      StaysListed(w, i, j - 1, e);
      var p :| 0 <= p < |w.script[j - 1].listing| && w.script[j - 1].listing[p] == e;
      assert Ahead(w, j - 1, 0, e);
      AheadStays(w, j - 1, 0, e);
    }
  }

  lemma {:induction false} ScannedIsListed(w: World, pages: seq<seq<Entry>>, last: nat, e: Entry)
    requires w.OnlyInserts() && Scan(w, pages) && |pages| <= last < |w.script| && e in Flatten(pages)
    ensures e in w.script[last].listing
  {
    var k := |pages| - 1;
    if e in Flatten(pages[..k]) {
      ScannedIsListed(w, pages[..k], last, e);
    } else {
      assert e in pages[k];
      StaysListed(w, k, last, e);
    }
  }

  /** An entry that is not trashed is collected when all scanned entries of its id are the same. */
  lemma {:induction false} CollectedComplete(scanned: seq<Entry>, e: Entry)
    requires e in scanned && e.aid != "7" && e.aid != "120"
    requires forall x :: x in scanned && x.id == e.id ==> x == e
    ensures e.ToListed() in Collected(scanned)
  {
    var init, last := scanned[..|scanned| - 1], scanned[|scanned| - 1];
    assert scanned == init + [last];
    if e in init {
      CollectedComplete(init, e);
    } else {
      SeenIdsMeaning(init, e.id);
    }
  }

  lemma {:induction false} CollectedSound(scanned: seq<Entry>)
    ensures forall r :: r in Collected(scanned) ==>
              exists e ::
                && e in scanned && e.aid != "7" && e.aid != "120"
                && r == Listed(e.id, e.parentID, e.name, e.size, e.sha1, e.pickCode, e.mtime)
    ensures forall i, j :: 0 <= i < j < |Collected(scanned)| ==>
              Collected(scanned)[i].fileID != Collected(scanned)[j].fileID
    ensures forall r :: r in Collected(scanned) ==> r.fileID in SeenIds(scanned)
  {
    if scanned != [] {
      var init, last := scanned[..|scanned| - 1], scanned[|scanned| - 1];
      CollectedSound(init);
      assert scanned == init + [last];
    }
  }

  /** Entry i is the first of its id, and not in the trash. */
  ghost predicate FirstAt(scanned: seq<Entry>, i: nat)
    requires i < |scanned|
  {
    && scanned[i].aid != "7" && scanned[i].aid != "120"
    && forall j :: 0 <= j < i ==> scanned[j].id != scanned[i].id
  }

  /** Listed are exactly the entries that are the first of their id and not in the trash. */
  lemma {:induction false} CollectedExactly(scanned: seq<Entry>, r: Listed)
    ensures r in Collected(scanned) <==>
              exists i :: 0 <= i < |scanned| && FirstAt(scanned, i) && r == scanned[i].ToListed()
  {
    if scanned != [] {
      var init, last := scanned[..|scanned| - 1], scanned[|scanned| - 1];
      CollectedExactly(init, r);
      SeenIdsMeaning(init, last.id);
      assert forall i :: 0 <= i < |init| ==> (FirstAt(init, i) <==> FirstAt(scanned, i)) && init[i] == scanned[i];
      assert FirstAt(scanned, |init|) <==> last.aid != "7" && last.aid != "120" && last.id !in SeenIds(init);
    }
  }

  /** What later pages bring comes after what was listed before. */
  lemma {:induction false} CollectedInOrder(before: seq<Entry>, page: seq<Entry>)
    ensures Collected(before) <= Collected(before + page)
  {
    if page == [] {
      assert before + page == before;
    } else {
      var init, last := page[..|page| - 1], page[|page| - 1];
      CollectedInOrder(before, init);
      Snoc(before + init, last);
      assert before + page == before + init + [last];
    }
  }

  /** A completed scan misses no entry that was listed when it began, if entries were only
      inserted meanwhile. */
  lemma NothingMissed(w: World, pages: seq<seq<Entry>>, e: Entry)
    requires w.OnlyInserts() && w.DistinctIds() && Completed(w, pages)
    requires e in w.script[0].listing && e.aid != "7" && e.aid != "120"
    ensures Listed(e.id, e.parentID, e.name, e.size, e.sha1, e.pickCode, e.mtime) in Collected(Flatten(pages))
  {
    hide Scan, Completed, Ahead, Flatten, Collected, World.OnlyInserts, World.DistinctIds, World.Answers, World.Items;
    NothingAhead(w, pages, e);
    InsertsNeverJump(w, pages, e);
    ScannedOrAhead(w, pages, |pages|, e);
    assert pages[..|pages|] == pages;
    ScannedIsListed(w, pages, |pages|, e);
    forall x | x in Flatten(pages) && x.id == e.id
      ensures x == e
    {
      ScannedIsListed(w, pages, |pages|, x);
      SameIDSameEntry(w, |pages|, x, e);
    }
    CollectedComplete(Flatten(pages), e);
  }

  /** Where a scan met the end of the listing, nothing is still to come. */
  lemma NothingAhead(w: World, pages: seq<seq<Entry>>, e: Entry)
    requires Completed(w, pages)
    ensures Scan(w, pages) && |pages| < |w.script| && !Ahead(w, |pages|, |Flatten(pages)|, e)
  {
  }

  lemma SameIDSameEntry(w: World, i: nat, x: Entry, y: Entry)
    requires w.DistinctIds() && i < |w.script| && x in w.script[i].listing && y in w.script[i].listing && x.id == y.id
    ensures x == y
  {
  }

  // ----- exactly when an entry is missed -----

  /** At one time the entry is listed once, and nothing else has its id. */
  ghost predicate Once(listing: seq<Entry>, e: Entry) {
    exists p :: 0 <= p < |listing| && listing[p] == e && forall q :: 0 <= q < |listing| && listing[q].id == e.id ==> q == p
  }

  /** The entry is listed unchanged at every request of the scan. */
  ghost predicate Throughout(w: World, pages: seq<seq<Entry>>, e: Entry) {
    |pages| < |w.script| && forall k :: 0 <= k <= |pages| ==> Once(w.script[k].listing, e)
  }

  /** Not scanned by request k, the entry jumps before the next offset, and is never again at or after
      the place where a request starts. */
  ghost predicate LeftBehind(w: World, pages: seq<seq<Entry>>, k: nat, e: Entry) {
    && Jumps(w, pages, k, e) && e !in Flatten(pages[..k + 1])
    && forall j: nat :: k < j <= |pages| ==> !Ahead(w, j, Offset(pages, j), e)
  }

  lemma NothingFlattens(pages: seq<seq<Entry>>)
    ensures Flatten(pages[..0]) == []
  {
    assert pages[..0] == [];
  }

  lemma PageIsListed(w: World, call: nat, offset: nat, x: Entry)
    requires w.Answers(call) && x in w.Items(call, offset)
    ensures call < |w.script| && x in w.script[call].listing && Ahead(w, call, offset, x)
  {
    var page := w.Items(call, offset);
    var i :| 0 <= i < |page| && page[i] == x;
    assert w.script[call].listing[offset + i] == x;
  }

  lemma {:induction false} ScannedOnPage(w: World, pages: seq<seq<Entry>>, n: nat, x: Entry) returns (k: nat)
    requires Scan(w, pages) && n <= |pages| && x in Flatten(pages[..n])
    ensures k < n && w.Answers(k) && x in w.Items(k, Offset(pages, k))
    ensures k < |w.script| && x in w.script[k].listing && Ahead(w, k, Offset(pages, k), x)
  {
    hide Scan, Ahead, Flatten, World.Answers, World.Items;
    if n == 0 {
      NothingFlattens(pages);
    }
    PageAt(w, pages, n - 1);
    if x in Flatten(pages[..n - 1]) {
      k := ScannedOnPage(w, pages, n - 1, x);
    } else {
      k := n - 1;
      PageIsListed(w, k, Offset(pages, k), x);
    }
  }

  /** An entry that is listed throughout is in the result exactly when it was on a page. */
  lemma ListedIffScanned(w: World, pages: seq<seq<Entry>>, e: Entry)
    requires Scan(w, pages) && Throughout(w, pages, e) && e.aid != "7" && e.aid != "120"
    ensures e.ToListed() in Collected(Flatten(pages)) <==> e in Flatten(pages)
  {
    assert pages[..|pages|] == pages;
    forall x | x in Flatten(pages) && x.id == e.id
      ensures x == e
    {
      var k := ScannedOnPage(w, pages, |pages|, x);
      assert Once(w.script[k].listing, e);
    }
    if e in Flatten(pages) {
      CollectedComplete(Flatten(pages), e);
    } else {
      CollectedSound(Flatten(pages));
    }
  }

  lemma {:induction false} FindJump(w: World, pages: seq<seq<Entry>>, m: nat, e: Entry) returns (k: nat)
    requires Scan(w, pages) && |pages| < |w.script| && m < |pages| && e !in Flatten(pages)
    requires e in w.script[0].listing
    requires forall j: nat :: m < j <= |pages| ==> !Ahead(w, j, Offset(pages, j), e)
    ensures k <= m && LeftBehind(w, pages, k, e)
  {
    hide Scan, Ahead, Flatten, World.Answers, World.Items;
    StartsAhead(w, e);
    assert pages[..0] == [];
    if Ahead(w, m, Offset(pages, m), e) {
      k := m;
      PageAt(w, pages, m);
      FlattenPrefix(pages, m + 1);
      OnPageOrAhead(w, m, Offset(pages, m), e);
    } else {
      k := FindJump(w, pages, m - 1, e);
    }
  }

  lemma {:induction false} FlattenPrefix(pages: seq<seq<Entry>>, k: nat)
    requires k <= |pages|
    ensures forall e :: e in Flatten(pages[..k]) ==> e in Flatten(pages)
    ensures Offset(pages, k) <= |Flatten(pages)|
  {
    if k == |pages| {
      assert pages[..k] == pages;
    } else {
      var init := pages[..|pages| - 1];
      FlattenPrefix(init, k);
      assert init[..k] == pages[..k];
    }
  }

  lemma ScannedBy(w: World, pages: seq<seq<Entry>>, j: nat, k: nat, e: Entry)
    requires Scan(w, pages) && j <= k < |pages| && w.Answers(j) && e in w.Items(j, Offset(pages, j))
    ensures e in Flatten(pages[..k + 1])
  {
    PageAt(w, pages, j);
    FlattenPrefix(pages[..k + 1], j + 1);
    assert pages[..k + 1][..j + 1] == pages[..j + 1];
  }

  lemma LeftBehindIsUnscanned(w: World, pages: seq<seq<Entry>>, k: nat, e: Entry)
    requires Scan(w, pages) && LeftBehind(w, pages, k, e)
    ensures e !in Flatten(pages)
  {
    hide Scan, Flatten, Ahead, World.Answers, World.Items;
    assert pages[..|pages|] == pages;
    if e in Flatten(pages) {
      var j := ScannedOnPage(w, pages, |pages|, e);
      if j <= k {
        ScannedBy(w, pages, j, k, e);
      }
    }
  }

  /** A completed scan misses an entry that is listed throughout exactly when, not yet scanned, it
      jumps from after the next offset to before it and does not come back. */
  lemma MissedExactly(w: World, pages: seq<seq<Entry>>, e: Entry)
    requires Completed(w, pages) && Throughout(w, pages, e) && e.aid != "7" && e.aid != "120"
    ensures e.ToListed() !in Collected(Flatten(pages)) <==> exists k: nat :: LeftBehind(w, pages, k, e)
  {
    hide Completed, Scan, Flatten, Ahead, Collected, LeftBehind, Throughout;
    var n := |pages|;
    assert pages[..n] == pages;
    ListedAtStart(w, pages, e);
    NothingAhead(w, pages, e);
    ListedIffScanned(w, pages, e);
    if e !in Flatten(pages) {
      StartsAhead(w, e);
      var k := FindJump(w, pages, n - 1, e);
    } else if k: nat :| LeftBehind(w, pages, k, e) {
      LeftBehindIsUnscanned(w, pages, k, e);
    }
  }

  lemma ListedAtStart(w: World, pages: seq<seq<Entry>>, e: Entry)
    requires Throughout(w, pages, e)
    ensures |pages| < |w.script| && e in w.script[0].listing
  {
    assert Once(w.script[0].listing, e);
  }

  /** The entry never moves to a greater position, as when entries are only removed. */
  ghost predicate NeverDown(w: World, pages: seq<seq<Entry>>, e: Entry) {
    forall k: nat, from: nat :: k < |pages| && Ahead(w, k + 1, from, e) ==> Ahead(w, k, from, e)
  }

  lemma {:induction false} BehindStays(w: World, pages: seq<seq<Entry>>, k: nat, j: nat, from: nat, e: Entry)
    requires NeverDown(w, pages, e) && k <= j <= |pages| && !Ahead(w, k, from, e)
    ensures !Ahead(w, j, from, e)
  {
    if k < j {
      BehindStays(w, pages, k, j - 1, from, e);
    }
  }

  lemma NotFurtherAhead(w: World, call: nat, from: nat, further: nat, e: Entry)
    requires from <= further && !Ahead(w, call, from, e)
    ensures !Ahead(w, call, further, e)
  {
  }

  lemma OffsetsGrow(pages: seq<seq<Entry>>, j: nat, k: nat)
    requires j <= k <= |pages|
    ensures Offset(pages, j) <= Offset(pages, k)
  {
    FlattenPrefix(pages[..k], j);
    assert pages[..k][..j] == pages[..j];
  }

  /** With removals only, a completed scan misses an entry that is listed throughout exactly when
      it jumps. */
  lemma RemovalsMissExactly(w: World, pages: seq<seq<Entry>>, e: Entry)
    requires Completed(w, pages) && Throughout(w, pages, e) && e.aid != "7" && e.aid != "120" && NeverDown(w, pages, e)
    ensures e.ToListed() !in Collected(Flatten(pages)) <==> !NeverJumps(w, pages, e)
  {
    hide Ahead, Completed, Scan, Collected, Once;
    MissedExactly(w, pages, e);
    NothingAhead(w, pages, e);
    if k: nat :| k < |pages| && Jumps(w, pages, k, e) {
      forall j: nat | k < j <= |pages|
        ensures !Ahead(w, j, Offset(pages, j), e)
      {
        BehindStays(w, pages, k + 1, j, Offset(pages, k + 1), e);
        OffsetsGrow(pages, k + 1, j);
        NotFurtherAhead(w, j, Offset(pages, k + 1), Offset(pages, j), e);
      }
      if e in Flatten(pages[..k + 1]) {
        ScannedStaysBehind(w, pages, k, e);
      }
      assert LeftBehind(w, pages, k, e);
    }
  }

  /** What was on a page is, if it never moves down, before all later offsets. */
  lemma ScannedStaysBehind(w: World, pages: seq<seq<Entry>>, k: nat, e: Entry)
    requires Scan(w, pages) && Throughout(w, pages, e) && NeverDown(w, pages, e)
    requires k < |pages| && e in Flatten(pages[..k + 1])
    ensures !Ahead(w, k, Offset(pages, k + 1), e)
  {
    hide Scan, Ahead, Flatten, World.Answers, World.Items, NeverDown;
    var j := ScannedOnPage(w, pages, k + 1, e);
    PageAt(w, pages, j);
    assert Once(w.script[j].listing, e);
    OnPageOnly(w, j, Offset(pages, j), e);
    BehindStays(w, pages, j, k, Offset(pages, j + 1), e);
    OffsetsGrow(pages, j + 1, k + 1);
    NotFurtherAhead(w, k, Offset(pages, j + 1), Offset(pages, k + 1), e);
  }

  lemma OnPageOnly(w: World, call: nat, offset: nat, e: Entry)
    requires w.Answers(call) && e in w.Items(call, offset) && Once(w.script[call].listing, e)
    ensures !Ahead(w, call, offset + |w.Items(call, offset)|, e)
  {
    var page := w.Items(call, offset);
    var i :| 0 <= i < |page| && page[i] == e;
    assert w.script[call].listing[offset + i] == e;
  }

  /** A removal between two requests can hide an entry that is listed throughout. */
  lemma RemovalHidesEntry(a: Entry, b: Entry)
    requires a.id != b.id && b.aid != "7" && b.aid != "120"
    ensures var w := World([Snapshot([a, b], false, false, 1), Snapshot([b], false, false, 1)]);
            && w.DistinctIds()
            && (forall i :: 0 <= i < |w.script| ==> b in w.script[i].listing)
            && Completed(w, [[a]])
            && b.ToListed() !in Collected(Flatten([[a]]))
  {
    var w := World([Snapshot([a, b], false, false, 1), Snapshot([b], false, false, 1)]);
    Snoc([], a);
    assert [] + [a] == [a];
    assert [[a]][..0] == [];
    assert Flatten([[a]]) == [a];
    assert w.Items(0, 0) == [a];
    assert Scan(w, []);
    assert SeenIds([]) == {};
    assert a.id in SeenIds([a]);
    assert Scan(w, [[a]]);
  }
}
