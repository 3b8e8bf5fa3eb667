/** internal/aiorganize/service.go: recognition of a batch of works through a bounded cache of earlier
    answers. Works of one request have different ids, as the planner numbers them
    (internal/mediaorganize/planner/recognition.go:36). */
module Recognition {
  import opened Batching
  import opened Seqs
  import opened Text
  import opened Validation
  import opened Wrappers

  const CACHE_TTL := 24 * 60 * 60
  const MAX_CACHE_ITEMS := 256
  const YEARS_AHEAD := 3
  const SIDE := 60

  datatype Config = Config(baseURL: string, model: string)

  datatype Entry = Entry(result: WorkResult, expiresAt: int)

  /** An answer that the model gave and that was kept: the work and the result without the id they
      had in their request, and when. */
  datatype Answer = Answer(cfg: Config, work: Work, result: WorkResult, at: int)

  /** `sampleWork`: of many files the first and the last 60. */
  function SampleWork(work: Work): Work {
    if |work.files| <= 2 * SIDE then work
    else work.(files := work.files[..SIDE] + work.files[|work.files| - SIDE..])
  }

  /** A sample has at most 120 files, all of the work, and is its own sample. */
  lemma SampleIsOfWork(work: Work)
    ensures |SampleWork(work).files| <= 120
    ensures forall f :: f in SampleWork(work).files ==> f in work.files
    ensures SampleWork(SampleWork(work)) == SampleWork(work)
    ensures SampleWork(work) == work <==> |work.files| <= 120
    ensures |work.files| > 120 ==>
              && SampleWork(work).files[..60] == work.files[..60]
              && SampleWork(work).files[60..] == work.files[|work.files| - 60..]
    ensures SampleWork(work) == work.(files := SampleWork(work).files)
  {
  }

  function Blank(work: Work): Work {
    work.(workID := "")
  }

  function Unnamed(r: WorkResult): WorkResult {
    r.(workID := "")
  }

  /** The rules do not speak of ids. */
  lemma FitsWithoutID(item: WorkResult, work: Work, id: string, maxYear: int, later: int)
    requires Fits(item, work, maxYear) && maxYear <= later
    ensures Fits(item.(workID := id), Blank(work), later) && Fits(item.(workID := id), work, later)
  {
    assert Sources(Blank(work)) == Sources(work);
  }

  lemma FitsUnnamed(item: WorkResult, work: Work, maxYear: int, later: int)
    requires Fits(Unnamed(item), Blank(work), maxYear) && maxYear <= later
    ensures Fits(item, work, later)
  {
    assert Sources(Blank(work)) == Sources(work);
  }

  // ----- the cache -----

  ghost predicate Injective(digest: (Config, Work) -> string) {
    forall c1, w1, c2, w2 :: digest(c1, w1) == digest(c2, w2) ==> c1 == c2 && w1 == w2
  }

  ghost predicate Monotone(yearOf: int -> int) {
    forall s, t :: s <= t ==> yearOf(s) <= yearOf(t)
  }

  lemma RemoveOne<T>(m: map<string, T>, k: string)
    requires k in m
    ensures |m - {k}| == |m| - 1
  {
    assert (m - {k}).Keys == m.Keys - {k};
  }

  lemma PutOne<T>(m: map<string, T>, k: string, v: T)
    ensures |m[k := v]| <= |m| + 1
  {
    assert m[k := v].Keys == m.Keys + {k};
  }

  /** What is left of a cache after the expired entries are dropped. */
  function Unexpired(cache: map<string, Entry>, now: int): (left: map<string, Entry>)
    ensures forall k :: k in left <==> k in cache && now <= cache[k].expiresAt
    ensures forall k :: k in left ==> left[k] == cache[k]
  {
    map k | k in cache && now <= cache[k].expiresAt :: cache[k]
  }

  /** An answer to this work, not older than the cache may serve at `start`, stands behind the result. */
  ghost predicate Given(history: set<Answer>, cfg: Config, work: Work, r: WorkResult, start: int) {
    exists at :: Answer(cfg, Blank(work), Unnamed(r), at) in history && start <= at + 86400
  }

  ghost predicate AnswersOf(history: set<Answer>, items: seq<WorkResult>, cfg: Config, works: seq<Work>, start: int) {
    forall r :: r in items ==> exists w :: w in works && w.workID == r.workID && Given(history, cfg, w, r, start)
  }

  lemma AnswersJoin(history0: set<Answer>, history: set<Answer>, a: seq<WorkResult>, b: seq<WorkResult>, cfg: Config,
                    v: seq<Work>, w: seq<Work>, start: int, later: int)
    requires history0 <= history && start <= later
    requires AnswersOf(history0, a, cfg, v, start) && AnswersOf(history, b, cfg, w, later)
    ensures AnswersOf(history, a + b, cfg, v + w, start)
  {
    forall r | r in a + b
      ensures exists x :: x in v + w && x.workID == r.workID && Given(history, cfg, x, r, start)
    {
      if r in a {
        var x :| x in v && x.workID == r.workID && Given(history0, cfg, x, r, start);
        assert Given(history, cfg, x, r, start);
        assert x in v + w;
      } else {
        var x :| x in w && x.workID == r.workID && Given(history, cfg, x, r, later);
        assert Given(history, cfg, x, r, start);
        assert x in v + w;
      }
    }
  }

  /** Results whose ids are of different works are joined without repeating an id. */
  lemma DistinctJoin(a: seq<WorkResult>, b: seq<WorkResult>)
    requires Distinct(a, IDOf()) && Distinct(b, IDOf())
    requires forall r, s :: r in a && s in b ==> r.workID != s.workID
    ensures Distinct(a + b, IDOf())
  {
    assert forall i :: 0 <= i < |a| ==> a[i] in a;
    assert forall i :: 0 <= i < |b| ==> b[i] in b;
  }

  /** The cache would serve this key now. */
  predicate Hit(cache: map<string, Entry>, now: int, key: string) {
    key in cache && now <= cache[key].expiresAt
  }

  // ----- order -----

  function WorkPosition(works: seq<Work>, id: string): (p: nat)
    ensures p <= |works| && (p < |works| ==> works[p].workID == id)
    ensures forall i :: 0 <= i < p ==> works[i].workID != id
  {
    if works == [] then 0 else if works[0].workID == id then 0 else 1 + WorkPosition(works[1..], id)
  }

  ghost predicate InOrder(items: seq<WorkResult>, works: seq<Work>) {
    forall i, j :: 0 <= i < j < |items| ==> WorkPosition(works, items[i].workID) <= WorkPosition(works, items[j].workID)
  }

  /** In the order of the request, and no work twice. */
  ghost predicate InStrictOrder(items: seq<WorkResult>, works: seq<Work>) {
    forall i, j :: 0 <= i < j < |items| ==> WorkPosition(works, items[i].workID) < WorkPosition(works, items[j].workID)
  }

  lemma InsertInOrder(s: seq<WorkResult>, k: nat, x: WorkResult, works: seq<Work>)
    requires InOrder(s, works) && k <= |s|
    requires k > 0 ==> WorkPosition(works, s[k - 1].workID) <= WorkPosition(works, x.workID)
    requires k < |s| ==> WorkPosition(works, x.workID) < WorkPosition(works, s[k].workID)
    ensures InOrder(s[..k] + [x] + s[k..], works)
  {
    hide WorkPosition;
    var t := s[..k] + [x] + s[k..];
    forall i, j | 0 <= i < j < |t|
      ensures WorkPosition(works, t[i].workID) <= WorkPosition(works, t[j].workID)
    {
      assert i < k ==> t[i] == s[i] && (i < k - 1 ==> WorkPosition(works, s[i].workID) <= WorkPosition(works, s[k - 1].workID));
      assert j > k ==> t[j] == s[j - 1] && (j - 1 > k ==> WorkPosition(works, s[k].workID) <= WorkPosition(works, s[j - 1].workID));
      assert i > k ==> t[i] == s[i - 1];
      assert j < k ==> t[j] == s[j];
    }
  }

  lemma InsertKeeps(s: seq<WorkResult>, k: nat, x: WorkResult)
    requires k <= |s|
    ensures multiset(s[..k] + [x] + s[k..]) == multiset(s) + multiset{x}
  {
    assert s == s[..k] + s[k..];
  }

  lemma EmptyInOrder(works: seq<Work>)
    ensures InOrder([], works) && Distinct([], IDOf())
  {
  }

  lemma InsertDistinct(items: seq<WorkResult>, n: nat, s: seq<WorkResult>, k: nat)
    requires n < |items| && Distinct(items, IDOf()) && multiset(s) == multiset(items[..n])
    requires Distinct(s, IDOf()) && k <= |s|
    ensures Distinct(s[..k] + [items[n]] + s[k..], IDOf())
  {
    forall i | 0 <= i < |s|
      ensures s[i].workID != items[n].workID
    {
      assert s[i] in multiset(items[..n]);
      assert s[i] in items[..n];
    }
    var t := s[..k] + [items[n]] + s[k..];
    forall i, j | 0 <= i < j < |t|
      ensures t[i].workID != t[j].workID
    {
      assert i < k ==> t[i] == s[i];
      assert j > k ==> t[j] == s[j - 1];
      assert i > k ==> t[i] == s[i - 1];
      assert j < k ==> t[j] == s[j];
    }
  }

  lemma StrictlyInOrder(items: seq<WorkResult>, works: seq<Work>)
    requires InOrder(items, works) && Distinct(items, IDOf())
    requires forall r :: r in items ==> exists w :: w in works && w.workID == r.workID
    ensures InStrictOrder(items, works)
  {
    forall i, j | 0 <= i < j < |items|
      ensures WorkPosition(works, items[i].workID) < WorkPosition(works, items[j].workID)
    {
      assert items[i] in items;
      assert items[i].workID != items[j].workID;
      var w :| w in works && w.workID == items[i].workID;
      var k :| 0 <= k < |works| && works[k] == w;
      assert WorkPosition(works, items[i].workID) < |works|;
      if WorkPosition(works, items[i].workID) == WorkPosition(works, items[j].workID) {
        SamePositionSameWork(works, items[i].workID, items[j].workID);
      }
    }
  }

  /** The stable sort at the end, by position in the request. */
  method SortByPosition(items: seq<WorkResult>, works: seq<Work>) returns (out: seq<WorkResult>)
    ensures InOrder(out, works) && multiset(out) == multiset(items)
    ensures Distinct(items, IDOf()) ==> Distinct(out, IDOf())
  {
    hide WorkPosition, InOrder, Distinct;
    EmptyInOrder(works);
    out := [];
    ghost var scanned: seq<WorkResult> := [];
    for i := 0 to |items|
      invariant scanned == items[..i] && InOrder(out, works) && multiset(out) == multiset(scanned)
      invariant Distinct(items, IDOf()) ==> Distinct(out, IDOf())
    {
      var x := items[i];
      var k := |out|;
      while k > 0 && WorkPosition(works, x.workID) < WorkPosition(works, out[k - 1].workID)
        invariant 0 <= k <= |out|
        invariant k < |out| ==> WorkPosition(works, x.workID) < WorkPosition(works, out[k].workID)
      {
        k := k - 1;
      }
      InsertInOrder(out, k, x, works);
      InsertKeeps(out, k, x);
      if Distinct(items, IDOf()) {
        InsertDistinct(items, i, out, k);
      }
      TakeNext(items, i);
      scanned := scanned + [x];
      out := out[..k] + [x] + out[k..];
    }
    TakeAll(items);
  }

  lemma SamePositionSameWork(works: seq<Work>, id: string, other: string)
    requires WorkPosition(works, id) == WorkPosition(works, other) < |works|
    ensures id == other
  {
  }

  ghost predicate SubCache(less: map<string, Entry>, cache: map<string, Entry>) {
    forall k :: k in less ==> k in cache && less[k] == cache[k]
  }

  /** The loop of `putCached` over a full cache, in whatever order the entries come. */
  method DropExpired(cache: map<string, Entry>, now: int) returns (left: map<string, Entry>)
    ensures left == Unexpired(cache, now) && |left| <= |cache|
  {
    var rest := cache.Keys;
    left := cache;
    while rest != {}
      invariant rest <= cache.Keys && |left| <= |cache|
      invariant forall k :: k in left <==> k in cache && (k in rest || now <= cache[k].expiresAt)
      invariant forall k :: k in left ==> left[k] == cache[k]
      decreases rest
    {
      var k :| k in rest;
      rest := rest - {k};
      if now > left[k].expiresAt {
        RemoveOne(left, k);
        left := left - {k};
      }
    }
    assert left == Unexpired(cache, now);
  }

  /** Room for one more entry. An entry that has not expired goes only when all 256 have not. */
  method MakeRoom(cache: map<string, Entry>, now: int) returns (room: map<string, Entry>)
    requires |cache| <= 256
    ensures |room| < 256 && SubCache(room, cache)
    ensures |cache| < 256 ==> room == cache
    ensures |cache| == 256 && |Unexpired(cache, now)| < 256 ==> room == Unexpired(cache, now)
    ensures |Unexpired(cache, now)| == 256 ==> exists k :: k in cache && room == Unexpired(cache, now) - {k}
  {
    UnexpiredIsFewer(cache, now);
    room := cache;
    if |room| >= MAX_CACHE_ITEMS {
      room := DropExpired(room, now);
    }
    if |room| >= MAX_CACHE_ITEMS {
      SomeKey(room);
      var k :| k in room;
      RemoveOne(room, k);
      room := room - {k};
    }
  }

  lemma SomeKey<T>(m: map<string, T>)
    requires |m| > 0
    ensures exists k :: k in m
  {
    assert |m.Keys| > 0;
    var k :| k in m.Keys;
  }

  lemma UnexpiredIsFewer(cache: map<string, Entry>, now: int)
    ensures |Unexpired(cache, now)| <= |cache|
  {
    SubsetSize(Unexpired(cache, now).Keys, cache.Keys);
  }

  /** `fingerprint`: the id of the work does not take part. */
  function Fingerprint(digest: (Config, Work) -> string, cfg: Config, work: Work): string {
    digest(cfg, Blank(work))
  }

  /** A cached entry is an answer to just this work under this configuration, from when it was stored. */
  ghost predicate Remembers(history: set<Answer>, now: int, cfg: Config, work: Work, e: Entry) {
    e.expiresAt <= now + 86400 && Answer(cfg, Blank(work), Unnamed(e.result), e.expiresAt - 86400) in history
  }

  ghost predicate CacheHolds(cache: map<string, Entry>, digest: (Config, Work) -> string, history: set<Answer>, now: int) {
    forall cfg, work :: Fingerprint(digest, cfg, work) in cache ==>
      Remembers(history, now, cfg, work, cache[Fingerprint(digest, cfg, work)])
  }

  ghost predicate HistoryFits(history: set<Answer>, yearOf: int -> int, now: int) {
    forall a :: a in history ==> a.at <= now && Fits(a.result, a.work, yearOf(a.at) + 3)
  }

  lemma FewerHold(cache: map<string, Entry>, less: map<string, Entry>, digest: (Config, Work) -> string,
                  history: set<Answer>, now: int)
    requires CacheHolds(cache, digest, history, now) && SubCache(less, cache)
    ensures CacheHolds(less, digest, history, now)
  {
  }

  lemma LaterHolds(cache: map<string, Entry>, digest: (Config, Work) -> string, history: set<Answer>,
                   yearOf: int -> int, now: int, later: int)
    requires CacheHolds(cache, digest, history, now) && HistoryFits(history, yearOf, now) && now <= later
    ensures CacheHolds(cache, digest, history, later) && HistoryFits(history, yearOf, later)
  {
  }

  lemma PutHolds(cache: map<string, Entry>, digest: (Config, Work) -> string, history: set<Answer>, yearOf: int -> int,
                 now: int, cfg: Config, work: Work, r: WorkResult)
    requires Injective(digest) && CacheHolds(cache, digest, history, now) && HistoryFits(history, yearOf, now)
    requires Fits(r, work, yearOf(now) + 3)
    ensures var after := history + {Answer(cfg, Blank(work), Unnamed(r), now)};
            && CacheHolds(cache[Fingerprint(digest, cfg, work) := Entry(r, now + 86400)], digest, after, now)
            && HistoryFits(after, yearOf, now)
  {
    FitsWithoutID(r, work, "", yearOf(now) + 3, yearOf(now) + 3);
    hide Fits;
  }

  /** The cache serves every work that one of these results is for. */
  ghost predicate AllHit(cache: map<string, Entry>, now: int, digest: (Config, Work) -> string, cfg: Config, chunk: seq<Work>,
                         items: seq<WorkResult>) {
    forall r, w :: r in items && w in chunk && w.workID == r.workID ==> Hit(cache, now, Fingerprint(digest, cfg, w))
  }

  lemma NoneHit(cache: map<string, Entry>, now: int, digest: (Config, Work) -> string, cfg: Config, chunk: seq<Work>)
    ensures AllHit(cache, now, digest, cfg, chunk, [])
  {
  }

  lemma HitMore(cache: map<string, Entry>, now: int, digest: (Config, Work) -> string, cfg: Config, chunk: seq<Work>,
                items: seq<WorkResult>, r: WorkResult, w: Work)
    requires AllHit(cache, now, digest, cfg, chunk, items) && Distinct(chunk, WorkIDOf()) && w in chunk && w.workID == r.workID
    ensures AllHit(cache[Fingerprint(digest, cfg, w) := Entry(r, now + 86400)], now, digest, cfg, chunk, items + [r])
  {
    var after := cache[Fingerprint(digest, cfg, w) := Entry(r, now + 86400)];
    forall x, v | x in items + [r] && v in chunk && v.workID == x.workID
      ensures Hit(after, now, Fingerprint(digest, cfg, v))
    {
      if x !in items {
        SameIDSameWork(chunk, v, w);
      }
    }
  }

  /** `findWork`. */
  method FindWork(works: seq<Work>, id: string) returns (r: Option<Work>)
    ensures r.Some? ==> r.value in works && r.value.workID == id
    ensures r == None ==> forall w :: w in works ==> w.workID != id
  {
    for i := 0 to |works|
      invariant forall k :: 0 <= k < i ==> works[k].workID != id
    {
      if works[i].workID == id {
        return Some(works[i]);
      }
    }
    r := None;
  }

  lemma SameIDSameWork(works: seq<Work>, v: Work, w: Work)
    requires Distinct(works, WorkIDOf()) && v in works && w in works && v.workID == w.workID
    ensures v == w
  {
    var i :| 0 <= i < |works| && works[i] == v;
    var j :| 0 <= j < |works| && works[j] == w;
    assert i < j || j < i || i == j;
  }

  /** The result meets the rules for some work of the chunk. */
  ghost predicate FitsIn(r: WorkResult, chunk: seq<Work>, maxYear: int) {
    exists w :: w in chunk && w.workID == r.workID && Fits(r, w, maxYear)
  }

  lemma ValidatedFits(chunk: seq<Work>, items: seq<WorkResult>, maxYear: int, lower: string -> string)
    requires KeepsWords(lower)
    ensures var out := Validated(AllowedWorks(chunk), items, maxYear, lower);
            (forall r :: r in out ==> FitsIn(r, chunk, maxYear)) && Distinct(out, IDOf())
  {
    AllowedWorksAre(chunk);
    ValidatedMeaning(AllowedWorks(chunk), items, maxYear, lower);
    var out := Validated(AllowedWorks(chunk), items, maxYear, lower);
    hide Fits, Validated;
    forall r | r in out
      ensures FitsIn(r, chunk, maxYear)
    {
      var w := AllowedWorks(chunk)[r.workID];
      assert w in chunk && w.workID == r.workID && Fits(r, w, maxYear);
    }
  }

  lemma NoAnswers(history: set<Answer>, cfg: Config, works: seq<Work>, start: int)
    ensures AnswersOf(history, [], cfg, works, start) && Distinct([], IDOf())
  {
  }

  lemma AnswersOne(history: set<Answer>, items: seq<WorkResult>, cfg: Config, works: seq<Work>, start: int, w: Work,
                   r: WorkResult)
    requires AnswersOf(history, items, cfg, works, start) && w in works && w.workID == r.workID
    ensures AnswersOf(history + {Answer(cfg, Blank(w), Unnamed(r), start)}, items + [r], cfg, works, start)
  {
    var after := history + {Answer(cfg, Blank(w), Unnamed(r), start)};
    assert Answer(cfg, Blank(w), Unnamed(r), start) in after;
    assert Given(after, cfg, w, r, start);
    forall x | x in items
      ensures exists v :: v in works && v.workID == x.workID && Given(after, cfg, v, x, start)
    {
      var v :| v in works && v.workID == x.workID && Given(history, cfg, v, x, start);
      assert Given(after, cfg, v, x, start);
    }
  }

  /** A reply comes some time after the request; `None` stands for an error, or an answer that could
      not be read even after it was repaired. */
  datatype ChunkReply = ChunkReply(elapsed: nat, answer: Option<seq<WorkResult>>)

  // ----- a model that answers the same about the same work -----

  /** What a model says about a work, whatever its id. */
  type Model = (Config, Work) -> WorkResult

  /** What is kept of that, if it is said while years up to `maxYear` are taken. */
  function Expected(model: Model, cfg: Config, work: Work, maxYear: int, lower: string -> string): WorkResult {
    Cleaned(work, model(cfg, Blank(work)).(workID := work.workID), maxYear, lower)
  }

  /** The entries of the answer for these works are what the model says about them. */
  ghost predicate SteadyAnswer(model: Model, cfg: Config, works: seq<Work>, answer: seq<WorkResult>) {
    forall item, w :: item in answer && w in works && item.workID == w.workID ==> item == model(cfg, Blank(w)).(workID := w.workID)
  }

  ghost predicate SteadyReplies(model: Model, cfg: Config, works: seq<Work>, replies: nat -> ChunkReply) {
    forall k: nat :: replies(k).answer.Some? ==> SteadyAnswer(model, cfg, works, replies(k).answer.value)
  }

  /** Every answer kept so far is what the model says, cleaned as of the time it was given. */
  ghost predicate Backed(history: set<Answer>, model: Model, yearOf: int -> int, lower: string -> string) {
    forall a :: a in history ==> a.result == Expected(model, a.cfg, a.work, yearOf(a.at) + 3, lower)
  }

  /** The result is what the model says about the work, cleaned as of some time since a day before `start`. */
  ghost predicate AsModel(r: WorkResult, w: Work, model: Model, cfg: Config, start: int, now: int, yearOf: int -> int, lower: string -> string) {
    exists at :: start - 86400 <= at <= now && r == Expected(model, cfg, w, yearOf(at) + 3, lower)
  }

  ghost predicate AllAsModel(items: seq<WorkResult>, works: seq<Work>, model: Model, cfg: Config, start: int, now: int,
                             yearOf: int -> int, lower: string -> string)
  {
    forall r :: r in items ==> exists w :: w in works && w.workID == r.workID && AsModel(r, w, model, cfg, start, now, yearOf, lower)
  }

  /** What is kept does not depend on the id of the work. */
  lemma ExpectedOfBlank(model: Model, cfg: Config, work: Work, maxYear: int, lower: string -> string)
    ensures Unnamed(Expected(model, cfg, work, maxYear, lower)) == Expected(model, cfg, Blank(work), maxYear, lower)
  {
    assert Blank(Blank(work)) == Blank(work) && Sources(Blank(work)) == Sources(work);
  }

  /** A result that stands behind a kept answer, from the cache or not, is what the model says about the
      work, cleaned as of the time of that answer. */
  lemma CacheAgrees(history: set<Answer>, model: Model, cfg: Config, w: Work, r: WorkResult, start: int, now: int,
                    yearOf: int -> int, lower: string -> string)
    requires Backed(history, model, yearOf, lower) && HistoryFits(history, yearOf, now)
    requires Given(history, cfg, w, r, start) && r.workID == w.workID
    ensures AsModel(r, w, model, cfg, start, now, yearOf, lower)
  {
    var at :| Answer(cfg, Blank(w), Unnamed(r), at) in history && start <= at + 86400;
    hide Cleaned, Fits;
    var a := Answer(cfg, Blank(w), Unnamed(r), at);
    assert a in history && a.at <= now;
    ExpectedOfBlank(model, cfg, w, yearOf(at) + 3, lower);
    var e := Expected(model, cfg, w, yearOf(at) + 3, lower);
    ExpectedID(model, cfg, w, yearOf(at) + 3, lower);
    assert Unnamed(r) == Unnamed(e);
    assert r == Unnamed(r).(workID := w.workID) == e;
  }

  lemma ExpectedID(model: Model, cfg: Config, work: Work, maxYear: int, lower: string -> string)
    ensures Expected(model, cfg, work, maxYear, lower).workID == work.workID
  {
  }

  /** The time of the answer matters only for a year that was too far ahead then and is not any more. */
  lemma YearDecides(model: Model, cfg: Config, w: Work, earlier: int, later: int, lower: string -> string)
    requires earlier <= later
    ensures var said := model(cfg, Blank(w));
            Expected(model, cfg, w, earlier, lower) == Expected(model, cfg, w, later, lower) <==>
            !(&& said.recognized && Trim(said.title) != "" && |Trim(said.title)| <= 200
              && said.year.Some? && said.year.value >= 1870 && earlier < said.year.value <= later)
  {
  }

  /** Within one year the results are just those of a service without a cache. */
  lemma SameYearAgrees(r: WorkResult, w: Work, model: Model, cfg: Config, start: int, now: int, yearOf: int -> int,
                       lower: string -> string)
    requires AsModel(r, w, model, cfg, start, now, yearOf, lower) && Monotone(yearOf) && yearOf(start - 86400) == yearOf(now)
    ensures r == Expected(model, cfg, w, yearOf(now) + 3, lower)
  {
    hide Cleaned, Expected;
    var at :| start - 86400 <= at <= now && r == Expected(model, cfg, w, yearOf(at) + 3, lower);
    assert yearOf(start - 86400) <= yearOf(at) <= yearOf(now);
  }

  /** The answers kept since `history0` are those of one chunk. */
  ghost predicate NewAnswers(history0: set<Answer>, history: set<Answer>, valid: seq<WorkResult>, chunk: seq<Work>, cfg: Config, now: int) {
    forall a :: a in history && a !in history0 ==>
      exists r, w :: r in valid && w in chunk && w.workID == r.workID && a == Answer(cfg, Blank(w), Unnamed(r), now)
  }

  lemma NoNewAnswers(history: set<Answer>, valid: seq<WorkResult>, chunk: seq<Work>, cfg: Config, now: int)
    ensures NewAnswers(history, history, valid, chunk, cfg, now)
  {
  }

  lemma NothingKept(model: Model, yearOf: int -> int, lower: string -> string)
    ensures Backed({}, model, yearOf, lower)
  {
  }

  lemma NewAnswersOne(history0: set<Answer>, history: set<Answer>, valid: seq<WorkResult>, chunk: seq<Work>,
                      cfg: Config, now: int, w: Work, r: WorkResult)
    requires NewAnswers(history0, history, valid, chunk, cfg, now) && w in chunk && r in valid && w.workID == r.workID
    ensures NewAnswers(history0, history + {Answer(cfg, Blank(w), Unnamed(r), now)}, valid, chunk, cfg, now)
  {
  }

  lemma ValidatedFrom(works: map<string, Work>, items: seq<WorkResult>, maxYear: int, lower: string -> string,
                      r: WorkResult)
    returns (item: WorkResult)
    requires r in Validated(works, items, maxYear, lower)
    ensures item in items && item.workID in works && item.workID == r.workID && r == Cleaned(works[item.workID], item, maxYear, lower)
  {
    var out, t := Validated(works, items, maxYear, lower), Firsts(items, KnownIn(works), IDOf());
    FirstsAre(items, KnownIn(works), IDOf());
    var i :| 0 <= i < |out| && out[i] == r;
    item := t[i];
    assert item in t;
  }

  lemma ChunkBacked(history0: set<Answer>, history: set<Answer>, model: Model, yearOf: int -> int,
                    lower: string -> string, cfg: Config, chunk: seq<Work>, answer: seq<WorkResult>, now: int)
    requires Backed(history0, model, yearOf, lower) && SteadyAnswer(model, cfg, chunk, answer) && Distinct(chunk, WorkIDOf())
    requires NewAnswers(history0, history, Validated(AllowedWorks(chunk), answer, yearOf(now) + 3, lower), chunk, cfg, now)
    ensures Backed(history, model, yearOf, lower)
  {
    hide Cleaned, Validated, Distinct;
    AllowedWorksAre(chunk);
    var valid := Validated(AllowedWorks(chunk), answer, yearOf(now) + 3, lower);
    forall a | a in history
      ensures a.result == Expected(model, a.cfg, a.work, yearOf(a.at) + 3, lower)
    {
      if a !in history0 {
        var r, w :| r in valid && w in chunk && w.workID == r.workID && a == Answer(cfg, Blank(w), Unnamed(r), now);
        var item := ValidatedFrom(AllowedWorks(chunk), answer, yearOf(now) + 3, lower, r);
        ExpectedOfBlank(model, cfg, w, yearOf(now) + 3, lower);
      }
    }
  }

  lemma ReplyBacked(history0: set<Answer>, history: set<Answer>, model: Model, yearOf: int -> int,
                    lower: string -> string, cfg: Config, works: seq<Work>, chunk: seq<Work>, rest: seq<Work>,
                    replies: nat -> ChunkReply, k: nat, now: int, items: seq<WorkResult>)
    requires SteadyReplies(model, cfg, works, replies) && Backed(history0, model, yearOf, lower)
    requires Distinct(chunk, WorkIDOf()) && forall w :: w in chunk + rest ==> w in works
    requires NewAnswers(history0, history, items, chunk, cfg, now)
    requires if replies(k).answer == None then history == history0
             else items == Validated(AllowedWorks(chunk), replies(k).answer.value, yearOf(now) + 3, lower)
    ensures Backed(history, model, yearOf, lower)
  {
    if replies(k).answer.Some? {
      hide Validated, Distinct, AllowedWorks, Backed, NewAnswers;
      assert SteadyAnswer(model, cfg, works, replies(k).answer.value);
      forall w | w in chunk
        ensures w in works
      {
        assert w in chunk + rest;
      }
      ChunkBacked(history0, history, model, yearOf, lower, cfg, chunk, replies(k).answer.value, now);
    }
  }

  lemma AllAgree(history: set<Answer>, items: seq<WorkResult>, works: seq<Work>, model: Model, cfg: Config, start: int,
                 now: int, yearOf: int -> int, lower: string -> string, maxYear: int)
    requires Backed(history, model, yearOf, lower) && HistoryFits(history, yearOf, now)
    requires AllResults(items, works, history, cfg, start, maxYear)
    ensures AllAsModel(items, works, model, cfg, start, now, yearOf, lower)
  {
    hide Backed, HistoryFits, Given, Fits, AsModel;
    forall r | r in items
      ensures exists w :: w in works && w.workID == r.workID && AsModel(r, w, model, cfg, start, now, yearOf, lower)
    {
      var w :| w in works && ResultFor(r, w, history, cfg, start, maxYear);
      CacheAgrees(history, model, cfg, w, r, start, now, yearOf, lower);
    }
  }

  // ----- what the cache answers -----

  /** The two caches serve the same. */
  ghost predicate SameHits(cache0: map<string, Entry>, cache: map<string, Entry>, now: int) {
    forall k :: (Hit(cache0, now, k) <==> Hit(cache, now, k)) && (Hit(cache0, now, k) && Hit(cache, now, k) ==> cache0[k] == cache[k])
  }

  /** Where the cache would answer, its result under the id of this work is there; the others wait. */
  ghost predicate Placed(items: seq<WorkResult>, pending: seq<Work>, w: Work, cache: map<string, Entry>, now: int, key: string) {
    if Hit(cache, now, key) then cache[key].result.(workID := w.workID) in items else w in pending
  }

  ghost predicate Apart(items: seq<WorkResult>, pending: seq<Work>) {
    && Distinct(items, IDOf()) && Distinct(pending, WorkIDOf())
    && forall r, w :: r in items && w in pending ==> r.workID != w.workID
  }

  /** Every work has its place, and no id occurs twice. */
  ghost predicate Parted(items: seq<WorkResult>, pending: seq<Work>, works: seq<Work>, cache: map<string, Entry>, now: int,
                         digest: (Config, Work) -> string, cfg: Config) {
    && |items| + |pending| == |works| && Apart(items, pending)
    && (forall r :: r in items ==> exists w :: w in works && w.workID == r.workID)
    && (forall w :: w in pending ==> w in works && !Hit(cache, now, Fingerprint(digest, cfg, w)))
    && (forall w :: w in works ==> Placed(items, pending, w, cache, now, Fingerprint(digest, cfg, w)))
  }

  lemma NewID(works: seq<Work>, w: Work)
    requires Distinct(works + [w], WorkIDOf())
    ensures Distinct(works, WorkIDOf()) && forall v :: v in works ==> v.workID != w.workID
  {
    forall v | v in works
      ensures v.workID != w.workID
    {
      var i :| 0 <= i < |works| && works[i] == v;
      assert (works + [w])[i] == v && (works + [w])[|works|] == w;
    }
    assert forall i :: 0 <= i < |works| ==> (works + [w])[i] == works[i];
  }

  lemma ApartHit(items: seq<WorkResult>, pending: seq<Work>, r: WorkResult)
    requires Apart(items, pending)
    requires (forall x :: x in items ==> x.workID != r.workID) && (forall w :: w in pending ==> w.workID != r.workID)
    ensures Apart(items + [r], pending)
  {
    assert Distinct([r], IDOf());
    DistinctJoin(items, [r]);
  }

  lemma ApartMiss(items: seq<WorkResult>, pending: seq<Work>, w: Work)
    requires Apart(items, pending)
    requires (forall x :: x in items ==> x.workID != w.workID) && (forall v :: v in pending ==> v.workID != w.workID)
    ensures Apart(items, pending + [w])
  {
    forall i, j | 0 <= i < j < |pending + [w]|
      ensures (pending + [w])[i].workID != (pending + [w])[j].workID
    {
      assert pending[i] in pending;
    }
  }

  lemma PlacedMore(items: seq<WorkResult>, pending: seq<Work>, more: seq<WorkResult>, later: seq<Work>,
                   works: seq<Work>, cache: map<string, Entry>, now: int, digest: (Config, Work) -> string, cfg: Config,
                   w: Work)
    requires (forall r :: r in items ==> r in more) && (forall v :: v in pending ==> v in later)
    requires forall v :: v in works ==> Placed(items, pending, v, cache, now, Fingerprint(digest, cfg, v))
    requires Placed(more, later, w, cache, now, Fingerprint(digest, cfg, w))
    ensures forall v :: v in works + [w] ==> Placed(more, later, v, cache, now, Fingerprint(digest, cfg, v))
  {
    hide Fingerprint;
    forall v | v in works + [w]
      ensures Placed(more, later, v, cache, now, Fingerprint(digest, cfg, v))
    {
      if v in works {
        assert Placed(items, pending, v, cache, now, Fingerprint(digest, cfg, v));
      }
    }
  }

  lemma NamesMore(items: seq<WorkResult>, works: seq<Work>, w: Work)
    requires forall r :: r in items ==> exists v :: v in works && v.workID == r.workID
    ensures forall r :: r in items || r.workID == w.workID ==> exists v :: v in works + [w] && v.workID == r.workID
  {
    assert w in works + [w];
    forall r | r in items
      ensures exists v :: v in works + [w] && v.workID == r.workID
    {
      var v :| v in works && v.workID == r.workID;
      assert v in works + [w];
    }
  }

  lemma PartedHit(items: seq<WorkResult>, pending: seq<Work>, works: seq<Work>, cache: map<string, Entry>, now: int,
                  digest: (Config, Work) -> string, cfg: Config, w: Work)
    requires Parted(items, pending, works, cache, now, digest, cfg) && Distinct(works + [w], WorkIDOf())
    requires Hit(cache, now, Fingerprint(digest, cfg, w))
    ensures Parted(items + [cache[Fingerprint(digest, cfg, w)].result.(workID := w.workID)], pending, works + [w], cache, now, digest, cfg)
  {
    hide Fingerprint, Distinct, Apart;
    NewID(works, w);
    var r := cache[Fingerprint(digest, cfg, w)].result.(workID := w.workID);
    ApartHit(items, pending, r);
    NamesMore(items, works, w);
    PlacedMore(items, pending, items + [r], pending, works, cache, now, digest, cfg, w);
  }

  lemma PartedMiss(items: seq<WorkResult>, pending: seq<Work>, works: seq<Work>, cache: map<string, Entry>, now: int,
                   digest: (Config, Work) -> string, cfg: Config, w: Work)
    requires Parted(items, pending, works, cache, now, digest, cfg) && Distinct(works + [w], WorkIDOf())
    requires !Hit(cache, now, Fingerprint(digest, cfg, w))
    ensures Parted(items, pending + [w], works + [w], cache, now, digest, cfg)
  {
    hide Fingerprint, Distinct, Apart;
    NewID(works, w);
    ApartMiss(items, pending, w);
    NamesMore(items, works, w);
    PlacedMore(items, pending, items, pending + [w], works, cache, now, digest, cfg, w);
  }

  /** A cached result is an answer to this work that the cache may still serve. */
  lemma HitIsGiven(cache: map<string, Entry>, digest: (Config, Work) -> string, history: set<Answer>, now: int,
                   cfg: Config, w: Work)
    requires CacheHolds(cache, digest, history, now) && Hit(cache, now, Fingerprint(digest, cfg, w))
    ensures Given(history, cfg, w, cache[Fingerprint(digest, cfg, w)].result.(workID := w.workID), now)
  {
    var e := cache[Fingerprint(digest, cfg, w)];
    assert Remembers(history, now, cfg, w, e);
    assert Unnamed(e.result.(workID := w.workID)) == Unnamed(e.result);
  }

  lemma AnswersMore(history: set<Answer>, items: seq<WorkResult>, cfg: Config, works: seq<Work>, start: int, w: Work,
                    r: WorkResult)
    requires AnswersOf(history, items, cfg, works, start)
    requires r.workID == w.workID && Given(history, cfg, w, r, start)
    ensures AnswersOf(history, items, cfg, works + [w], start)
    ensures AnswersOf(history, items + [r], cfg, works + [w], start)
  {
    assert w in works + [w];
    forall x | x in items
      ensures exists v :: v in works + [w] && v.workID == x.workID && Given(history, cfg, v, x, start)
    {
      var v :| v in works && v.workID == x.workID && Given(history, cfg, v, x, start);
      assert v in works + [w];
    }
  }

  lemma DistinctPrefix(works: seq<Work>, n: nat)
    requires Distinct(works, WorkIDOf()) && n <= |works|
    ensures Distinct(works[..n], WorkIDOf())
  {
    assert forall i :: 0 <= i < n ==> works[..n][i] == works[i];
  }

  lemma NothingYet(cache: map<string, Entry>, now: int, digest: (Config, Work) -> string, cfg: Config,
                   history: set<Answer>)
    ensures Parted([], [], [], cache, now, digest, cfg) && SameHits(cache, cache, now)
    ensures AnswersOf(history, [], cfg, [], now)
  {
  }

  lemma DropKeepsHits(cache0: map<string, Entry>, cache: map<string, Entry>, now: int, key: string)
    requires SameHits(cache0, cache, now) && !Hit(cache, now, key)
    ensures SameHits(cache0, cache - {key}, now)
  {
  }

  lemma HitsAgree(cache0: map<string, Entry>, cache: map<string, Entry>, now: int, key: string)
    requires SameHits(cache0, cache, now)
    ensures Hit(cache0, now, key) <==> Hit(cache, now, key)
    ensures Hit(cache, now, key) ==> cache0[key] == cache[key]
  {
  }

  /** The works that the cache does not serve, in their order. */
  ghost function Unserved(works: seq<Work>, cache: map<string, Entry>, now: int, digest: (Config, Work) -> string, cfg: Config): seq<Work> {
    if works == [] then []
    else
      var w := works[|works| - 1];
      Unserved(works[..|works| - 1], cache, now, digest, cfg) + (if Hit(cache, now, Fingerprint(digest, cfg, w)) then [] else [w])
  }

  lemma UnservedMore(works: seq<Work>, w: Work, cache: map<string, Entry>, now: int, digest: (Config, Work) -> string,
                     cfg: Config)
    ensures Unserved(works + [w], cache, now, digest, cfg) ==
            Unserved(works, cache, now, digest, cfg) + (if Hit(cache, now, Fingerprint(digest, cfg, w)) then [] else [w])
  {
    assert (works + [w])[..|works|] == works;
  }

  lemma {:induction false} AllUnserved(works: seq<Work>, cache: map<string, Entry>, now: int,
                                       digest: (Config, Work) -> string, cfg: Config)
    requires NoHits(works, cache, now, digest, cfg)
    ensures Unserved(works, cache, now, digest, cfg) == works
  {
    hide Fingerprint, Hit;
    if works != [] {
      var before, w := works[..|works| - 1], works[|works| - 1];
      assert works == before + [w];
      NoHitsOf(before, w, cache, now, digest, cfg);
      AllUnserved(before, cache, now, digest, cfg);
      UnservedMore(before, w, cache, now, digest, cfg);
    }
  }

  lemma NoHitsOf(works: seq<Work>, w: Work, cache: map<string, Entry>, now: int, digest: (Config, Work) -> string,
                 cfg: Config)
    requires NoHits(works + [w], cache, now, digest, cfg)
    ensures NoHits(works, cache, now, digest, cfg) && !Hit(cache, now, Fingerprint(digest, cfg, w))
  {
    hide Fingerprint, Hit;
    assert w in works + [w];
    forall v | v in works
      ensures !Hit(cache, now, Fingerprint(digest, cfg, v))
    {
      assert v in works + [w];
    }
  }

  // ----- the chunks -----

  /** The results so far and the works still to be asked about have different ids; the results are
      answers to works of the request. */
  ghost predicate Collected(history: set<Answer>, items: seq<WorkResult>, rest: seq<Work>, works: seq<Work>, cfg: Config, start: int) {
    && AnswersOf(history, items, cfg, works, start) && Apart(items, rest)
    && forall w :: w in rest ==> w in works
  }

  lemma CollectChunk(history0: set<Answer>, history: set<Answer>, items: seq<WorkResult>, more: seq<WorkResult>,
                     chunk: seq<Work>, rest: seq<Work>, works: seq<Work>, cfg: Config, start: int, later: int)
    requires Collected(history0, items, chunk + rest, works, cfg, start) && history0 <= history && start <= later
    requires AnswersOf(history, more, cfg, chunk, later) && Distinct(more, IDOf())
    ensures Collected(history, items + more, rest, works, cfg, start)
  {
    hide Distinct, Given;
    ChunkApart(items, more, chunk, rest, history, cfg, later);
    AnswersJoin(history0, history, items, more, cfg, works, chunk, start, later);
    forall r | r in items + more
      ensures exists x :: x in works && x.workID == r.workID && Given(history, cfg, x, r, start)
    {
      var x :| x in works + chunk && x.workID == r.workID && Given(history, cfg, x, r, start);
      assert x in chunk ==> x in chunk + rest;
      assert x in works;
    }
    forall w | w in rest
      ensures w in works
    {
      assert w in chunk + rest;
    }
  }

  lemma ChunkApart(items: seq<WorkResult>, more: seq<WorkResult>, chunk: seq<Work>, rest: seq<Work>,
                   history: set<Answer>, cfg: Config, later: int)
    requires Apart(items, chunk + rest) && Distinct(more, IDOf()) && AnswersOf(history, more, cfg, chunk, later)
    ensures Apart(items + more, rest)
  {
    forall r, s | r in items && s in more
      ensures r.workID != s.workID
    {
      var w :| w in chunk && w.workID == s.workID;
      assert w in chunk + rest;
    }
    DistinctJoin(items, more);
    forall s, v | s in more && v in rest
      ensures s.workID != v.workID
    {
      var w :| w in chunk && w.workID == s.workID;
      DistinctHalves(chunk, rest, w, v);
    }
    assert forall v :: v in rest ==> v in chunk + rest;
    assert forall i :: 0 <= i < |rest| ==> (chunk + rest)[|chunk| + i] == rest[i];
  }

  lemma DistinctHalves(chunk: seq<Work>, rest: seq<Work>, w: Work, v: Work)
    requires Distinct(chunk + rest, WorkIDOf()) && w in chunk && v in rest
    ensures w.workID != v.workID
  {
    var i :| 0 <= i < |chunk| && chunk[i] == w;
    var j :| 0 <= j < |rest| && rest[j] == v;
    assert (chunk + rest)[i] == w && (chunk + rest)[|chunk| + j] == v;
  }

  lemma ChunkIsDistinct(items: seq<WorkResult>, chunk: seq<Work>, rest: seq<Work>)
    requires Apart(items, chunk + rest)
    ensures Distinct(chunk, WorkIDOf())
  {
    assert forall i :: 0 <= i < |chunk| ==> (chunk + rest)[i] == chunk[i];
  }

  lemma NextChunk(chunks: seq<seq<Work>>, k: nat)
    requires k < |chunks|
    ensures Flatten(chunks[k..]) == chunks[k] + Flatten(chunks[k + 1..])
  {
    assert chunks[k..][1..] == chunks[k + 1..];
  }

  datatype Outcome = Unavailable | ChunkError | Recognized(items: seq<WorkResult>, cached: nat, failed: nat)

  /** The clock after k requests. */
  function TimeAt(replies: nat -> ChunkReply, start: int, k: nat): int {
    if k == 0 then start else TimeAt(replies, start, k - 1) + replies(k - 1).elapsed
  }

  /** What the replies to the first k chunks amount to. */
  function Answered(chunks: seq<seq<Work>>, k: nat, replies: nat -> ChunkReply, start: int, yearOf: int -> int,
                    lower: string -> string): seq<WorkResult>
    requires k <= |chunks|
  {
    if k == 0 then []
    else
      Answered(chunks, k - 1, replies, start, yearOf, lower)
      + (if replies(k - 1).answer == None then []
         else Validated(AllowedWorks(chunks[k - 1]), replies(k - 1).answer.value, yearOf(TimeAt(replies, start, k)) + 3, lower))
  }

  /** The works of the chunks that failed. */
  function FailedCount(chunks: seq<seq<Work>>, k: nat, replies: nat -> ChunkReply): nat
    requires k <= |chunks|
  {
    if k == 0 then 0 else FailedCount(chunks, k - 1, replies) + (if replies(k - 1).answer == None then |chunks[k - 1]| else 0)
  }

  /** One more chunk. */
  lemma AnsweredNext(chunks: seq<seq<Work>>, k: nat, replies: nat -> ChunkReply, start: int, yearOf: int -> int,
                     lower: string -> string, items0: seq<WorkResult>, items: seq<WorkResult>, more: seq<WorkResult>)
    requires k < |chunks| && items == items0 + Answered(chunks, k, replies, start, yearOf, lower)
    requires if replies(k).answer == None then more == []
             else more == Validated(AllowedWorks(chunks[k]), replies(k).answer.value,
                                   yearOf(TimeAt(replies, start, k) + replies(k).elapsed) + 3, lower)
    ensures items + more == items0 + Answered(chunks, k + 1, replies, start, yearOf, lower)
    ensures TimeAt(replies, start, k + 1) == TimeAt(replies, start, k) + replies(k).elapsed
    ensures FailedCount(chunks, k + 1, replies) == FailedCount(chunks, k, replies) + (if replies(k).answer == None then |chunks[k]| else 0)
  {
    hide Validated, AllowedWorks;
    AppendAssoc(items0, Answered(chunks, k, replies, start, yearOf, lower), more);
  }

  /** All that a request returns: what the cache knew, and what was answered about the other works, which
      were asked about in as few chunks as possible. */
  ghost predicate Account(r: Outcome, cached: seq<WorkResult>, pending: seq<Work>, chunks: seq<seq<Work>>, encoded: Work -> nat,
                          replies: nat -> ChunkReply, start: int, yearOf: int -> int, lower: string -> string) {
    && r.Recognized? && IsSplit(chunks, pending, (w: Work) => encoded(SampleWork(w))) && IsGreedy(chunks, (w: Work) => encoded(SampleWork(w)))
    && multiset(r.items) == multiset(cached + Answered(chunks, |chunks|, replies, start, yearOf, lower))
    && r.cached == |cached| && r.failed == FailedCount(chunks, |chunks|, replies)
  }

  /** What a request returns about a work: by the rules, and an answer to just this work that was
      given at most a day before the request, or later. */
  ghost predicate ResultFor(r: WorkResult, w: Work, history: set<Answer>, cfg: Config, start: int, maxYear: int) {
    r.workID == w.workID && Fits(r, w, maxYear) && Given(history, cfg, w, r, start)
  }

  lemma GivenFits(r: WorkResult, w: Work, history: set<Answer>, cfg: Config, start: int, yearOf: int -> int, now: int)
    requires Given(history, cfg, w, r, start) && HistoryFits(history, yearOf, now) && Monotone(yearOf)
    ensures Fits(r, w, yearOf(now) + 3)
  {
    var at :| Answer(cfg, Blank(w), Unnamed(r), at) in history && start <= at + 86400;
    FitsUnnamed(r, w, yearOf(at) + 3, yearOf(now) + 3);
  }

  lemma SortedAnswers(history: set<Answer>, items: seq<WorkResult>, sorted: seq<WorkResult>, works: seq<Work>,
                      cfg: Config, start: int, yearOf: int -> int, now: int)
    requires Collected(history, items, [], works, cfg, start) && multiset(sorted) == multiset(items)
    requires InOrder(sorted, works) && (Distinct(items, IDOf()) ==> Distinct(sorted, IDOf()))
    requires HistoryFits(history, yearOf, now) && Monotone(yearOf)
    ensures InStrictOrder(sorted, works) && AllResults(sorted, works, history, cfg, start, yearOf(now) + 3)
  {
    hide InOrder, Distinct, Fits, Monotone, HistoryFits, InStrictOrder, Given;
    forall r | r in sorted
      ensures exists w :: w in works && ResultFor(r, w, history, cfg, start, yearOf(now) + 3)
    {
      assert r in multiset(sorted);
      assert r in items;
      var w :| w in works && w.workID == r.workID && Given(history, cfg, w, r, start);
      GivenFits(r, w, history, cfg, start, yearOf, now);
      assert ResultFor(r, w, history, cfg, start, yearOf(now) + 3);
    }
    forall r | r in sorted
      ensures exists w :: w in works && w.workID == r.workID
    {
      var w :| w in works && ResultFor(r, w, history, cfg, start, yearOf(now) + 3);
      assert w.workID == r.workID;
    }
    StrictlyInOrder(sorted, works);
  }

  /** Every result is one for some work of the request. */
  ghost predicate AllResults(items: seq<WorkResult>, works: seq<Work>, history: set<Answer>, cfg: Config, start: int, maxYear: int) {
    forall r :: r in items ==> exists w :: w in works && ResultFor(r, w, history, cfg, start, maxYear)
  }

  /** The cached result of every work that the cache knew is returned, under the id of the work. */
  ghost predicate HitsIn(items: seq<WorkResult>, works: seq<Work>, cache: map<string, Entry>, now: int, digest: (Config, Work) -> string,
                         cfg: Config) {
    forall w :: w in works && Hit(cache, now, Fingerprint(digest, cfg, w)) ==>
      cache[Fingerprint(digest, cfg, w)].result.(workID := w.workID) in items
  }

  ghost predicate NoHits(works: seq<Work>, cache: map<string, Entry>, now: int, digest: (Config, Work) -> string, cfg: Config) {
    forall w :: w in works ==> !Hit(cache, now, Fingerprint(digest, cfg, w))
  }

  lemma NoneReturned(works: seq<Work>, history: set<Answer>, cfg: Config, start: int, maxYear: int,
                     cache: map<string, Entry>, digest: (Config, Work) -> string, encoded: Work -> nat,
                     replies: nat -> ChunkReply, yearOf: int -> int, lower: string -> string)
    requires works == []
    ensures AllResults([], works, history, cfg, start, maxYear) && HitsIn([], works, cache, start, digest, cfg)
    ensures Parted([], [], works, cache, start, digest, cfg)
    ensures Account(Recognized([], 0, 0), [], [], [], encoded, replies, start, yearOf, lower)
    ensures Unserved(works, cache, start, digest, cfg) == []
  {
  }

  /** The chunks for the model, by the encoded sizes of the samples. */
  method ChunksOf(pending: seq<Work>, encoded: Work -> nat) returns (chunks: seq<seq<Work>>)
    ensures Flatten(chunks) == pending && forall c :: c in chunks ==> c != []
    ensures IsSplit(chunks, pending, (w: Work) => encoded(SampleWork(w))) && IsGreedy(chunks, (w: Work) => encoded(SampleWork(w)))
  {
    var size := (w: Work) => encoded(SampleWork(w));
    chunks := SplitWorks(pending, size);
    assert forall c :: c in chunks ==> ValidChunk(c, size);
  }

  class Service {
    const digest: (Config, Work) -> string
    const lower: string -> string
    const yearOf: int -> int
    const encoded: Work -> nat
    var cache: map<string, Entry>
    var now: int
    /** Every answer kept so far. */
    ghost var history: set<Answer>

    ghost predicate Valid()
      reads this
    {
      && Injective(digest) && Monotone(yearOf) && KeepsWords(lower)
      && |cache| <= 256
      && CacheHolds(cache, digest, history, now) && HistoryFits(history, yearOf, now)
    }

    constructor (digest: (Config, Work) -> string, lower: string -> string, yearOf: int -> int, encoded: Work -> nat,
                 now: int)
      requires Injective(digest) && Monotone(yearOf) && KeepsWords(lower)
      ensures Valid() && cache == map[] && history == {}
    {
      this.digest, this.lower, this.yearOf, this.encoded := digest, lower, yearOf, encoded;
      this.now, cache, history := now, map[], {};
    }

    /** `getCached`: an expired entry is dropped, never served. */
    method GetCached(key: string) returns (r: Option<WorkResult>)
      requires Valid()
      modifies this`cache
      ensures Valid()
      ensures r.Some? <==> key in old(cache) && now <= old(cache)[key].expiresAt
      ensures r.Some? ==> r.value == old(cache)[key].result && cache == old(cache)
      ensures r == None ==> cache == old(cache) - {key}
    {
      hide HistoryFits, Injective, Monotone, KeepsWords;
      if key !in cache || now > cache[key].expiresAt {
        FewerHold(cache, cache - {key}, digest, history, now);
        if key in cache {
          RemoveOne(cache, key);
        }
        cache := cache - {key};
        return None;
      }
      r := Some(cache[key].result);
    }

    /** `putCached` of an answer that was just kept. */
    method PutAnswer(cfg: Config, work: Work, r: WorkResult)
      requires Valid() && Fits(r, work, yearOf(now) + 3)
      modifies this`cache, this`history
      ensures Valid() && history == old(history) + {Answer(cfg, Blank(work), Unnamed(r), now)}
      ensures Fingerprint(digest, cfg, work) in cache && cache[Fingerprint(digest, cfg, work)] == Entry(r, now + 86400)
      ensures |old(cache)| < 256 ==> cache == old(cache)[Fingerprint(digest, cfg, work) := Entry(r, now + 86400)] && |cache| <= |old(cache)| + 1
    {
      hide CacheHolds, HistoryFits, Fits, Injective, Monotone, KeepsWords, Fingerprint, Unexpired, SubCache;
      var less := MakeRoom(cache, now);
      FewerHold(cache, less, digest, history, now);
      PutHolds(less, digest, history, yearOf, now, cfg, work, r);
      var key := Fingerprint(digest, cfg, work);
      PutOne(less, key, Entry(r, now + CACHE_TTL));
      cache := less[key := Entry(r, now + CACHE_TTL)];
      history := history + {Answer(cfg, Blank(work), Unnamed(r), now)};
    }
 
    /** The results of one chunk: each is stored under the fingerprint of its work. */
    method KeepAnswers(cfg: Config, chunk: seq<Work>, valid: seq<WorkResult>) returns (items: seq<WorkResult>)
      requires Valid() && Distinct(chunk, WorkIDOf())
      requires forall r :: r in valid ==> FitsIn(r, chunk, yearOf(now) + 3)
      modifies this`cache, this`history
      ensures Valid() && old(history) <= history && items == valid
      ensures AnswersOf(history, items, cfg, chunk, now) && NewAnswers(old(history), history, items, chunk, cfg, now)
      ensures |old(cache)| + |valid| <= 256 ==> AllHit(cache, now, digest, cfg, chunk, items)
    {
      hide CacheHolds, HistoryFits, Fits, Injective, Monotone, KeepsWords, Fingerprint, Given, NewAnswers, AllHit;
      NoneHit(cache, now, digest, cfg, chunk);
      NoNewAnswers(history, valid, chunk, cfg, now);
      items := [];
      for i := 0 to |valid|
        invariant Valid() && old(history) <= history && items == valid[..i]
        invariant AnswersOf(history, items, cfg, chunk, now) && NewAnswers(old(history), history, valid, chunk, cfg, now)
        invariant |old(cache)| + |valid| <= 256 ==>
                    |cache| <= |old(cache)| + i && AllHit(cache, now, digest, cfg, chunk, items)
      {
        var item := valid[i];
        assert item in valid;
        ghost var w :| w in chunk && w.workID == item.workID && Fits(item, w, yearOf(now) + 3);
        var work := FindWork(chunk, item.workID);
        if work == None {
          continue;
        }
        SameIDSameWork(chunk, work.value, w);
        AnswersOne(history, items, cfg, chunk, now, w, item);
        NewAnswersOne(old(history), history, valid, chunk, cfg, now, w, item);
        ghost var before := cache;
        PutAnswer(cfg, work.value, item);
        if |old(cache)| + |valid| <= 256 {
          HitMore(before, now, digest, cfg, chunk, items, item, w);
        }
        TakeNext(valid, i);
        items := items + [item];
      }
      TakeAll(valid);
    }

    /** One request to the model. */
    method RecognizeChunk(cfg: Config, chunk: seq<Work>, reply: ChunkReply) returns (ok: bool, items: seq<WorkResult>)
      requires Valid() && Distinct(chunk, WorkIDOf())
      modifies this
      ensures Valid() && old(history) <= history && now == old(now) + reply.elapsed
      ensures ok <==> reply.answer.Some?
      ensures ok ==> items == Validated(AllowedWorks(chunk), reply.answer.value, yearOf(now) + 3, lower)
      ensures !ok ==> items == [] && history == old(history) && cache == old(cache)
      ensures AnswersOf(history, items, cfg, chunk, now) && Distinct(items, IDOf())
      ensures NewAnswers(old(history), history, items, chunk, cfg, now)
      ensures |old(cache)| + |items| <= 256 ==> AllHit(cache, now, digest, cfg, chunk, items)
    {
      hide CacheHolds, HistoryFits, Fits, FitsIn, Injective, Monotone, KeepsWords, Fingerprint, Validated,
        AllowedWorks, Given,
        AnswersOf, Distinct, NewAnswers, AllHit;
      NoneHit(cache, now + reply.elapsed, digest, cfg, chunk);
      NoNewAnswers(history, [], chunk, cfg, now + reply.elapsed);
      NoAnswers(history, cfg, chunk, now + reply.elapsed);
      LaterHolds(cache, digest, history, yearOf, now, now + reply.elapsed);
      now := now + reply.elapsed;
      ok, items := false, [];
      if reply.answer == None {
        return;
      }
      var valid := ValidateResults(chunk, reply.answer.value, yearOf(now) + YEARS_AHEAD, lower);
      ValidatedFits(chunk, reply.answer.value, yearOf(now) + 3, lower);
      items := KeepAnswers(cfg, chunk, valid);
      ok := true;
    }

    /** The first pass: what the cache answers, and the works that are left. */
    method TakeCached(cfg: Config, works: seq<Work>) returns (items: seq<WorkResult>, pending: seq<Work>)
      requires Valid() && Distinct(works, WorkIDOf())
      modifies this`cache
      ensures Valid() && Parted(items, pending, works, old(cache), now, digest, cfg)
      ensures AnswersOf(history, items, cfg, works, now)
      ensures pending == Unserved(works, old(cache), now, digest, cfg)
    {
      hide CacheHolds, HistoryFits, Injective, Monotone, KeepsWords, Fingerprint, Parted, AnswersOf, Given, SameHits,
        Distinct;
      items, pending := [], [];
      ghost var scanned: seq<Work> := [];
      NothingYet(cache, now, digest, cfg, history);
      for i := 0 to |works|
        invariant Valid() && scanned == works[..i] && SameHits(old(cache), cache, now)
        invariant Parted(items, pending, scanned, old(cache), now, digest, cfg)
        invariant AnswersOf(history, items, cfg, scanned, now)
        invariant pending == Unserved(scanned, old(cache), now, digest, cfg)
      {
        var work := works[i];
        UnservedMore(scanned, work, old(cache), now, digest, cfg);
        var key := Fingerprint(digest, cfg, work);
        TakeNext(works, i);
        DistinctPrefix(works, i + 1);
        HitsAgree(old(cache), cache, now, key);
        ghost var before := cache;
        var r := GetCached(key);
        if r.Some? {
          HitIsGiven(cache, digest, history, now, cfg, work);
          PartedHit(items, pending, scanned, old(cache), now, digest, cfg, work);
          AnswersMore(history, items, cfg, scanned, now, work, r.value.(workID := work.workID));
          items := items + [r.value.(workID := work.workID)];
        } else {
          DropKeepsHits(old(cache), before, now, key);
          PartedMiss(items, pending, scanned, old(cache), now, digest, cfg, work);
          AnswersOver(history, items, cfg, scanned, now, work);
          pending := pending + [work];
        }
        scanned := scanned + [work];
      }
      TakeAll(works);
    }

    /** The second pass: one request for each chunk. `failed` counts the works of chunks that failed. */
    method RecognizeChunks(cfg: Config, works: seq<Work>, chunks: seq<seq<Work>>, items0: seq<WorkResult>,
                           replies: nat -> ChunkReply, ghost model: Model)
      returns (items: seq<WorkResult>, failed: nat, completed: nat)
      requires Valid() && Collected(history, items0, Flatten(chunks), works, cfg, now)
      requires forall c :: c in chunks ==> c != []
      modifies this
      ensures Valid() && old(history) <= history && old(now) <= now
      ensures Collected(history, items, [], works, cfg, old(now)) && items0 <= items
      ensures failed <= |Flatten(chunks)| && (completed == 0 <==> failed == |Flatten(chunks)|)
      ensures completed == 0 ==> items == items0 && history == old(history)
      ensures completed == 0 <==> forall k :: 0 <= k < |chunks| ==> replies(k).answer == None
      ensures items == items0 + Answered(chunks, |chunks|, replies, old(now), yearOf, lower)
      ensures failed == FailedCount(chunks, |chunks|, replies)
      ensures SteadyReplies(model, cfg, works, replies) && Backed(old(history), model, yearOf, lower) ==>
                Backed(history, model, yearOf, lower)
    {
      hide CacheHolds, HistoryFits, Injective, Monotone, KeepsWords, Fingerprint, AnswersOf, Given, Distinct,
        Collected, Flatten, Validated, Apart,
        Answered, FailedCount, TimeAt, AllowedWorks, NewAnswers, Backed, SteadyReplies;
      NothingAnswered(chunks, replies, now, yearOf, lower, items0);
      items, failed, completed := items0, 0, 0;
      ghost var processed := 0;
      assert chunks[0..] == chunks;
      for k := 0 to |chunks|
        invariant Valid() && old(history) <= history && old(now) <= now
        invariant Collected(history, items, Flatten(chunks[k..]), works, cfg, old(now)) && items0 <= items
        invariant processed + |Flatten(chunks[k..])| == |Flatten(chunks)|
        invariant failed <= processed && (completed == 0 <==> failed == processed)
        invariant completed == 0 ==> items == items0 && history == old(history)
        invariant completed == 0 <==> forall j :: 0 <= j < k ==> replies(j).answer == None
        invariant now == TimeAt(replies, old(now), k) && failed == FailedCount(chunks, k, replies)
        invariant items == items0 + Answered(chunks, k, replies, old(now), yearOf, lower)
        invariant SteadyReplies(model, cfg, works, replies) && Backed(old(history), model, yearOf, lower) ==>
                    Backed(history, model, yearOf, lower)
      {
        var chunk := chunks[k];
        assert chunk in chunks;
        NextChunk(chunks, k);
        ghost var before, rest := history, Flatten(chunks[k + 1..]);
        ApartOf(before, items, chunk + rest, works, cfg, old(now));
        ChunkIsDistinct(items, chunk, rest);
        var ok, more := RecognizeChunk(cfg, chunk, replies(k));
        if SteadyReplies(model, cfg, works, replies) && Backed(before, model, yearOf, lower) {
          ReplyBacked(before, history, model, yearOf, lower, cfg, works, chunk, rest, replies, k, now, more);
        }
        CollectChunk(before, history, items, more, chunk, rest, works, cfg, old(now), now);
        AnsweredNext(chunks, k, replies, old(now), yearOf, lower, items0, items, more);
        processed := processed + |chunk|;
        items := items + more;
        if ok {
          completed := completed + 1;
        } else {
          failed := failed + |chunk|;
        }
      }
      assert Flatten(chunks[|chunks|..]) == [] by {
        NoChunks(chunks);
      }
    }

    /** `EnhanceWithProgress`. */
    method EnhanceWithProgress(available: bool, cfg: Config, works: seq<Work>, replies: nat -> ChunkReply,
                               ghost model: Model)
      returns (r: Outcome)
      requires Valid() && Distinct(works, WorkIDOf())
      modifies this
      ensures Valid() && old(history) <= history && old(now) <= now
      ensures r.Unavailable? <==> !available
      ensures SteadyReplies(model, cfg, works, replies) && Backed(old(history), model, yearOf, lower) ==>
                && Backed(history, model, yearOf, lower)
                && (r.Recognized? ==> AllAsModel(r.items, works, model, cfg, old(now), now, yearOf, lower))
      ensures r.Recognized? ==> InStrictOrder(r.items, works)
      ensures r.Recognized? ==> AllResults(r.items, works, history, cfg, old(now), yearOf(now) + 3)
      ensures r.Recognized? ==> HitsIn(r.items, works, old(cache), old(now), digest, cfg)
      ensures r.Recognized? ==>
                exists cached, pending, chunks ::
                  && Parted(cached, pending, works, old(cache), old(now), digest, cfg)
                  && pending == Unserved(works, old(cache), old(now), digest, cfg)
                  && Account(r, cached, pending, chunks, encoded, replies, old(now), yearOf, lower)
      ensures r.Recognized? ==>
                r.cached + r.failed <= |works| && r.cached <= |r.items| && (works != [] ==> r.failed < |works|)
      ensures r.ChunkError? ==>
                works != [] && history == old(history) && NoHits(works, old(cache), old(now), digest, cfg)
      ensures r.ChunkError? ==> exists chunks :: AllFailed(chunks, works, encoded, replies)
    {
      hide CacheHolds, HistoryFits, Injective, Monotone, KeepsWords, AnswersOf, Distinct, Collected, InOrder,
        InStrictOrder,
        HitsIn, NoHits, Parted, AllResults, IDOf, WorkIDOf, Flatten, Account, IsSplit, IsGreedy, Answered, FailedCount, Placed,
        Unserved, AllFailed, Backed, SteadyReplies, AllAsModel;
      if !available {
        return Unavailable;
      }
      if |works| == 0 {
        EmptyInOrder(works);
        NoResults(works, model, cfg, now, yearOf, lower);
        NoneReturned(works, history, cfg, now, yearOf(now) + 3, cache, digest, encoded, replies, yearOf,
                     lower);
        return Recognized([], 0, 0);
      }
      var cached, pending := TakeCached(cfg, works);
      var chunks := ChunksOf(pending, encoded);
      StartCollecting(history, cached, pending, works, old(cache), now, digest, cfg);
      var items, failed, completed := RecognizeChunks(cfg, works, chunks, cached, replies, model);
      if completed == 0 && |pending| > 0 && |items| == 0 {
        NothingHit(cached, pending, works, old(cache), old(now), digest, cfg);
        AllUnserved(works, old(cache), old(now), digest, cfg);
        NoneAnswered(chunks, works, encoded, replies);
        return ChunkError;
      }
      var sorted := SortByPosition(items, works);
      SortedAnswers(history, items, sorted, works, cfg, old(now), yearOf, now);
      HitsReturned(cached, pending, works, old(cache), old(now), digest, cfg, items, sorted);
      if Backed(history, model, yearOf, lower) {
        AllAgree(history, sorted, works, model, cfg, old(now), now, yearOf, lower, yearOf(now) + 3);
      }
      r := Recognized(sorted, |cached|, failed);
      AccountIs(r, cached, pending, chunks, encoded, replies, old(now), yearOf, lower, items);
    }

    /** Any number of requests, with whatever works, times and failing calls, starting from an empty
        cache: while the model answers the same about the same work, whatever is returned is that,
        from the cache or not. */
    method ServeAll(requests: seq<Request>, ghost model: Model) returns (outcomes: seq<Outcome>)
      requires Valid() && history == {} && forall q :: q in requests ==> Distinct(q.works, WorkIDOf())
      modifies this
      ensures Valid() && |outcomes| == |requests|
      ensures (forall q :: q in requests ==> SteadyRequest(q, model)) ==>
                forall i :: 0 <= i < |requests| ==> ServedAsModel(outcomes[i], requests[i], model, yearOf, lower)
    {
      hide CacheHolds, HistoryFits, Injective, Monotone, KeepsWords, Distinct, AllAsModel, Backed, SteadyReplies,
        ServedAsModel,
        AllResults, HitsIn, NoHits, Parted, Account, InStrictOrder;
      outcomes := [];
      NothingKept(model, yearOf, lower);
      for i := 0 to |requests|
        invariant Valid() && |outcomes| == i
        invariant (forall q :: q in requests ==> SteadyRequest(q, model)) ==>
                    && Backed(history, model, yearOf, lower)
                    && forall k :: 0 <= k < i ==> ServedAsModel(outcomes[k], requests[k], model, yearOf, lower)
      {
        var q := requests[i];
        assert q in requests;
        LaterHolds(cache, digest, history, yearOf, now, now + q.pause);
        now := now + q.pause;
        ghost var start := now;
        var r := EnhanceWithProgress(q.available, q.cfg, q.works, q.replies, model);
        if forall q :: q in requests ==> SteadyRequest(q, model) {
          assert SteadyRequest(q, model);
          ServedSo(r, q, model, start, now, yearOf, lower);
        }
        outcomes := outcomes + [r];
      }
    }
  }

  // ----- many requests -----

  /** `pause` is the time since the request before. */
  datatype Request = Request(pause: nat, available: bool, cfg: Config, works: seq<Work>, replies: nat -> ChunkReply)

  ghost predicate SteadyRequest(q: Request, model: Model) {
    SteadyReplies(model, q.cfg, q.works, q.replies)
  }

  /** Every result is what the model says about a work of the request, cleaned as of some time. */
  ghost predicate ServedAsModel(r: Outcome, q: Request, model: Model, yearOf: int -> int, lower: string -> string) {
    r.Recognized? ==> exists start, now :: AllAsModel(r.items, q.works, model, q.cfg, start, now, yearOf, lower)
  }

  lemma ServedSo(r: Outcome, q: Request, model: Model, start: int, now: int, yearOf: int -> int,
                 lower: string -> string)
    requires r.Recognized? ==> AllAsModel(r.items, q.works, model, q.cfg, start, now, yearOf, lower)
    ensures ServedAsModel(r, q, model, yearOf, lower)
  {
  }

  lemma AccountIs(r: Outcome, cached: seq<WorkResult>, pending: seq<Work>, chunks: seq<seq<Work>>, encoded: Work -> nat,
                  replies: nat -> ChunkReply, start: int, yearOf: int -> int, lower: string -> string,
                  items: seq<WorkResult>)
    requires r.Recognized? && IsSplit(chunks, pending, (w: Work) => encoded(SampleWork(w)))
    requires IsGreedy(chunks, (w: Work) => encoded(SampleWork(w)))
    requires items == cached + Answered(chunks, |chunks|, replies, start, yearOf, lower) && multiset(r.items) == multiset(items)
    requires r.cached == |cached| && r.failed == FailedCount(chunks, |chunks|, replies)
    ensures Account(r, cached, pending, chunks, encoded, replies, start, yearOf, lower)
  {
  }

  lemma AnswersOver(history: set<Answer>, items: seq<WorkResult>, cfg: Config, works: seq<Work>, start: int, w: Work)
    requires AnswersOf(history, items, cfg, works, start)
    ensures AnswersOf(history, items, cfg, works + [w], start)
  {
    forall x | x in items
      ensures exists v :: v in works + [w] && v.workID == x.workID && Given(history, cfg, v, x, start)
    {
      var v :| v in works && v.workID == x.workID && Given(history, cfg, v, x, start);
      assert v in works + [w];
    }
  }

  lemma ApartOf(history: set<Answer>, items: seq<WorkResult>, rest: seq<Work>, works: seq<Work>, cfg: Config,
                start: int)
    requires Collected(history, items, rest, works, cfg, start)
    ensures Apart(items, rest) && forall w :: w in rest ==> w in works
  {
  }

  lemma NothingAnswered(chunks: seq<seq<Work>>, replies: nat -> ChunkReply, start: int, yearOf: int -> int,
                        lower: string -> string, items: seq<WorkResult>)
    ensures items == items + Answered(chunks, 0, replies, start, yearOf, lower)
    ensures TimeAt(replies, start, 0) == start && FailedCount(chunks, 0, replies) == 0
  {
  }

  lemma NoChunks(chunks: seq<seq<Work>>)
    ensures Flatten(chunks[|chunks|..]) == []
  {
  }

  lemma NoResults(works: seq<Work>, model: Model, cfg: Config, now: int, yearOf: int -> int, lower: string -> string)
    ensures InStrictOrder([], works) && AllAsModel([], works, model, cfg, now, now, yearOf, lower)
  {
  }

  lemma StartCollecting(history: set<Answer>, items: seq<WorkResult>, pending: seq<Work>, works: seq<Work>,
                        cache: map<string, Entry>, now: int, digest: (Config, Work) -> string, cfg: Config)
    requires Parted(items, pending, works, cache, now, digest, cfg) && AnswersOf(history, items, cfg, works, now)
    ensures Collected(history, items, pending, works, cfg, now) && |items| + |pending| == |works|
  {
  }

  /** The works cut into as few chunks as possible, for each of which the request failed. */
  ghost predicate AllFailed(chunks: seq<seq<Work>>, works: seq<Work>, encoded: Work -> nat, replies: nat -> ChunkReply) {
    && IsSplit(chunks, works, (w: Work) => encoded(SampleWork(w))) && IsGreedy(chunks, (w: Work) => encoded(SampleWork(w)))
    && forall k :: 0 <= k < |chunks| ==> replies(k).answer == None
  }

  lemma NoneAnswered(chunks: seq<seq<Work>>, works: seq<Work>, encoded: Work -> nat, replies: nat -> ChunkReply)
    requires IsSplit(chunks, works, (w: Work) => encoded(SampleWork(w))) && IsGreedy(chunks, (w: Work) => encoded(SampleWork(w)))
    requires forall k :: 0 <= k < |chunks| ==> replies(k).answer == None
    ensures AllFailed(chunks, works, encoded, replies)
  {
  }

  lemma NothingHit(items: seq<WorkResult>, pending: seq<Work>, works: seq<Work>, cache: map<string, Entry>, now: int,
                   digest: (Config, Work) -> string, cfg: Config)
    requires Parted(items, pending, works, cache, now, digest, cfg) && items == []
    ensures NoHits(works, cache, now, digest, cfg)
  {
    assert forall w :: w in works ==> Placed(items, pending, w, cache, now, Fingerprint(digest, cfg, w));
  }

  lemma HitsReturned(cached: seq<WorkResult>, pending: seq<Work>, works: seq<Work>, cache: map<string, Entry>, now: int,
                     digest: (Config, Work) -> string, cfg: Config, items: seq<WorkResult>, sorted: seq<WorkResult>)
    requires Parted(cached, pending, works, cache, now, digest, cfg) && cached <= items && multiset(sorted) == multiset(items)
    ensures |sorted| == |items| && HitsIn(sorted, works, cache, now, digest, cfg)
  {
    assert |multiset(sorted)| == |multiset(items)|;
    forall w | w in works && Hit(cache, now, Fingerprint(digest, cfg, w))
      ensures cache[Fingerprint(digest, cfg, w)].result.(workID := w.workID) in sorted
    {
      assert Placed(cached, pending, w, cache, now, Fingerprint(digest, cfg, w));
      var x := cache[Fingerprint(digest, cfg, w)].result.(workID := w.workID);
      assert x in cached && x in items;
      assert x in multiset(items);
      assert x in multiset(sorted);
    }
  }
}
