/** internal/aiorganize/service.go: what is kept of the model's answer about a batch of works. */
module Validation {
  import opened Seqs
  import opened Text
  import opened Wrappers

  datatype File = File(sourceID: string, name: string, relativePath: string, size: int)

  datatype Work = Work(workID: string, directory: string, mediaTypeHint: string, candidateTitle: string,
                       candidateYear: Option<int>, candidateSeason: Option<int>, files: seq<File>)

  datatype FileResult = FileResult(sourceID: string, episode: Option<int>, kind: string)

  datatype WorkResult = WorkResult(workID: string, recognized: bool, title: string, originalTitle: string,
                                   year: Option<int>, mediaType: string, season: Option<int>, files: seq<FileResult>)

  const MAX_TITLE := 200
  const MIN_YEAR := 1870
  const MAX_SEASON := 100
  const MAX_EPISODE := 100000

  const MEDIA_TYPES: set<string> := {"movie", "tv"}
  const KINDS: set<string> := {"episode", "movie", "extra"}

  /** The words of the answer are lower case already. */
  ghost predicate KeepsWords(lower: string -> string) {
    && lower("") == "" && (forall w :: w in MEDIA_TYPES ==> lower(w) == w) && (forall w :: w in KINDS ==> lower(w) == w)
  }

  // ----- the first acceptable entry of each key -----

  function Firsts<T(==)>(s: seq<T>, ok: T -> bool, key: T -> string): seq<T> {
    if s == [] then []
    else
      var before, x := s[..|s| - 1], s[|s| - 1];
      Firsts(before, ok, key) + (if ok(x) && key(x) !in Keys(before, ok, key) then [x] else [])
  }

  /** The keys of the acceptable entries. */
  function Keys<T(==)>(s: seq<T>, ok: T -> bool, key: T -> string): set<string> {
    set x | x in s && ok(x) :: key(x)
  }

  ghost predicate Distinct<T>(s: seq<T>, key: T -> string) {
    forall i, j :: 0 <= i < j < |s| ==> key(s[i]) != key(s[j])
  }

  lemma KeysSnoc<T>(s: seq<T>, x: T, ok: T -> bool, key: T -> string)
    ensures Keys(s + [x], ok, key) == Keys(s, ok, key) + (if ok(x) then {key(x)} else {})
  {
  }

  lemma DistinctSnoc<T>(s: seq<T>, x: T, ok: T -> bool, key: T -> string)
    requires Distinct(s, key) && (forall y :: y in s ==> ok(y)) && key(x) !in Keys(s, ok, key)
    ensures Distinct(s + [x], key)
  {
    forall i, j | 0 <= i < j < |s + [x]|
      ensures key((s + [x])[i]) != key((s + [x])[j])
    {
      assert s[i] in s;
    }
  }

  /** Only acceptable entries are kept, at most one of each key, and one of each key that has any. */
  lemma {:induction false} FirstsAre<T>(s: seq<T>, ok: T -> bool, key: T -> string)
    ensures var t := Firsts(s, ok, key);
            && (forall x :: x in t ==> x in s && ok(x))
            && Distinct(t, key) && Keys(t, ok, key) == Keys(s, ok, key)
  {
    if s != [] {
      var before, x := s[..|s| - 1], s[|s| - 1];
      FirstsAre(before, ok, key);
      assert s == before + [x];
      KeysSnoc(before, x, ok, key);
      if ok(x) && key(x) !in Keys(before, ok, key) {
        KeysSnoc(Firsts(before, ok, key), x, ok, key);
        DistinctSnoc(Firsts(before, ok, key), x, ok, key);
      }
    }
  }

  /** The order is kept: what is kept of a beginning is the beginning of what is kept. */
  lemma {:induction false} FirstsOfPrefix<T>(s: seq<T>, n: nat, ok: T -> bool, key: T -> string)
    requires n <= |s|
    ensures Firsts(s[..n], ok, key) <= Firsts(s, ok, key)
    decreases |s|
  {
    if n < |s| {
      FirstsOfPrefix(s[..|s| - 1], n, ok, key);
      assert s[..|s| - 1][..n] == s[..n];
    } else {
      TakeAll(s);
    }
  }

  /** Nothing is dropped exactly where every entry is acceptable and no key is repeated. */
  lemma {:induction false} FirstsAll<T>(s: seq<T>, ok: T -> bool, key: T -> string)
    ensures Firsts(s, ok, key) == s <==> (forall x :: x in s ==> ok(x)) && Distinct(s, key)
  {
    FirstsAre(s, ok, key);
    if (forall x :: x in s ==> ok(x)) && Distinct(s, key) {
      KeptWhole(s, ok, key);
    }
  }

  lemma {:induction false} KeptWhole<T>(s: seq<T>, ok: T -> bool, key: T -> string)
    requires (forall x :: x in s ==> ok(x)) && Distinct(s, key)
    ensures Firsts(s, ok, key) == s
  {
    if s != [] {
      var before, x := s[..|s| - 1], s[|s| - 1];
      assert s == before + [x];
      assert Distinct(before, key) by {
        assert forall i :: 0 <= i < |before| ==> before[i] == s[i];
      }
      KeptWhole(before, ok, key);
      LastKeyIsNew(before, x, ok, key);
    }
  }

  lemma LastKeyIsNew<T>(s: seq<T>, x: T, ok: T -> bool, key: T -> string)
    requires Distinct(s + [x], key)
    ensures key(x) !in Keys(s, ok, key)
  {
    forall y | y in s
      ensures key(y) != key(x)
    {
      var i :| 0 <= i < |s| && s[i] == y;
      assert (s + [x])[i] == y && (s + [x])[|s|] == x;
    }
  }

  // ----- one work's answer -----

  function Sources(work: Work): set<string> {
    set f | f in work.files :: f.sourceID
  }

  predicate Acceptable(f: FileResult, sources: set<string>) {
    f.sourceID in sources && (f.episode.Some? ==> 0 <= f.episode.value <= MAX_EPISODE)
  }

  function AcceptableIn(sources: set<string>): FileResult -> bool {
    (f: FileResult) => Acceptable(f, sources)
  }

  function SourceOf(): FileResult -> string {
    (f: FileResult) => f.sourceID
  }

  function CleanKind(kind: string, lower: string -> string): string {
    var k := lower(Trim(kind));
    if k in KINDS then k else ""
  }

  function CleanFiles(files: seq<FileResult>, lower: string -> string): (out: seq<FileResult>)
    ensures |out| == |files|
    ensures forall i :: 0 <= i < |files| ==> out[i] == files[i].(kind := CleanKind(files[i].kind, lower))
  {
    seq(|files|, i requires 0 <= i < |files| => files[i].(kind := CleanKind(files[i].kind, lower)))
  }

  /** What is kept of an answer's files: the first acceptable entry of each file of the work. */
  function KeptFiles(files: seq<FileResult>, sources: set<string>, lower: string -> string): seq<FileResult> {
    CleanFiles(Firsts(files, AcceptableIn(sources), SourceOf()), lower)
  }

  function ChosenType(mediaType: string, hint: string): (t: string)
    ensures t in MEDIA_TYPES
    ensures mediaType in MEDIA_TYPES ==> t == mediaType
  {
    if mediaType in MEDIA_TYPES then mediaType else if hint in MEDIA_TYPES then hint else "movie"
  }

  function InRange(x: Option<int>, low: int, high: int): Option<int> {
    if x.Some? && (x.value < low || x.value > high) then None else x
  }

  function Unrecognized(workID: string): WorkResult {
    WorkResult(workID, false, "", "", None, "", None, [])
  }

  /** What is kept of the answer about one work. */
  function Cleaned(work: Work, item: WorkResult, maxYear: int, lower: string -> string): WorkResult {
    if !item.recognized || Trim(item.title) == "" || |Trim(item.title)| > MAX_TITLE then Unrecognized(item.workID)
    else WorkResult(item.workID, true, Trim(item.title), Trim(item.originalTitle), InRange(item.year, MIN_YEAR, maxYear),
                    ChosenType(lower(Trim(item.mediaType)), work.mediaTypeHint), InRange(item.season, 0, MAX_SEASON),
                    KeptFiles(item.files, Sources(work), lower))
  }

  /** The rules an answer about `work` has to meet. */
  ghost predicate Fits(item: WorkResult, work: Work, maxYear: int) {
    if !item.recognized then item == Unrecognized(item.workID)
    else
      && Trimmed(item.title) && 0 < |item.title| <= 200 && Trimmed(item.originalTitle)
      && (item.year.Some? ==> 1870 <= item.year.value <= maxYear)
      && item.mediaType in {"movie", "tv"}
      && (item.season.Some? ==> 0 <= item.season.value <= 100)
      && FilesFit(item.files, work)
  }

  ghost predicate FileFits(f: FileResult, work: Work) {
    && f.sourceID in Sources(work) && (f.episode.Some? ==> 0 <= f.episode.value <= 100000)
    && (f.kind == "episode" || f.kind == "movie" || f.kind == "extra" || f.kind == "")
  }

  lemma FileFitsIs(f: FileResult, work: Work)
    ensures FileFits(f, work) <==> Acceptable(f, Sources(work)) && (f.kind in KINDS || f.kind == "")
  {
  }

  ghost predicate FilesFit(files: seq<FileResult>, work: Work) {
    && (forall f :: f in files ==> FileFits(f, work))
    && Distinct(files, SourceOf())
  }

  lemma WordsAreTrimmed()
    ensures Trimmed("") && forall w :: w in MEDIA_TYPES || w in KINDS ==> Trimmed(w)
  {
  }

  lemma CleanKindIs(kind: string, lower: string -> string)
    requires KeepsWords(lower)
    ensures CleanKind(kind, lower) == kind <==> kind in KINDS || kind == ""
  {
    WordsAreTrimmed();
    assert Trimmed(kind) ==> Trim(kind) == kind;
    assert "" !in KINDS;
  }

  /** The kept files fit the work, and files that fit are kept as they are. */
  lemma KeptFilesFit(files: seq<FileResult>, work: Work, lower: string -> string)
    requires KeepsWords(lower)
    ensures FilesFit(KeptFiles(files, Sources(work), lower), work)
    ensures KeptFiles(files, Sources(work), lower) == files <==> FilesFit(files, work)
  {
    hide FileFits, Acceptable, Sources;
    var ok, key := AcceptableIn(Sources(work)), SourceOf();
    var t := Firsts(files, ok, key);
    FirstsAre(files, ok, key);
    FirstsAll(files, ok, key);
    var out := CleanFiles(t, lower);
    forall i | 0 <= i < |t|
      ensures FileFits(out[i], work)
    {
      assert t[i] in t;
      KindIsKept(t[i], work, lower);
    }
    if FilesFit(files, work) {
      forall f | f in files
        ensures ok(f)
      {
        FileFitsIs(f, work);
      }
      assert t == files;
      forall i | 0 <= i < |t|
        ensures out[i] == files[i]
      {
        assert files[i] in files;
        FileFitsIs(files[i], work);
        CleanKindIs(files[i].kind, lower);
      }
      assert out == files;
    }
  }

  lemma KindIsKept(f: FileResult, work: Work, lower: string -> string)
    requires Acceptable(f, Sources(work))
    ensures FileFits(f.(kind := CleanKind(f.kind, lower)), work)
  {
  }

  /** The rules describe exactly the answers that are kept unchanged; and what is kept meets them. */
  lemma FitsExactlyWhenUnchanged(work: Work, item: WorkResult, maxYear: int, lower: string -> string)
    requires KeepsWords(lower)
    ensures Fits(Cleaned(work, item, maxYear, lower), work, maxYear)
    ensures Fits(item, work, maxYear) <==> Cleaned(work, item, maxYear, lower) == item
  {
    KeptFilesFit(item.files, work, lower);
    WordsAreTrimmed();
    if Fits(item, work, maxYear) && item.recognized {
      assert Trim(item.mediaType) == item.mediaType;
    }
  }

  /** What becomes of each part of an answer about a work: an answer that names a title of at most 200
      characters keeps it, and each other part that meets its rule; the rest is dropped or replaced. */
  lemma WhatIsKept(work: Work, item: WorkResult, maxYear: int, lower: string -> string)
    ensures var r := Cleaned(work, item, maxYear, lower);
            && r.workID == item.workID && (r.recognized <==> item.recognized && 0 < |Trim(item.title)| <= 200)
            && (r.recognized ==>
                  && r.title == Trim(item.title) && r.originalTitle == Trim(item.originalTitle)
                  && r.year == (if item.year.Some? && 1870 <= item.year.value <= maxYear then item.year else None)
                  && r.season == (if item.season.Some? && 0 <= item.season.value <= 100 then item.season else None))
            && (r.recognized ==>
                  r.mediaType == if lower(Trim(item.mediaType)) in {"movie", "tv"} then lower(Trim(item.mediaType))
                                 else if work.mediaTypeHint == "tv" then "tv" else "movie")
  {
  }

  /** Entry i may stand for its file, and no earlier one that may is for the same file. */
  ghost predicate FirstOf(files: seq<FileResult>, i: nat, work: Work)
    requires i < |files|
  {
    && files[i].sourceID in Sources(work) && (files[i].episode.Some? ==> 0 <= files[i].episode.value <= 100000)
    && forall j :: 0 <= j < i && files[j].sourceID == files[i].sourceID ==>
         files[j].episode.Some? && !(0 <= files[j].episode.value <= 100000)
  }

  /** Of the files exactly these entries are kept, each with its kind in lower case, or with none. */
  lemma WhichFilesAreKept(files: seq<FileResult>, work: Work, lower: string -> string, f: FileResult)
    ensures f in KeptFiles(files, Sources(work), lower) <==>
              exists x :: Stands(files, work, x) && f == x.(kind := KindFor(x, lower))
  {
    hide Stands, Acceptable, FirstOf;
    var t := Firsts(files, AcceptableIn(Sources(work)), SourceOf());
    KindForIs(lower);
    if f in KeptFiles(files, Sources(work), lower) {
      var x := CleanedFrom(t, f, lower);
      FirstEntry(files, work, x);
    }
    if x :| Stands(files, work, x) && f == x.(kind := KindFor(x, lower)) {
      FirstEntry(files, work, x);
      CleanedTo(t, x, lower);
    }
  }

  lemma KindForIs(lower: string -> string)
    ensures forall f :: KindFor(f, lower) == CleanKind(f.kind, lower)
  {
  }

  lemma CleanedFrom(files: seq<FileResult>, f: FileResult, lower: string -> string) returns (x: FileResult)
    requires f in CleanFiles(files, lower)
    ensures x in files && f == x.(kind := CleanKind(x.kind, lower))
  {
    var k :| 0 <= k < |files| && CleanFiles(files, lower)[k] == f;
    x := files[k];
  }

  lemma CleanedTo(files: seq<FileResult>, x: FileResult, lower: string -> string)
    requires x in files
    ensures x.(kind := CleanKind(x.kind, lower)) in CleanFiles(files, lower)
  {
    var k :| 0 <= k < |files| && files[k] == x;
    assert CleanFiles(files, lower)[k] == x.(kind := CleanKind(x.kind, lower));
  }

  /** The kind of the entry in lower case, if it is one of the three. */
  function KindFor(f: FileResult, lower: string -> string): string {
    var k := lower(Trim(f.kind));
    if k == "episode" || k == "movie" || k == "extra" then k else ""
  }

  ghost predicate Stands(files: seq<FileResult>, work: Work, f: FileResult) {
    exists i: nat :: i < |files| && FirstOf(files, i, work) && f == files[i]
  }

  lemma {:induction false} FirstEntry(files: seq<FileResult>, work: Work, f: FileResult)
    ensures f in Firsts(files, AcceptableIn(Sources(work)), SourceOf()) <==> Stands(files, work, f)
  {
    if files != [] {
      hide *;
      var before, x := files[..|files| - 1], files[|files| - 1];
      FirstEntry(before, work, f);
      assert files == before + [x];
      FirstsMore(before, x, work);
      StandsMore(before, x, work, f);
      LastIsFirst(before, x, work);
    }
  }

  lemma FirstsMore(before: seq<FileResult>, x: FileResult, work: Work)
    ensures var ok, key := AcceptableIn(Sources(work)), SourceOf();
            Firsts(before + [x], ok, key) ==
            Firsts(before, ok, key) + (if Acceptable(x, Sources(work)) && x.sourceID !in Keys(before, ok, key) then [x] else [])
  {
    assert (before + [x])[..|before|] == before;
  }

  lemma StandsMore(before: seq<FileResult>, x: FileResult, work: Work, f: FileResult)
    ensures Stands(before + [x], work, f) <==>
              Stands(before, work, f) || (f == x && FirstOf(before + [x], |before|, work))
  {
    var all := before + [x];
    assert forall i: nat :: i < |before| ==> all[i] == before[i];
    if i: nat :| i < |all| && FirstOf(all, i, work) && f == all[i] {
      assert i < |before| ==> FirstOf(before, i, work);
    }
    if i: nat :| i < |before| && FirstOf(before, i, work) && f == before[i] {
      assert FirstOf(all, i, work);
    }
  }

  lemma LastIsFirst(before: seq<FileResult>, x: FileResult, work: Work)
    ensures FirstOf(before + [x], |before|, work) <==>
              Acceptable(x, Sources(work)) && x.sourceID !in Keys(before, AcceptableIn(Sources(work)), SourceOf())
  {
    var all := before + [x];
    assert forall j :: 0 <= j < |before| ==> all[j] == before[j] && all[j] in before;
  }

  /** The loop over the files of one answer. */
  method FilterFiles(files: seq<FileResult>, work: Work, lower: string -> string) returns (out: seq<FileResult>)
    ensures out == KeptFiles(files, Sources(work), lower)
  {
    var sources, seen: set<string> := Sources(work), {};
    out := [];
    ghost var scanned: seq<FileResult> := [];
    for i := 0 to |files|
      invariant scanned == files[..i]
      invariant out == KeptFiles(scanned, sources, lower)
      invariant seen == Keys(scanned, AcceptableIn(sources), SourceOf())
    {
      var file := files[i];
      TakeNext(files, i);
      KeptFilesSnoc(scanned, file, sources, lower);
      KeysSnoc(scanned, file, AcceptableIn(sources), SourceOf());
      scanned := scanned + [file];
      if file.sourceID !in sources || file.sourceID in seen {
        continue;
      }
      if file.episode.Some? && (file.episode.value < 0 || file.episode.value > MAX_EPISODE) {
        continue;
      }
      seen := seen + {file.sourceID};
      out := out + [file.(kind := CleanKind(file.kind, lower))];
    }
    TakeAll(files);
  }

  lemma KeptFilesSnoc(files: seq<FileResult>, file: FileResult, sources: set<string>, lower: string -> string)
    ensures KeptFiles(files + [file], sources, lower) == KeptFiles(files, sources, lower)
            + (if Acceptable(file, sources) && file.sourceID !in Keys(files, AcceptableIn(sources), SourceOf())
               then [file.(kind := CleanKind(file.kind, lower))] else [])
  {
    assert (files + [file])[..|files|] == files;
    assert CleanFiles(Firsts(files, AcceptableIn(sources), SourceOf()) + [file], lower)
        == CleanFiles(Firsts(files, AcceptableIn(sources), SourceOf()), lower) + [file.(kind := CleanKind(file.kind, lower))];
  }

  method CheckItem(work: Work, item: WorkResult, maxYear: int, lower: string -> string) returns (r: WorkResult)
    ensures r == Cleaned(work, item, maxYear, lower)
  {
    var title := Trim(item.title);
    if !item.recognized || title == "" || |title| > MAX_TITLE {
      return Unrecognized(item.workID);
    }
    r := item.(title := title, originalTitle := Trim(item.originalTitle), mediaType := lower(Trim(item.mediaType)));
    if r.mediaType !in MEDIA_TYPES {
      r := r.(mediaType := work.mediaTypeHint);
      if r.mediaType !in MEDIA_TYPES {
        r := r.(mediaType := "movie");
      }
    }
    if r.year.Some? && (r.year.value < MIN_YEAR || r.year.value > maxYear) {
      r := r.(year := None);
    }
    if r.season.Some? && (r.season.value < 0 || r.season.value > MAX_SEASON) {
      r := r.(season := None);
    }
    var files := FilterFiles(item.files, work, lower);
    r := r.(files := files);
  }

  // ----- the whole answer -----

  function IDOf(): WorkResult -> string {
    (r: WorkResult) => r.workID
  }

  function WorkIDOf(): Work -> string {
    (w: Work) => w.workID
  }

  function KnownIn(works: map<string, Work>): WorkResult -> bool {
    (r: WorkResult) => r.workID in works
  }

  /** The works by their id; a later one replaces an earlier one. */
  function AllowedWorks(works: seq<Work>): map<string, Work> {
    if works == [] then map[] else AllowedWorks(works[..|works| - 1])[works[|works| - 1].workID := works[|works| - 1]]
  }

  lemma {:induction false} AllowedWorksAre(works: seq<Work>)
    ensures forall w :: w in works ==> w.workID in AllowedWorks(works)
    ensures forall id :: id in AllowedWorks(works) ==>
              AllowedWorks(works)[id] in works && AllowedWorks(works)[id].workID == id
    ensures Distinct(works, WorkIDOf()) ==> forall w :: w in works ==> AllowedWorks(works)[w.workID] == w
  {
    if works != [] {
      var before, x := works[..|works| - 1], works[|works| - 1];
      AllowedWorksAre(before);
      assert works == before + [x];
      hide Distinct;
      if Distinct(works, WorkIDOf()) {
        LastIsOther(before, x);
      }
    }
  }

  lemma LastIsOther(works: seq<Work>, x: Work)
    requires Distinct(works + [x], WorkIDOf())
    ensures Distinct(works, WorkIDOf()) && forall w :: w in works ==> w.workID != x.workID
  {
    var all := works + [x];
    assert forall i :: 0 <= i < |works| ==> works[i] == all[i];
    forall w | w in works
      ensures w.workID != x.workID
    {
      var i :| 0 <= i < |works| && works[i] == w;
      assert all[i] == w && all[|works|] == x;
    }
  }

  function CleanAll(items: seq<WorkResult>, works: map<string, Work>, maxYear: int, lower: string -> string): (out: seq<WorkResult>)
    requires forall r :: r in items ==> r.workID in works
    ensures |out| == |items|
    ensures forall i :: 0 <= i < |items| ==> out[i] == Cleaned(works[items[i].workID], items[i], maxYear, lower)
  {
    seq(|items|, i requires 0 <= i < |items| => Cleaned(works[items[i].workID], items[i], maxYear, lower))
  }

  /** What is kept of an answer: the first entry of each work asked about, by the rules. */
  function Validated(works: map<string, Work>, items: seq<WorkResult>, maxYear: int, lower: string -> string): seq<WorkResult> {
    FirstsAre(items, KnownIn(works), IDOf());
    CleanAll(Firsts(items, KnownIn(works), IDOf()), works, maxYear, lower)
  }

  /** Every result meets the rules for a work that was asked about, no work has two, every work that
      the answer mentions has one, and validating again changes nothing. */
  lemma ValidatedMeaning(works: map<string, Work>, items: seq<WorkResult>, maxYear: int, lower: string -> string)
    requires KeepsWords(lower)
    ensures var out := Validated(works, items, maxYear, lower);
            && (forall r :: r in out ==> r.workID in works && Fits(r, works[r.workID], maxYear))
            && Distinct(out, IDOf())
            && Keys(out, KnownIn(works), IDOf()) == Keys(items, KnownIn(works), IDOf())
            && Validated(works, out, maxYear, lower) == out
  {
    var ok, key := KnownIn(works), IDOf();
    var t := Firsts(items, ok, key);
    FirstsAre(items, ok, key);
    var out := Validated(works, items, maxYear, lower);
    forall i | 0 <= i < |t|
      ensures out[i].workID == t[i].workID && t[i].workID in works && Fits(out[i], works[t[i].workID], maxYear)
      ensures Cleaned(works[t[i].workID], out[i], maxYear, lower) == out[i]
    {
      assert t[i] in t;
      FitsExactlyWhenUnchanged(works[t[i].workID], t[i], maxYear, lower);
      FitsExactlyWhenUnchanged(works[t[i].workID], out[i], maxYear, lower);
    }
    SameKeys(t, out, works);
    FirstsAll(out, ok, key);
  }

  lemma SameKeys(t: seq<WorkResult>, out: seq<WorkResult>, works: map<string, Work>)
    requires |t| == |out| && forall i :: 0 <= i < |t| ==> out[i].workID == t[i].workID
    ensures Keys(t, KnownIn(works), IDOf()) == Keys(out, KnownIn(works), IDOf())
    ensures Distinct(t, IDOf()) ==> Distinct(out, IDOf())
  {
    forall r | r in t
      ensures exists x :: x in out && x.workID == r.workID
    {
      var i :| 0 <= i < |t| && t[i] == r;
      assert out[i] in out;
    }
    forall x | x in out
      ensures exists r :: r in t && x.workID == r.workID
    {
      var i :| 0 <= i < |t| && out[i] == x;
      assert t[i] in t;
    }
  }

  /** `validateResults`. */
  method ValidateResults(works: seq<Work>, items: seq<WorkResult>, maxYear: int, lower: string -> string)
    returns (out: seq<WorkResult>)
    ensures out == Validated(AllowedWorks(works), items, maxYear, lower)
  {
    var allowed: map<string, Work> := map[];
    ghost var past: seq<Work> := [];
    for i := 0 to |works|
      invariant past == works[..i] && allowed == AllowedWorks(past)
    {
      TakeNext(works, i);
      DropLast(past, works[i]);
      past := past + [works[i]];
      allowed := allowed[works[i].workID := works[i]];
    }
    TakeAll(works);
    out := ValidateKnown(allowed, items, maxYear, lower);
  }

  method ValidateKnown(allowed: map<string, Work>, items: seq<WorkResult>, maxYear: int, lower: string -> string)
    returns (out: seq<WorkResult>)
    ensures out == Validated(allowed, items, maxYear, lower)
  {
    out := [];
    var seen: set<string> := {};
    ghost var scanned: seq<WorkResult> := [];
    for i := 0 to |items|
      invariant scanned == items[..i]
      invariant out == Validated(allowed, scanned, maxYear, lower)
      invariant seen == Keys(scanned, KnownIn(allowed), IDOf())
    {
      var item := items[i];
      TakeNext(items, i);
      ValidatedSnoc(allowed, scanned, item, maxYear, lower);
      KeysSnoc(scanned, item, KnownIn(allowed), IDOf());
      scanned := scanned + [item];
      if item.workID !in allowed || item.workID in seen {
        continue;
      }
      seen := seen + {item.workID};
      var r := CheckItem(allowed[item.workID], item, maxYear, lower);
      out := out + [r];
    }
    TakeAll(items);
  }

  lemma ValidatedSnoc(works: map<string, Work>, items: seq<WorkResult>, item: WorkResult, maxYear: int,
                      lower: string -> string)
    ensures Validated(works, items + [item], maxYear, lower) == Validated(works, items, maxYear, lower)
            + (if item.workID in works && item.workID !in Keys(items, KnownIn(works), IDOf())
               then [Cleaned(works[item.workID], item, maxYear, lower)] else [])
  {
    assert (items + [item])[..|items|] == items;
    FirstsAre(items, KnownIn(works), IDOf());
    FirstsAre(items + [item], KnownIn(works), IDOf());
    var t := Firsts(items, KnownIn(works), IDOf());
    if item.workID in works && item.workID !in Keys(items, KnownIn(works), IDOf()) {
      assert CleanAll(t + [item], works, maxYear, lower)
          == CleanAll(t, works, maxYear, lower) + [Cleaned(works[item.workID], item, maxYear, lower)];
    }
  }
}
