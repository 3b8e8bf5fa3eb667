/** drivers/115_Open/upload.go: the upload of a large file to object storage. What was uploaded
    before is not taken from the checkpoint but listed by the service, page by page. */
module Oss115 {
  import opened UploadPlan
  import opened Wrappers

  const MB := 1024 * 1024
  const GB := 1024 * MB
  const TB := 1024 * GB
  const MAX_PARTS := 10000
  const SINGLE_PART_UPLOAD_LIMIT := 512 * MB
  const PERSIST_EVERY := 5
  const REFRESH_AFTER := 45 * 60
  const REFRESH_SKEW := 5 * 60

  // ----- the plan -----

  /** `calculateOSSPartSize`. */
  function CalculateOSSPartSize(fileSize: nat): (partSize: int)
    ensures partSize > 0 && 20 * MB <= partSize <= 5 * GB
  {
    if fileSize <= 20 * MB then 20 * MB
    else if fileSize > TB then 5 * GB
    else if fileSize > 768 * GB then 109951163
    else if fileSize > 512 * GB then 82463373
    else if fileSize > 384 * GB then 54975582
    else if fileSize > 256 * GB then 41231687
    else if fileSize > 128 * GB then 27487791
    else 20 * MB
  }

  lemma FewParts(size: nat, partSize: int)
    requires partSize > 0
    ensures PartCount(size, partSize) <= MAX_PARTS <==> size <= MAX_PARTS * partSize
  {
    var n := PartCount(size, partSize);
    if n <= MAX_PARTS {
      MulMonotone(n, MAX_PARTS, partSize);
    } else {
      MulMonotone(MAX_PARTS, n - 1, partSize);
    }
  }

  /** The plan stays within the service's limit of 10000 parts up to 10000 parts of 5 GiB, and no further. */
  lemma PlanWithinLimit(size: nat)
    ensures PartCount(size, CalculateOSSPartSize(size)) <= MAX_PARTS <==> size <= MAX_PARTS * (5 * GB)
  {
    FewParts(size, CalculateOSSPartSize(size));
  }

  lemma PartSizeIsMonotone(a: nat, b: nat)
    requires a <= b
    ensures CalculateOSSPartSize(a) <= CalculateOSSPartSize(b)
  {
  }

  // ----- credentials -----

  datatype Token = Token(obtainedAt: Option<int>, expiresAt: Option<int>)

  /** `needsRefresh`, on a clock that counts seconds. */
  function NeedsRefresh(t: Token, now: int): bool {
    if t.obtainedAt == None then true
    else
      var refreshAt := t.obtainedAt.value + REFRESH_AFTER;
      var due := if t.expiresAt.Some? && t.expiresAt.value - REFRESH_SKEW < refreshAt then t.expiresAt.value - REFRESH_SKEW else refreshAt;
      !(now < due)
  }

  /** A credential that is not due is young and far from its end, and was so at every earlier time. */
  lemma FreshTokenMeaning(t: Token, now: int, earlier: int)
    requires earlier <= now
    ensures !NeedsRefresh(t, now) <==>
              && t.obtainedAt.Some? && now < t.obtainedAt.value + 2700
              && (t.expiresAt.Some? ==> now + 300 < t.expiresAt.value)
    ensures !NeedsRefresh(t, now) ==> !NeedsRefresh(t, earlier)
  {
  }

  /** `ensureFreshOSSToken`; `fetched` is the outcome of asking the service for a new one. */
  function EnsureFresh(t: Token, force: bool, now: int, fetched: Option<Token>): (r: Option<Token>)
    ensures r.Some? ==> r == fetched || (!force && r.value == t && !NeedsRefresh(t, now))
    ensures r == None ==> fetched == None
  {
    if !force && !NeedsRefresh(t, now) then Some(t) else fetched
  }

  // ----- the list of uploaded parts -----

  datatype Uploaded = Uploaded(partNumber: nat, etag: string, size: nat)

  function Numbers(parts: seq<Uploaded>): (numbers: seq<nat>)
    ensures |numbers| == |parts| && forall i :: 0 <= i < |parts| ==> numbers[i] == parts[i].partNumber
  {
    seq(|parts|, i requires 0 <= i < |parts| => parts[i].partNumber)
  }

  /** Every entry names a stored part by its tag. */
  ghost predicate EtagsMatch(parts: seq<Uploaded>, stored: map<nat, Bytes>, etag: Bytes -> string) {
    forall i :: 0 <= i < |parts| ==> parts[i].partNumber in stored && parts[i].etag == etag(stored[parts[i].partNumber])
  }

  ghost predicate SizesMatch(parts: seq<Uploaded>, stored: map<nat, Bytes>) {
    forall i :: 0 <= i < |parts| ==> parts[i].partNumber in stored && parts[i].size == |stored[parts[i].partNumber]|
  }

  /** The entries are exactly the stored parts after `marker` and up to `next`, in ascending order. */
  ghost predicate PageOf(parts: seq<Uploaded>, stored: map<nat, Bytes>, etag: Bytes -> string, marker: nat, next: nat) {
    && Ascending(Numbers(parts)) && EtagsMatch(parts, stored, etag) && SizesMatch(parts, stored)
    && forall n :: n in Numbers(parts) <==> n in stored && marker < n <= next
  }

  /** The entries are exactly the stored parts, in ascending order. */
  ghost predicate ListingOf(parts: seq<Uploaded>, stored: map<nat, Bytes>, etag: Bytes -> string) {
    && Ascending(Numbers(parts)) && EtagsMatch(parts, stored, etag) && SizesMatch(parts, stored)
    && forall n :: n in Numbers(parts) <==> n in stored
  }

  lemma AppendOne(parts: seq<Uploaded>, p: Uploaded, stored: map<nat, Bytes>, etag: Bytes -> string, marker: nat,
                  next: nat)
    requires PageOf(parts, stored, etag, marker, next) && marker <= next < p.partNumber
    requires p.partNumber in stored && p == Uploaded(p.partNumber, etag(stored[p.partNumber]), |stored[p.partNumber]|)
    requires forall n :: n in stored && n <= p.partNumber ==> n <= next || n == p.partNumber
    ensures PageOf(parts + [p], stored, etag, marker, p.partNumber)
  {
    assert Numbers(parts + [p]) == Numbers(parts) + [p.partNumber];
    AscendingSnoc(Numbers(parts), p.partNumber);
  }

  /** The service's side: the next page after `marker`, of at most `limit` entries and at least one
      where there is one. */
  method ServePage(stored: map<nat, Bytes>, etag: Bytes -> string, marker: nat, limit: nat)
    returns (parts: seq<Uploaded>, isTruncated: bool, next: nat)
    ensures marker <= next && PageOf(parts, stored, etag, marker, next)
    ensures isTruncated ==> marker < next && next in stored
    ensures !isTruncated ==> forall n :: n in stored ==> n <= next
  {
    var numbers := SortedParts(stored.Keys);
    parts, isTruncated, next := [], false, marker;
    for i := 0 to |numbers|
      invariant marker <= next && PageOf(parts, stored, etag, marker, next)
      invariant forall k :: 0 <= k < i ==> numbers[k] <= next
      invariant forall k :: i <= k < |numbers| ==> numbers[k] <= marker || next < numbers[k]
      invariant |parts| > 0 ==> marker < next && next in stored
    {
      var n := numbers[i];
      assert n in numbers;
      if n <= marker {
        continue;
      }
      if |parts| > 0 && |parts| >= limit {
        isTruncated := true;
        return;
      }
      var p := Uploaded(n, etag(stored[n]), |stored[n]|);
      AppendOne(parts, p, stored, etag, marker, next);
      parts, next := parts + [p], n;
    }
    assert forall n :: n in stored ==> n in numbers;
  }

  datatype PageReply = Answer(limit: nat) | CredentialRejected | UploadMissing | ListFails

  datatype ListResult = Listed | ListCredential | ListMissing | ListError

  /** The reply is an error, and this is what it means. */
  predicate Refuses(reply: PageReply, r: ListResult) {
    match reply
    case Answer(_) => false
    case CredentialRejected => r == ListCredential
    case UploadMissing => r == ListMissing
    case ListFails => r == ListError
  }

  /** Request n is the first one not answered with a page. */
  ghost predicate FirstRefused(replies: nat -> PageReply, n: nat, r: ListResult) {
    Refuses(replies(n), r) && forall i :: 0 <= i < n ==> replies(i).Answer?
  }

  function Above(stored: map<nat, Bytes>, marker: nat): (numbers: set<nat>)
    ensures forall n :: n in numbers <==> n in stored && n > marker
  {
    set n | n in stored && n > marker
  }

  /** The entries of one page that are kept. */
  method KeepEntries(parts0: seq<Uploaded>, page: seq<Uploaded>, ghost stored: map<nat, Bytes>, etag: Bytes -> string,
                     ghost marker: nat, ghost next: nat) returns (parts: seq<Uploaded>)
    requires 0 !in stored && forall b :: etag(b) != ""
    requires marker <= next && PageOf(parts0, stored, etag, 0, marker) && PageOf(page, stored, etag, marker, next)
    ensures PageOf(parts, stored, etag, 0, next)
  {
    parts := parts0;
    for i := 0 to |page|
      invariant Numbers(parts) == Numbers(parts0) + Numbers(page)[..i]
      invariant EtagsMatch(parts, stored, etag) && SizesMatch(parts, stored)
    {
      var p := page[i];
      assert Numbers(page)[i] == p.partNumber && p.partNumber in Numbers(page);
      if p.partNumber > 0 && p.etag != "" {
        assert Numbers(parts + [p]) == Numbers(parts) + [p.partNumber];
        parts := parts + [p];
      }
    }
    assert Numbers(page)[..|page|] == Numbers(page);
    AscendingJoin(Numbers(parts0), Numbers(page), marker);
  }

  lemma AscendingJoin(s: seq<nat>, t: seq<nat>, m: nat)
    requires Ascending(s) && Ascending(t)
    requires (forall n :: n in s ==> n <= m) && (forall n :: n in t ==> n > m)
    ensures Ascending(s + t)
  {
    assert forall i :: 0 <= i < |s| ==> s[i] in s;
    assert forall i :: 0 <= i < |t| ==> t[i] in t;
  }

  /** `ossListUploadedParts`: page after page from marker 0. Against a service that pages honestly the
      result is the whole list in ascending order, whatever the page sizes, and the loop ends. */
  method ListUploadedParts(stored: map<nat, Bytes>, etag: Bytes -> string, replies: nat -> PageReply)
    returns (r: ListResult, parts: seq<Uploaded>)
    requires 0 !in stored && forall b :: etag(b) != ""
    ensures r == Listed ==> ListingOf(parts, stored, etag)
    ensures (forall n :: replies(n).Answer?) ==> r == Listed
    ensures r != Listed ==> exists n :: FirstRefused(replies, n, r)
    ensures !replies(0).Answer? ==> Refuses(replies(0), r)
  {
    parts := [];
    var marker, calls: nat := 0, 0;
    while true
      invariant PageOf(parts, stored, etag, 0, marker)
      invariant forall i :: 0 <= i < calls ==> replies(i).Answer?
      decreases Above(stored, marker)
    {
      var reply := replies(calls);
      if !reply.Answer? {
        r := if reply.CredentialRejected? then ListCredential else if reply.UploadMissing? then ListMissing else ListError;
        assert FirstRefused(replies, calls, r);
        return;
      }
      var page, isTruncated, next := ServePage(stored, etag, marker, reply.limit);
      parts := KeepEntries(parts, page, stored, etag, marker, next);
      if !isTruncated {
        r := Listed;
        return;
      }
      assert next in Above(stored, marker) && Above(stored, next) <= Above(stored, marker);
      marker, calls := next, calls + 1;
    }
  }

  // ----- the loop over the parts -----

  /** The parts 1..k that are not in `done`, in ascending order. */
  function MissingParts(done: set<nat>, k: nat): (missing: seq<nat>)
    ensures forall n :: n in missing <==> 1 <= n <= k && n !in done
  {
    if k == 0 then [] else MissingParts(done, k - 1) + (if k in done then [] else [k])
  }

  lemma {:induction false} MissingAscends(done: set<nat>, k: nat)
    ensures Ascending(MissingParts(done, k))
  {
    if k > 0 {
      MissingAscends(done, k - 1);
      AscendingSnoc(MissingParts(done, k - 1), k);
    }
  }

  /** What is listed followed by what is missing names each part of 1..total exactly once. */
  lemma EachPartOnce(listed: seq<nat>, done: set<nat>, total: nat)
    requires Ascending(listed) && forall n :: n in listed <==> n in done
    requires forall n :: n in done ==> 1 <= n <= total
    ensures var all := listed + MissingParts(done, total);
            && (forall n :: n in all <==> 1 <= n <= total)
            && (forall i, j :: 0 <= i < j < |all| ==> all[i] != all[j])
  {
    MissingAscends(done, total);
    var all := listed + MissingParts(done, total);
    forall i, j | 0 <= i < j < |all|
      ensures all[i] != all[j]
    {
      if i < |listed| <= j {
        assert all[i] in listed && all[j] in MissingParts(done, total);
      }
    }
  }

  /** That order is ascending, as the service wants it, exactly when the listed parts are 1..k for some k. */
  lemma AscendingExactlyForPrefix(listed: seq<nat>, done: set<nat>, total: nat)
    requires Ascending(listed) && forall n :: n in listed <==> n in done
    requires forall n :: n in done ==> 1 <= n <= total
    ensures Ascending(listed + MissingParts(done, total)) <==> exists k: nat :: done == FirstParts(k)
  {
    MissingAscends(done, total);
    var missing := MissingParts(done, total);
    var all := listed + missing;
    var k, m := PrefixOrGap(done, total);
    if done == FirstParts(k) {
      AscendingJoin(listed, missing, k);
    } else {
      Inverted(listed, missing, m, k);
    }
  }

  lemma Inverted(s: seq<nat>, t: seq<nat>, m: nat, n: nat)
    requires m in t && n in s && m < n
    ensures !Ascending(s + t)
  {
    var i :| 0 <= i < |s| && s[i] == n;
    var j :| 0 <= j < |t| && t[j] == m;
    assert (s + t)[i] == n && (s + t)[|s| + j] == m;
  }

  lemma PrefixOrGap(done: set<nat>, total: nat) returns (k: nat, m: nat)
    requires forall n :: n in done ==> 1 <= n <= total
    ensures done == FirstParts(k) || (1 <= m < k && m !in done && k in done && forall j: nat :: done != FirstParts(j))
  {
    k := Highest(done, total);
    m := 0;
    if n: nat :| 1 <= n <= k && n !in done {
      m := n;
      forall j: nat
        ensures done != FirstParts(j)
      {
        assert m in FirstParts(j) <==> m <= j;
      }
    } else {
      assert done == FirstParts(k);
    }
  }

  lemma {:induction false} Highest(done: set<nat>, total: nat) returns (k: nat)
    requires forall n :: n in done ==> 1 <= n <= total
    ensures (k == 0 || k in done) && forall n :: n in done ==> n <= k
  {
    if total in done || total == 0 {
      k := total;
    } else {
      k := Highest(done, total - 1);
    }
  }

  datatype PutReply = Stored | StoredButLost | Refused | Expired(consumed: nat)

  /** What happens around one part: the clock, the credential fetched when one is due, and the
      second try after a rejected credential. */
  datatype PartScript = PartScript(now: int, fetched: Option<Token>, first: PutReply, refetched: Option<Token>,
                                   second: PutReply)

  /** `ossUploadPart`: reads on from the cursor, at most `length` bytes. */
  method Put(file: Bytes, cursor0: nat, length: nat, n: nat, stored0: map<nat, Bytes>, etag: Bytes -> string,
             reply: PutReply)
    returns (tag: Option<string>, stored: map<nat, Bytes>, cursor: nat)
    requires cursor0 + length <= |file|
    ensures var body := file[cursor0..cursor0 + length];
            && stored == (if reply.Stored? || reply.StoredButLost? then Store(stored0, n, body) else stored0)
            && tag == (if reply.Stored? then Some(etag(body)) else None)
  {
    var body := file[cursor0..cursor0 + length];
    stored, tag, cursor := stored0, None, cursor0 + length;
    match reply
    case Stored =>
      stored, tag := Store(stored0, n, body), Some(etag(body));
    case StoredButLost =>
      stored := Store(stored0, n, body);
    case Refused =>
    case Expired(consumed) =>
      cursor := cursor0 + Min(consumed, length);
  }

  ghost predicate Sent(tag: Option<string>, stored0: map<nat, Bytes>, stored: map<nat, Bytes>, chunk: Bytes, n: nat, etag: Bytes -> string) {
    && (stored == stored0 || stored == Store(stored0, n, chunk))
    && (tag.Some? ==> stored == Store(stored0, n, chunk) && tag.value == etag(chunk))
  }

  /** One turn of the loop for a missing part: whatever the first try consumed, the second one, with a
      new credential, starts at the part again. */
  method UploadPart(file: Bytes, partSize: int, n: nat, offset: nat, length: nat, stored0: map<nat, Bytes>,
                    etag: Bytes -> string, token0: Token, script: PartScript)
    returns (tag: Option<string>, stored: map<nat, Bytes>, token: Token, cursor: nat)
    requires partSize > 0 && 1 <= n <= PartCount(|file|, partSize) && offset == OffsetOf(|file|, partSize, n)
    requires |file| > 0 && length == PartLen(|file|, partSize, n)
    ensures Sent(tag, stored0, stored, Part(file, partSize, n), n, etag)
    ensures Succeeds(script) ==> tag.Some?
    ensures script.fetched.Some? && script.first.Expired? && script.refetched.Some? && script.second == Stored ==>
              tag.Some?
  {
    OffsetStep(|file|, partSize, n);
    SectionIsPart(file, partSize, n, length);
    tag, stored, token, cursor := None, stored0, token0, offset;
    var checked := EnsureFresh(token, false, script.now, script.fetched);
    if checked == None {
      return;
    }
    token := checked.value;
    tag, stored, cursor := Put(file, cursor, length, n, stored, etag, script.first);
    if script.first.Expired? {
      checked := EnsureFresh(token, true, script.now, script.refetched);
      if checked == None {
        return;
      }
      token, cursor := checked.value, offset;
      tag, stored, cursor := Put(file, cursor, length, n, stored, etag, script.second);
    }
  }

  /** Where part n starts, or the end of the file. */
  function OffsetOf(size: nat, partSize: int, n: nat): int {
    Min((n - 1) * partSize, size)
  }

  lemma OffsetStep(size: nat, partSize: int, n: nat)
    requires partSize > 0 && size > 0 && 1 <= n <= PartCount(size, partSize) + 1
    ensures OffsetOf(size, partSize, n) < size <==> n <= PartCount(size, partSize)
    ensures var offset := OffsetOf(size, partSize, n);
            offset < size ==>
              && 0 <= offset == (n - 1) * partSize
              && Min(partSize, size - offset) == PartLen(size, partSize, n) > 0
              && OffsetOf(size, partSize, n + 1) == offset + PartLen(size, partSize, n)
  {
    var total := PartCount(size, partSize);
    Offsets(n, partSize);
    if n <= total {
      MulMonotone(n - 1, total - 1, partSize);
    }
  }

  /** The session after the turns for parts 1..m: what was there, and each missing part of them as it is in `file`. */
  ghost predicate Puts(before: map<nat, Bytes>, after: map<nat, Bytes>, file: Bytes, partSize: int, m: nat)
    requires partSize > 0
  {
    forall n: nat ::
      && (n in after <==> n in before || 1 <= n <= m)
      && (n in before ==> n in after && after[n] == before[n])
      && (n in after && n !in before ==> n >= 1 && after[n] == Part(file, partSize, n))
  }

  /** The completed parts after those turns: the listed ones, then the missing ones of 1..m, each by its tag. */
  ghost predicate CompletedTo(completed: seq<Uploaded>, existing: seq<Uploaded>, before: map<nat, Bytes>, after: map<nat, Bytes>,
                              etag: Bytes -> string, m: nat) {
    Numbers(completed) == Numbers(existing) + MissingParts(before.Keys, m) && EtagsMatch(completed, after, etag)
  }

  /** The bytes of the listed parts and of parts 1..m are counted, each once. */
  ghost predicate CountedTo(uploaded: int, size: nat, partSize: int, before: map<nat, Bytes>, m: nat)
    requires partSize > 0
  {
    uploaded == SumLen(size, partSize, before.Keys + FirstParts(m))
  }

  ghost predicate After(file: Bytes, partSize: int, etag: Bytes -> string, existing: seq<Uploaded>,
                        before: map<nat, Bytes>, after: map<nat, Bytes>, completed: seq<Uploaded>, uploaded: int,
                        m: nat)
    requires partSize > 0
  {
    && Puts(before, after, file, partSize, m) && CompletedTo(completed, existing, before, after, etag, m)
    && CountedTo(uploaded, |file|, partSize, before, m)
  }

  lemma TurnForStored(file: Bytes, partSize: int, etag: Bytes -> string, existing: seq<Uploaded>,
                      before: map<nat, Bytes>, after: map<nat, Bytes>, completed: seq<Uploaded>, uploaded: int, n: nat)
    requires partSize > 0 && n >= 1 && n in before
    requires After(file, partSize, etag, existing, before, after, completed, uploaded, n - 1)
    ensures After(file, partSize, etag, existing, before, after, completed, uploaded, n)
  {
    assert before.Keys + FirstParts(n) == before.Keys + FirstParts(n - 1);
  }

  lemma TurnForMissing(file: Bytes, partSize: int, etag: Bytes -> string, existing: seq<Uploaded>,
                       before: map<nat, Bytes>, stored: map<nat, Bytes>, after: map<nat, Bytes>,
                       completed: seq<Uploaded>, uploaded: int, n: nat, tag: string)
    requires partSize > 0 && n >= 1 && n !in before
    requires After(file, partSize, etag, existing, before, stored, completed, uploaded, n - 1)
    requires after == Store(stored, n, Part(file, partSize, n)) && tag == etag(Part(file, partSize, n))
    ensures After(file, partSize, etag, existing, before, after, completed + [Uploaded(n, tag, 0)],
                  uploaded + PartLen(|file|, partSize, n), n)
  {
    hide CompletedTo, CountedTo;
    CompletedOneMore(etag, existing, before, stored, after, completed, n, tag);
    CountedOneMore(|file|, partSize, before, uploaded, n);
  }

  lemma CompletedOneMore(etag: Bytes -> string, existing: seq<Uploaded>, before: map<nat, Bytes>,
                         stored: map<nat, Bytes>, after: map<nat, Bytes>, completed: seq<Uploaded>, n: nat, tag: string)
    requires n >= 1 && n !in before && n !in stored && CompletedTo(completed, existing, before, stored, etag, n - 1)
    requires n in after && tag == etag(after[n]) && after == Store(stored, n, after[n])
    ensures CompletedTo(completed + [Uploaded(n, tag, 0)], existing, before, after, etag, n)
  {
    assert Numbers(completed + [Uploaded(n, tag, 0)]) == Numbers(completed) + [n];
  }

  lemma CountedOneMore(size: nat, partSize: int, before: map<nat, Bytes>, uploaded: int, n: nat)
    requires partSize > 0 && n >= 1 && n !in before && CountedTo(uploaded, size, partSize, before, n - 1)
    ensures CountedTo(uploaded + PartLen(size, partSize, n), size, partSize, before, n)
  {
    var was, now := before.Keys + FirstParts(n - 1), before.Keys + FirstParts(n);
    assert now - {n} == was;
    SumLenRemove(size, partSize, now, n);
  }

  /** The part is stored at the first try. */
  predicate Succeeds(script: PartScript) {
    script.fetched.Some? && script.first == Stored
  }

  /** What a turn for part n that failed leaves: nothing new, or part n all the same. */
  ghost predicate Stopped(file: Bytes, partSize: int, etag: Bytes -> string, existing: seq<Uploaded>,
                          before: map<nat, Bytes>, after: map<nat, Bytes>, completed: seq<Uploaded>, uploaded: int,
                          n: nat)
    requires partSize > 0 && n >= 1
  {
    exists stored :: StoppedFrom(file, partSize, etag, existing, before, stored, after, completed, uploaded, n)
  }

  ghost predicate StoppedFrom(file: Bytes, partSize: int, etag: Bytes -> string, existing: seq<Uploaded>,
                              before: map<nat, Bytes>, stored: map<nat, Bytes>, after: map<nat, Bytes>,
                              completed: seq<Uploaded>, uploaded: int, n: nat)
    requires partSize > 0 && n >= 1
  {
    && After(file, partSize, etag, existing, before, stored, completed, uploaded, n - 1)
    && n !in before && Sent(None, stored, after, Part(file, partSize, n), n, etag)
  }

  /** One turn of the loop. */
  method TakeTurn(file: Bytes, partSize: int, etag: Bytes -> string, ghost existing: seq<Uploaded>,
                  ghost before: map<nat, Bytes>, n: nat, offset0: int, done: bool, completed0: seq<Uploaded>,
                  stored0: map<nat, Bytes>, uploaded0: int, token0: Token, script: PartScript)
    returns (ok: bool, offset: int, completed: seq<Uploaded>, stored: map<nat, Bytes>, uploaded: int, token: Token)
    requires partSize > 0 && |file| > 0 && 1 <= n <= PartCount(|file|, partSize)
    requires offset0 == OffsetOf(|file|, partSize, n) && (done <==> n in before)
    requires After(file, partSize, etag, existing, before, stored0, completed0, uploaded0, n - 1)
    ensures ok ==> After(file, partSize, etag, existing, before, stored, completed, uploaded, n)
    ensures ok ==> offset == OffsetOf(|file|, partSize, n + 1)
    ensures !ok ==> Stopped(file, partSize, etag, existing, before, stored, completed, uploaded, n)
    ensures Succeeds(script) ==> ok
  {
    hide *;
    OffsetStep(|file|, partSize, n);
    var length := Min(partSize, |file| - offset0);
    ok, offset, completed, stored, uploaded, token := true, offset0 + length, completed0, stored0, uploaded0, token0;
    if done {
      TurnForStored(file, partSize, etag, existing, before, stored, completed, uploaded, n);
      return;
    }
    var tag, cursor;
    tag, stored, token, cursor := UploadPart(file, partSize, n, offset0, length, stored, etag, token, script);
    ok := tag.Some?;
    if ok {
      TurnForMissing(file, partSize, etag, existing, before, stored0, stored, completed, uploaded, n, tag.value);
      completed, uploaded := completed + [Uploaded(n, tag.value, 0)], uploaded + length;
    } else {
      StoppedAt(file, partSize, etag, existing, before, stored0, stored, completed, uploaded, n);
    }
  }

  lemma StoppedAt(file: Bytes, partSize: int, etag: Bytes -> string, existing: seq<Uploaded>, before: map<nat, Bytes>,
                  stored: map<nat, Bytes>, after: map<nat, Bytes>, completed: seq<Uploaded>, uploaded: int, n: nat)
    requires partSize > 0 && n >= 1 && n !in before
    requires After(file, partSize, etag, existing, before, stored, completed, uploaded, n - 1)
    requires Sent(None, stored, after, Part(file, partSize, n), n, etag)
    ensures Stopped(file, partSize, etag, existing, before, after, completed, uploaded, n)
  {
    assert StoppedFrom(file, partSize, etag, existing, before, stored, after, completed, uploaded, n);
  }

  lemma BeforeFirstTurn(file: Bytes, partSize: int, etag: Bytes -> string, existing: seq<Uploaded>, listed: set<nat>,
                        before: map<nat, Bytes>, uploaded: int)
    requires partSize > 0 && |file| > 0 && listed == before.Keys
    requires ListingOf(existing, before, etag) && CountedTo(uploaded, |file|, partSize, before, 0)
    ensures After(file, partSize, etag, existing, before, before, existing, uploaded, 0)
    ensures OffsetOf(|file|, partSize, 1) == 0 && SameFrom(listed, before, 1) && 1 <= PartCount(|file|, partSize)
  {
  }

  /** The loop over the parts; it stops at part `next`. */
  method UploadMissing(file: Bytes, partSize: int, etag: Bytes -> string, existing: seq<Uploaded>, listed: set<nat>,
                       stored0: map<nat, Bytes>, uploaded0: int, token0: Token, scripts: nat -> PartScript)
    returns (next: nat, completed: seq<Uploaded>, stored: map<nat, Bytes>, uploaded: int, reported: seq<int>,
             puts: seq<nat>)
    requires partSize > 0 && |file| > 0 && listed == stored0.Keys
    requires ListingOf(existing, stored0, etag) && CountedTo(uploaded0, |file|, partSize, stored0, 0)
    ensures 1 <= next <= PartCount(|file|, partSize) + 1
    ensures next <= PartCount(|file|, partSize) ==>
              Stopped(file, partSize, etag, existing, stored0, stored, completed, uploaded, next)
    ensures next > PartCount(|file|, partSize) ==>
              After(file, partSize, etag, existing, stored0, stored, completed, uploaded, next - 1)
    ensures next <= PartCount(|file|, partSize) ==> !Succeeds(scripts(next))
    ensures ExactlyMissing(puts, stored0, Min(next, PartCount(|file|, partSize)))
    ensures reported == DueReports(|file|, partSize, stored0.Keys, next - 1)
  {
    hide *;
    var total := PartCount(|file|, partSize);
    var completedSet := listed;
    completed, stored, uploaded, reported, next, puts := existing, stored0, uploaded0, [], 1, [];
    var token, offset := token0, 0;
    BeforeFirstTurn(file, partSize, etag, existing, listed, stored0, uploaded0);
    NothingPut(stored0);
    NothingReported(|file|, partSize, stored0.Keys);
    while offset < |file|
      invariant 1 <= next <= total + 1 && offset == OffsetOf(|file|, partSize, next)
      invariant After(file, partSize, etag, existing, stored0, stored, completed, uploaded, next - 1)
      invariant offset < |file| <==> next <= total
      invariant SameFrom(completedSet, stored0, next)
      invariant ExactlyMissing(puts, stored0, next - 1)
      invariant reported == DueReports(|file|, partSize, stored0.Keys, next - 1)
      decreases total + 1 - next
    {
      var ok;
      var done := next in completedSet;
      PastOne(completedSet, stored0, next);
      PutOne(puts, stored0, next);
      puts := if done then puts else puts + [next];
      ok, offset, completed, stored, uploaded, token := TakeTurn(file, partSize, etag, existing, stored0, next, offset, done,
                                                                 completed, stored, uploaded, token, scripts(next));
      if !ok {
        return;
      }
      completedSet := completedSet + {next};
      ReportOne(|file|, partSize, stored0, existing, stored, completed, uploaded, file, etag, next);
      if !done && PersistDue(next, total) {
        reported := reported + [uploaded];
      }
      next := next + 1;
      NextOffset(|file|, partSize, next);
    }
  }

  /** From part n on, the set of completed parts is as it was listed. */
  ghost predicate SameFrom(completed: set<nat>, before: map<nat, Bytes>, n: nat) {
    forall k :: k >= n ==> (k in completed <==> k in before)
  }

  lemma PastOne(completed: set<nat>, before: map<nat, Bytes>, n: nat)
    requires SameFrom(completed, before, n)
    ensures n in completed <==> n in before
    ensures SameFrom(completed + {n}, before, n + 1)
  {
  }

  /** The parts put are exactly those of 1..m that were not stored before, each once and in order. */
  ghost predicate ExactlyMissing(puts: seq<nat>, before: map<nat, Bytes>, m: nat) {
    Ascending(puts) && forall n :: n in puts <==> 1 <= n <= m && n !in before
  }

  lemma NothingPut(before: map<nat, Bytes>)
    ensures ExactlyMissing([], before, 0)
  {
  }

  lemma PutOne(puts: seq<nat>, before: map<nat, Bytes>, n: nat)
    requires n >= 1 && ExactlyMissing(puts, before, n - 1)
    ensures ExactlyMissing(if n in before then puts else puts + [n], before, n)
  {
    if n !in before {
      AscendingSnoc(puts, n);
    }
  }

  /** The counts to hand out after the turns for parts 1..m: after each fifth part and the last one, where it was put. */
  ghost function DueReports(size: nat, partSize: int, before: set<nat>, m: nat): (reports: seq<int>)
    requires partSize > 0
  {
    if m == 0 then []
    else DueReports(size, partSize, before, m - 1)
         + (if m !in before && (m % 5 == 0 || m == PartCount(size, partSize)) then [CountAfter(size, partSize, before, m)] else [])
  }

  ghost function ReportsFor(file: Bytes, before: map<nat, Bytes>): seq<int> {
    DueReports(|file|, CalculateOSSPartSize(|file|), before.Keys, PartsOf(file))
  }

  ghost function CountAfter(size: nat, partSize: int, before: set<nat>, m: nat): int
    requires partSize > 0
  {
    SumLen(size, partSize, before + FirstParts(m))
  }

  lemma NothingReported(size: nat, partSize: int, before: set<nat>)
    requires partSize > 0
    ensures DueReports(size, partSize, before, 0) == []
  {
  }

  lemma ReportOne(size: nat, partSize: int, before: map<nat, Bytes>, existing: seq<Uploaded>, after: map<nat, Bytes>,
                  completed: seq<Uploaded>, uploaded: int, file: Bytes, etag: Bytes -> string, n: nat)
    requires partSize > 0 && n >= 1 && size == |file|
    requires After(file, partSize, etag, existing, before, after, completed, uploaded, n)
    ensures DueReports(size, partSize, before.Keys, n)
            == DueReports(size, partSize, before.Keys, n - 1)
               + (if n !in before && PersistDue(n, PartCount(size, partSize)) then [uploaded] else [])
  {
  }

  lemma ReportIsMore(size: nat, partSize: int, before: set<nat>, m: nat)
    requires partSize > 0 && size > 0 && 1 <= m <= PartCount(size, partSize)
    ensures CountAfter(size, partSize, before, m - 1) <= CountAfter(size, partSize, before, m)
    ensures m !in before ==> CountAfter(size, partSize, before, m - 1) < CountAfter(size, partSize, before, m)
  {
    hide PartCount, PartLen;
    var small, large := before + FirstParts(m - 1), before + FirstParts(m);
    assert m in large && (m !in before ==> m !in small);
    SumOfSubset(size, partSize, small, large);
    PlannedPartIsNonEmpty(size, partSize, m);
  }

  lemma LastReport(size: nat, partSize: int, before: set<nat>)
    requires partSize > 0 && size > 0 && forall n :: n in before ==> 1 <= n <= PartCount(size, partSize)
    ensures CountAfter(size, partSize, before, PartCount(size, partSize)) == size
  {
    hide PartLen;
    var total := PartCount(size, partSize);
    assert before + FirstParts(total) == FirstParts(total);
    FullCountMeansAllParts(size, partSize, FirstParts(total));
  }

  /** Ascending, and no more than `bound`. */
  ghost predicate Grows(reports: seq<int>, bound: int) {
    && (forall i, j :: 0 <= i < j < |reports| ==> reports[i] < reports[j])
    && (forall i :: 0 <= i < |reports| ==> reports[i] <= bound)
  }

  lemma GrowsOn(reports: seq<int>, bound: int, now: int)
    requires Grows(reports, bound) && bound <= now
    ensures Grows(reports, now) && (bound < now ==> Grows(reports + [now], now))
  {
  }

  /** Each report is more than the one before, and when the last part was put the last report is the whole file. */
  lemma {:induction false} ReportsGrow(size: nat, partSize: int, before: set<nat>, m: nat)
    requires partSize > 0 && size > 0 && m <= PartCount(size, partSize)
    requires forall n :: n in before ==> 1 <= n <= PartCount(size, partSize)
    ensures Grows(DueReports(size, partSize, before, m), CountAfter(size, partSize, before, m))
    ensures m == PartCount(size, partSize) && m !in before ==>
              var reports := DueReports(size, partSize, before, m);
              |reports| > 0 && reports[|reports| - 1] == size
  {
    hide PartCount, CountAfter;
    if m > 0 {
      hide Grows;
      ReportsGrow(size, partSize, before, m - 1);
      LastReport(size, partSize, before);
      ReportIsMore(size, partSize, before, m);
      GrowsOn(DueReports(size, partSize, before, m - 1), CountAfter(size, partSize, before, m - 1),
              CountAfter(size, partSize, before, m));
    }
  }

  predicate PersistDue(n: nat, total: nat) {
    n == total || n % PERSIST_EVERY == 0
  }

  lemma NextOffset(size: nat, partSize: int, n: nat)
    requires partSize > 0 && size > 0 && 1 <= n <= PartCount(size, partSize) + 1
    ensures OffsetOf(size, partSize, n) < size <==> n <= PartCount(size, partSize)
  {
    OffsetStep(size, partSize, n);
  }

  // ----- one session -----

  /** A session as uploads leave it: parts 1..k for some k, each of its planned length. */
  ghost predicate SessionOk(stored: map<nat, Bytes>, size: nat) {
    RightLengths(stored, size, CalculateOSSPartSize(size)) && IsPrefix(stored.Keys, PartCount(size, CalculateOSSPartSize(size)))
  }

  /** What the service is asked to complete: every part once, in ascending order, each by its tag. */
  ghost predicate CompleteRequest(parts: seq<Uploaded>, stored: map<nat, Bytes>, etag: Bytes -> string, total: nat) {
    && Ascending(Numbers(parts)) && (forall n :: n in Numbers(parts) <==> 1 <= n <= total)
    && EtagsMatch(parts, stored, etag) && forall n :: 1 <= n <= total ==> n in stored
  }

  /** Every part stored before is that part of `file`. */
  ghost predicate StoredFrom(stored: map<nat, Bytes>, file: Bytes) {
    OnlyPartsOf(stored, file, CalculateOSSPartSize(|file|))
  }

  /** How many parts the file has. */
  function PartsOf(file: Bytes): (total: nat)
    ensures total == PartCount(|file|, CalculateOSSPartSize(|file|))
  {
    PartCount(|file|, CalculateOSSPartSize(|file|))
  }

  /** What is asked for is complete, and the service builds the file exactly when what it held before
      was of this file. */
  ghost predicate Built(before: map<nat, Bytes>, after: map<nat, Bytes>, file: Bytes, parts: seq<Uploaded>, etag: Bytes -> string) {
    var total := PartCount(|file|, CalculateOSSPartSize(|file|));
    && CompleteRequest(parts, after, etag, total)
    && (Assemble(after, total) == file <==> StoredFrom(before, file))
  }

  lemma PutsKeepSession(before: map<nat, Bytes>, after: map<nat, Bytes>, file: Bytes, m: nat)
    requires Puts(before, after, file, CalculateOSSPartSize(|file|), m) && SessionOk(before, |file|)
    requires m <= PartCount(|file|, CalculateOSSPartSize(|file|))
    ensures SessionOk(after, |file|)
    ensures StoredFrom(before, file) ==> StoredFrom(after, file)
  {
    hide PartCount, PartLen, Part, CalculateOSSPartSize;
  }

  lemma StoppedPuts(file: Bytes, partSize: int, etag: Bytes -> string, existing: seq<Uploaded>, before: map<nat, Bytes>,
                    after: map<nat, Bytes>, completed: seq<Uploaded>, uploaded: int, n: nat)
    requires partSize > 0 && n >= 1 && Stopped(file, partSize, etag, existing, before, after, completed, uploaded, n)
    ensures Puts(before, after, file, partSize, n - 1) || Puts(before, after, file, partSize, n)
  {
    hide Puts, CompletedTo, CountedTo, Part, PartLen, Store;
    var stored :| StoppedFrom(file, partSize, etag, existing, before, stored, after, completed, uploaded, n);
    if after != stored {
      PutsOneMore(before, stored, file, partSize, n);
    }
  }

  lemma PutsOneMore(before: map<nat, Bytes>, stored: map<nat, Bytes>, file: Bytes, partSize: int, n: nat)
    requires partSize > 0 && n >= 1 && n !in before && Puts(before, stored, file, partSize, n - 1)
    ensures Puts(before, Store(stored, n, Part(file, partSize, n)), file, partSize, n)
  {
    hide PartLen;
  }

  /** After the last turn: the request is complete, all bytes are counted, and the service builds the
      file exactly when what it held before was of this file. */
  lemma Finished(file: Bytes, etag: Bytes -> string, existing: seq<Uploaded>, before: map<nat, Bytes>,
                 after: map<nat, Bytes>, completed: seq<Uploaded>, uploaded: int)
    requires |file| > 0 && SessionOk(before, |file|) && ListingOf(existing, before, etag)
    requires var partSize := CalculateOSSPartSize(|file|);
             After(file, partSize, etag, existing, before, after, completed, uploaded, PartCount(|file|, partSize))
    ensures Built(before, after, file, completed, etag) && uploaded == |file|
  {
    var partSize := CalculateOSSPartSize(|file|);
    hide CalculateOSSPartSize;
    var total := PartCount(|file|, partSize);
    InOrder(etag, existing, before, after, completed, total);
    assert before.Keys + FirstParts(total) == FirstParts(total);
    SumOfFirstParts(|file|, partSize, total);
    AssemblyDecides(file, partSize, before, after);
  }

  lemma InOrder(etag: Bytes -> string, existing: seq<Uploaded>, before: map<nat, Bytes>, after: map<nat, Bytes>,
                completed: seq<Uploaded>, total: nat)
    requires ListingOf(existing, before, etag) && IsPrefix(before.Keys, total) && CompletedTo(completed, existing, before, after, etag, total)
    requires forall n :: 1 <= n <= total ==> n in after
    ensures CompleteRequest(completed, after, etag, total)
  {
    EachPartOnce(Numbers(existing), before.Keys, total);
    var k, m := PrefixOrGap(before.Keys, total);
    AscendingExactlyForPrefix(Numbers(existing), before.Keys, total);
  }

  lemma AssemblyDecides(file: Bytes, partSize: int, before: map<nat, Bytes>, after: map<nat, Bytes>)
    requires partSize > 0 && Puts(before, after, file, partSize, PartCount(|file|, partSize))
    requires RightLengths(before, |file|, partSize) && IsPrefix(before.Keys, PartCount(|file|, partSize))
    ensures forall n :: 1 <= n <= PartCount(|file|, partSize) ==> n in after
    ensures Assemble(after, PartCount(|file|, partSize)) == file <==> OnlyPartsOf(before, file, partSize)
  {
    var total := PartCount(|file|, partSize);
    AssembleDetermines(after, file, partSize, total);
    if OnlyPartsOf(before, file, partSize) {
      AssembleIsFile(after, file, partSize);
    }
  }

  /** The bytes of the listed parts, and the set of their numbers. */
  method ListedBytes(existing: seq<Uploaded>, ghost stored: map<nat, Bytes>, ghost etag: Bytes -> string,
                     ghost size: nat, ghost partSize: int)
    returns (uploaded: int, listed: set<nat>)
    requires partSize > 0 && ListingOf(existing, stored, etag) && RightLengths(stored, size, partSize)
    ensures listed == stored.Keys && CountedTo(uploaded, size, partSize, stored, 0)
  {
    uploaded, listed := 0, {};
    for i := 0 to |existing|
      invariant uploaded == SumLen(size, partSize, listed)
      invariant forall j :: 0 <= j < i ==> Numbers(existing)[j] in listed
      invariant listed <= stored.Keys
      invariant i < |existing| ==> forall n :: n in listed ==> n < Numbers(existing)[i]
    {
      var n := existing[i].partNumber;
      assert n == Numbers(existing)[i];
      assert listed + {n} - {n} == listed;
      SumLenRemove(size, partSize, listed + {n}, n);
      uploaded, listed := uploaded + existing[i].size, listed + {n};
    }
    assert listed == stored.Keys;
    assert stored.Keys + FirstParts(0) == stored.Keys;
  }

  // ----- whole attempts -----

  datatype Request = Request(parentID: string, targetName: string)

  type Key = (string, string, string)

  /** The resume state: bucket, object and upload id name the session. */
  datatype ResumeState = ResumeState(parentID: string, targetName: string, resolvedName: string, fileSize: nat,
                                     fileSHA1: string, preid: string, pickCode: string, uploadPhase: string,
                                     bucket: string, objectName: string, ossUploadID: string, uploadedBytes: int)
  {
    function Session(): Key {
      (bucket, objectName, ossUploadID)
    }
  }

  /** `normalize115ResumeState` as the upload calls it: the hash is compared with itself, and the file
      is not read. */
  predicate Accepted(c: ResumeState, req: Request, fileSize: nat) {
    c.parentID == req.parentID && c.targetName == req.targetName && c.fileSize == fileSize
  }

  /** Some state handed out names the session and is accepted for the request again; `coded` when it
      also holds a pick code. */
  ghost predicate Remembered(issued: set<ResumeState>, session: Key, req: Request, fileSize: nat, coded: bool) {
    exists c :: c in issued && Remembers(c, session, req, fileSize, coded)
  }

  ghost predicate AllRemembered(issued: set<ResumeState>, touched: set<Key>, req: Request, fileSize: nat, coded: bool) {
    forall s :: s in touched ==> Remembered(issued, s, req, fileSize, coded)
  }

  /** The sessions an attempt opened, and the one it asked the service to complete. */
  function Touched(sessions: set<Key>, before: set<Key>, r: Outcome): set<Key> {
    sessions - before + (if r.CompleteSent? then {r.session} else {})
  }

  lemma RememberedToo(issued: set<ResumeState>, touched: set<Key>, req: Request, fileSize: nat, coded: bool, less: bool)
    requires AllRemembered(issued, touched, req, fileSize, coded) && (less ==> coded)
    ensures AllRemembered(issued, touched, req, fileSize, less)
  {
    forall s | s in touched
      ensures Remembered(issued, s, req, fileSize, less)
    {
      var c :| c in issued && Remembers(c, s, req, fileSize, coded);
      assert Remembers(c, s, req, fileSize, less);
    }
  }

  ghost predicate Remembers(c: ResumeState, session: Key, req: Request, fileSize: nat, coded: bool) {
    && c.Session() == session && c.uploadPhase == "multipart" && (coded ==> c.pickCode != "")
    && c.parentID == req.parentID && c.targetName == req.targetName && c.fileSize == fileSize
  }

  /** A state is accepted for one parent, one name and one size only. */
  lemma AcceptedForSame(c: ResumeState, req: Request, fileSize: nat, other: Request, otherSize: nat)
    requires Accepted(c, req, fileSize)
    ensures Accepted(c, other, otherSize) <==> other == req && otherSize == fileSize
  {
  }

  /** `shouldResumeMultipart`. */
  predicate ShouldResumeMultipart(rs: ResumeState) {
    rs.pickCode != "" && (rs.uploadPhase == "multipart" || rs.ossUploadID != "" || rs.fileSize > SINGLE_PART_UPLOAD_LIMIT)
  }

  datatype NameReply = NameIs(name: string) | NameTaken | NameFails

  datatype Target = Target(bucket: string, objectName: string, pickCode: string)

  datatype InitReply = InitFails | Rapid | Prepared(target: Target)

  datatype InitiateReply = InitiateFails | InitiateCredential | Initiated(uploadID: string)

  datatype Env = Env(name: NameReply, readable: bool, resume: Option<Target>, init: InitReply, token: Option<Token>,
                     now: int, fetched: Option<Token>, refetched: Option<Token>, list: nat -> PageReply,
                     relist: nat -> PageReply, initiate: InitiateReply, reinitiate: InitiateReply,
                     put: nat -> PartScript, last: Option<Token>, sent: bool)

  datatype Outcome = Failed | Skipped | RapidUpload | WholeFileSent(content: Bytes) | CompleteSent(session: Key, parts: seq<Uploaded>)

  datatype Attempt = Attempt(req: Request, state: Option<ResumeState>, env: Env)

  /** The part loop over one session. */
  method FillSession(file: Bytes, existing: seq<Uploaded>, listed: set<nat>, uploaded0: int, stored0: map<nat, Bytes>,
                     token: Token, env: Env, etag: Bytes -> string)
    returns (ok: bool, completed: seq<Uploaded>, stored: map<nat, Bytes>, reported: seq<int>, puts: seq<nat>)
    requires |file| > 0 && SessionOk(stored0, |file|) && ListingOf(existing, stored0, etag)
    requires listed == stored0.Keys && CountsHeld(uploaded0, stored0, file)
    ensures SessionOk(stored, |file|) && (StoredFrom(stored0, file) ==> StoredFrom(stored, file))
    ensures ok ==> Built(stored0, stored, file, completed, etag)
    ensures (forall n :: Succeeds(env.put(n))) ==> ok
    ensures ok ==> ExactlyMissing(puts, stored0, PartsOf(file))
    ensures ok ==> reported == DueReports(|file|, CalculateOSSPartSize(|file|), stored0.Keys, PartsOf(file))
  {
    hide *;
    var partSize := CalculateOSSPartSize(|file|);
    HeldIsCounted(uploaded0, stored0, file);
    var uploaded := uploaded0;
    var next;
    next, completed, stored, uploaded, reported, puts := UploadMissing(file, partSize, etag, existing, listed, stored0,
                                                                       uploaded, token, env.put);
    ok := next > PartCount(|file|, partSize);
    if ok {
      AfterPuts(file, partSize, etag, existing, stored0, stored, completed, uploaded, next - 1);
      PutsKeepSession(stored0, stored, file, next - 1);
      Finished(file, etag, existing, stored0, stored, completed, uploaded);
    } else {
      StoppedPuts(file, partSize, etag, existing, stored0, stored, completed, uploaded, next);
      PutsKeepSession(stored0, stored, file, if Puts(stored0, stored, file, partSize, next) then next else next - 1);
    }
  }

  /** The count is that of the bytes the session holds. */
  ghost predicate CountsHeld(uploaded: int, stored: map<nat, Bytes>, file: Bytes) {
    CountedTo(uploaded, |file|, CalculateOSSPartSize(|file|), stored, 0)
  }

  lemma HeldIsCounted(uploaded: int, stored: map<nat, Bytes>, file: Bytes)
    requires CountsHeld(uploaded, stored, file)
    ensures CountedTo(uploaded, |file|, CalculateOSSPartSize(|file|), stored, 0)
  {
  }

  lemma CountedIsHeld(uploaded: int, stored: map<nat, Bytes>, file: Bytes)
    requires CountedTo(uploaded, |file|, CalculateOSSPartSize(|file|), stored, 0)
    ensures CountsHeld(uploaded, stored, file)
  {
  }

  lemma EmptySession(size: nat)
    ensures SessionOk(map[], size)
  {
  }

  lemma NothingStored(file: Bytes)
    ensures StoredFrom(map[], file)
  {
  }

  lemma SessionLengths(stored: map<nat, Bytes>, size: nat)
    requires SessionOk(stored, size)
    ensures RightLengths(stored, size, CalculateOSSPartSize(size))
  {
  }

  lemma AfterPuts(file: Bytes, partSize: int, etag: Bytes -> string, existing: seq<Uploaded>, before: map<nat, Bytes>,
                  after: map<nat, Bytes>, completed: seq<Uploaded>, uploaded: int, m: nat)
    requires partSize > 0 && After(file, partSize, etag, existing, before, after, completed, uploaded, m)
    ensures Puts(before, after, file, partSize, m)
  {
  }

  /** The file up to n bytes. */
  function FirstBytes(file: Bytes, n: nat): (head: Bytes)
    ensures head <= file && |head| == Min(n, |file|)
  {
    file[..Min(n, |file|)]
  }

  predicate IsTarget(t: Target) {
    t.bucket != "" && t.objectName != ""
  }

  /** An environment in which no call fails. */
  ghost predicate Helpful(env: Env) {
    && env.readable && env.name != NameFails && env.init != InitFails && (env.init.Prepared? ==> IsTarget(env.init.target))
    && env.resume.Some? && IsTarget(env.resume.value) && env.token.Some? && env.fetched.Some? && env.last.Some? && env.sent
    && (forall n :: env.list(n).Answer?) && env.initiate.Initiated? && env.initiate.uploadID != ""
    && forall n :: Succeeds(env.put(n))
  }

  /** The state names a session for this object. */
  predicate Names(rs: ResumeState, bucket: string, objectName: string) {
    rs.ossUploadID != "" && rs.bucket == bucket && rs.objectName == objectName
  }

  /** A credential can be had and each listing request is answered, at the first try or, after a
      rejected credential, at the second. */
  ghost predicate CanList(token: Token, env: Env) {
    && EnsureFresh(token, false, env.now, env.fetched).Some?
    && ((forall n :: env.list(n).Answer?)
        || (env.list(0).CredentialRejected? && env.refetched.Some? && forall n :: env.relist(n).Answer?))
  }

  /** The listing ends with the word that there is no such session, at the first try or, after a
      rejected credential, at the second. */
  ghost predicate SaidMissing(env: Env) {
    || (exists n :: FirstRefused(env.list, n, ListMissing))
    || ((exists n :: FirstRefused(env.list, n, ListCredential)) && env.refetched.Some?
        && exists n :: FirstRefused(env.relist, n, ListMissing))
  }

  /** The first listing request says so. */
  predicate IsMissing(token: Token, env: Env) {
    && EnsureFresh(token, false, env.now, env.fetched).Some?
    && (env.list(0).UploadMissing?
        || (env.list(0).CredentialRejected? && env.refetched.Some? && env.relist(0).UploadMissing?))
  }

  /** A new session can be opened. */
  predicate CanInitiate(token: Token, env: Env) {
    && EnsureFresh(token, false, env.now, env.fetched).Some?
    && ((env.initiate.Initiated? && env.initiate.uploadID != "")
        || (env.initiate.InitiateCredential? && env.refetched.Some? && env.reinitiate.Initiated? && env.reinitiate.uploadID != ""))
  }

  /** The session an attempt works on: the one the state names for this object, or else one that was
      not there before; and that only if the state names none or the service says it is missing. */
  ghost predicate Chosen(session: Key, rs: ResumeState, bucket: string, objectName: string, before: set<Key>, env: Env) {
    if Names(rs, bucket, objectName) then session == rs.Session() || (session !in before && SaidMissing(env))
    else session !in before
  }

  lemma HelpfulFills(env: Env)
    ensures Helpful(env) ==> CanFill(env)
  {
  }

  /** What the session held before the attempt; a new one held nothing. */
  function Earlier(sessions: map<Key, map<nat, Bytes>>, session: Key): (stored: map<nat, Bytes>)
    ensures session in sessions ==> stored == sessions[session]
    ensures session !in sessions ==> stored == map[]
  {
    if session in sessions then sessions[session] else map[]
  }

  /** The session is one for this object. */
  predicate At(session: Key, target: Option<Target>) {
    target.Some? && session.0 == target.value.bucket && session.1 == target.value.objectName
  }

  /** The session is at `target` and was started for this size. The parts put are exactly those it did
      not hold before, and what the service is asked to build is complete. */
  ghost predicate Completes(r: Outcome, puts: seq<nat>, before: map<Key, map<nat, Bytes>>,
                            after: map<Key, map<nat, Bytes>>, sizes: map<Key, nat>, target: Option<Target>, file: Bytes,
                            etag: Bytes -> string)
    requires r.CompleteSent?
  {
    && r.session in after && r.session in sizes && sizes[r.session] == |file| > 536870912 && At(r.session, target)
    && ExactlyMissing(puts, Earlier(before, r.session), PartsOf(file))
    && Built(Earlier(before, r.session), after[r.session], file, r.parts, etag)
  }

  function AimOf(rs: ResumeState, env: Env): Option<Target> {
    if rs.pickCode != "" && rs.fileSize > 536870912 then env.resume
    else if env.init.Prepared? then Some(env.init.target) else None
  }

  /** The state an attempt starts from: the given one where it is accepted, with a name, or an empty one. */
  function Begin(req: Request, fileSize: nat, state: Option<ResumeState>): ResumeState {
    if state.Some? && Accepted(state.value, req, fileSize) then
      state.value.(resolvedName := if state.value.resolvedName != "" then state.value.resolvedName else req.targetName)
    else ResumeState(req.parentID, req.targetName, "", fileSize, "", "", "", "", "", "", "", 0)
  }

  lemma Begins(req: Request, fileSize: nat, state: Option<ResumeState>, env: Env)
    ensures var rs := Begin(req, fileSize, state);
            && Accepted(rs, req, fileSize) && rs.fileSize == fileSize && req == Request(rs.parentID, rs.targetName)
            && AimOf(rs, env) == Aim(state, req, fileSize, env)
    ensures var taken := state.Some? && Accepted(state.value, req, fileSize);
            var rs := Begin(req, fileSize, state);
            if taken then rs.Session() == state.value.Session() && (req.targetName != "" ==> rs.resolvedName != "")
            else rs.ossUploadID == "" && rs.resolvedName == ""
    ensures Continuable(state, req, fileSize, env) ==>
              var rs := Begin(req, fileSize, state);
              state.Some? && Accepted(state.value, req, fileSize) && rs.pickCode != "" && CanResume(rs, env)
    ensures CanFill(env) ==> env.readable
  {
  }

  lemma IssuedTwice(before: set<ResumeState>, between: set<ResumeState>, after: set<ResumeState>, rs: ResumeState,
                    later: ResumeState, req: Request, fileSize: nat)
    requires Accepted(rs, req, fileSize) && Accepted(later, req, fileSize)
    requires IssuedFor(before, between, rs) && (between == after || IssuedFor(between, after, later))
    ensures before <= after && forall c :: c in after - before ==> Accepted(c, req, fileSize)
  {
  }

  lemma ResumeAlike(a: ResumeState, b: ResumeState, env: Env)
    requires b == a.(resolvedName := b.resolvedName, fileSHA1 := b.fileSHA1, preid := b.preid)
    ensures CanResume(a, env) <==> CanResume(b, env)
    ensures a.Session() == b.Session() && AimOf(a, env) == AimOf(b, env)
    ensures CanResume(a, env) ==> a.ossUploadID != ""
    ensures forall req, fileSize :: Accepted(a, req, fileSize) ==> Accepted(b, req, fileSize)
  {
  }

  /** Where the parts of an attempt go: with a pick code the object the service names for resuming, otherwise the announced one. */
  function Aim(state: Option<ResumeState>, req: Request, fileSize: nat, env: Env): Option<Target> {
    if state.Some? && Accepted(state.value, req, fileSize) then AimOf(state.value, env)
    else if env.init.Prepared? then Some(env.init.target) else None
  }

  lemma NoneRemembered(issued: set<ResumeState>, keys: set<Key>, req: Request, fileSize: nat, coded: bool)
    ensures forall r: Outcome :: !r.CompleteSent? ==>
              AllRemembered(issued, Touched(keys, keys, r), req, fileSize, coded)
  {
  }

  lemma OneRemembered(issued: set<ResumeState>, keys: set<Key>, before: set<Key>, session: Key, r: Outcome,
                      req: Request, fileSize: nat, coded: bool)
    requires Remembered(issued, session, req, fileSize, coded) && keys == before + {session}
    requires r.CompleteSent? ==> r.session == session
    ensures AllRemembered(issued, Touched(keys, before, r), req, fileSize, coded)
  {
  }

  /** The service answers for the object the state names, and lists the session. */
  ghost predicate CanResume(rs: ResumeState, env: Env) {
    && env.resume.Some? && IsTarget(env.resume.value) && Names(rs, env.resume.value.bucket, env.resume.value.objectName)
    && env.token.Some? && CanList(env.token.value, env)
  }

  /** The state given to an attempt is for this request and a file of this size, and names a session
      that can be continued. */
  ghost predicate Continuable(state: Option<ResumeState>, req: Request, fileSize: nat, env: Env) {
    && state.Some? && state.value.parentID == req.parentID && state.value.targetName == req.targetName
    && state.value.fileSize == fileSize && state.value.pickCode != "" && CanResume(state.value, env)
  }

  /** All states handed out since are for the same request and size. */
  ghost predicate IssuedFor(before: set<ResumeState>, issued: set<ResumeState>, rs: ResumeState) {
    && before <= issued
    && forall c :: c in issued - before ==> c.parentID == rs.parentID && c.targetName == rs.targetName && c.fileSize == rs.fileSize
  }

  /** Nothing stands in the way of putting the missing parts. */
  ghost predicate CanFill(env: Env) {
    env.readable && env.last.Some? && forall n :: Succeeds(env.put(n))
  }

  /** Sessions of the service before the attempt keep their size, new ones are for this file; and
      what is stored stays of `file` if it was. */
  ghost predicate Continues(sessions0: map<Key, map<nat, Bytes>>, sizes0: map<Key, nat>,
                            sessions: map<Key, map<nat, Bytes>>, sizes: map<Key, nat>, file: Bytes)
    requires sessions0.Keys == sizes0.Keys
  {
    && sessions.Keys == sizes.Keys && sessions0.Keys <= sessions.Keys
    && forall s :: s in sessions ==>
         && sizes[s] == (if s in sizes0 then sizes0[s] else |file|)
         && (s in sessions0 && sizes0[s] != |file| ==> sessions[s] == sessions0[s])
         && ((s in sessions0 ==> StoredFrom(sessions0[s], file)) && sizes[s] == |file| ==> StoredFrom(sessions[s], file))
  }

  /** No session is touched, and new ones are empty and for this size. */
  ghost predicate Grown(sessions0: map<Key, map<nat, Bytes>>, sizes0: map<Key, nat>,
                        sessions: map<Key, map<nat, Bytes>>, sizes: map<Key, nat>, size: nat)
    requires sessions0.Keys == sizes0.Keys
  {
    && sessions.Keys == sizes.Keys && sessions0.Keys <= sessions.Keys
    && forall s :: s in sessions ==>
         if s in sessions0 then sessions[s] == sessions0[s] && sizes[s] == sizes0[s]
         else sessions[s] == map[] && sizes[s] == size
  }

  /** At most one session is filled. */
  ghost predicate OnlyFills(sessions: map<Key, map<nat, Bytes>>, filled: map<Key, map<nat, Bytes>>, session: Key, file: Bytes) {
    && filled.Keys == sessions.Keys && session in sessions
    && (forall s :: s in filled && s != session ==> filled[s] == sessions[s])
    && (StoredFrom(sessions[session], file) ==> StoredFrom(filled[session], file))
  }

  lemma GrownContinues(sessions0: map<Key, map<nat, Bytes>>, sizes0: map<Key, nat>, sessions: map<Key, map<nat, Bytes>>,
                       sizes: map<Key, nat>, file: Bytes)
    requires sessions0.Keys == sizes0.Keys && Grown(sessions0, sizes0, sessions, sizes, |file|)
    ensures Continues(sessions0, sizes0, sessions, sizes, file)
  {
    NothingStored(file);
    hide StoredFrom;
  }

  lemma FilledContinues(sessions0: map<Key, map<nat, Bytes>>, sizes0: map<Key, nat>,
                        sessions: map<Key, map<nat, Bytes>>, sizes: map<Key, nat>, filled: map<Key, map<nat, Bytes>>,
                        session: Key, file: Bytes)
    requires sessions0.Keys == sizes0.Keys && Grown(sessions0, sizes0, sessions, sizes, |file|)
    requires OnlyFills(sessions, filled, session, file) && sizes[session] == |file|
    ensures Continues(sessions0, sizes0, filled, sizes, file)
    ensures filled.Keys == sessions.Keys && Earlier(sessions0, session) == sessions[session]
  {
    NothingStored(file);
    hide StoredFrom;
  }

  lemma Untouched(sessions: map<Key, map<nat, Bytes>>, sizes: map<Key, nat>, file: Bytes)
    requires sessions.Keys == sizes.Keys
    ensures Continues(sessions, sizes, sessions, sizes, file)
  {
    hide StoredFrom;
  }

  class Oss115 {
    const sha1: Bytes -> string
    const etag: Bytes -> string
    /** Stored parts by bucket, object and upload id. */
    var sessions: map<Key, map<nat, Bytes>>
    /** Every resume state handed to the callback so far. */
    var issued: set<ResumeState>
    /** The file size each session was started for. */
    ghost var sizes: map<Key, nat>

    ghost predicate Holds(c: ResumeState)
      reads this`sizes
    {
      && (c.ossUploadID != "" ==> c.Session() in sizes && sizes[c.Session()] == c.fileSize)
      && (c.ossUploadID != "" || c.uploadPhase == "multipart" ==> c.fileSize > SINGLE_PART_UPLOAD_LIMIT)
    }

    ghost predicate Valid()
      reads this
    {
      && (forall b :: etag(b) != "")
      && sizes.Keys == sessions.Keys
      && (forall s :: s in sessions ==> SessionOk(sessions[s], sizes[s]))
      && (forall c :: c in issued ==> Holds(c))
    }

    constructor (sha1: Bytes -> string, etag: Bytes -> string)
      requires forall b :: etag(b) != ""
      ensures Valid() && sessions == map[] && issued == {}
    {
      this.sha1, this.etag, sessions, issued, sizes := sha1, etag, map[], {}, map[];
    }

    /** `persist115ResumeState`. */
    method Persist(rs: ResumeState)
      requires Valid() && Holds(rs)
      modifies this`issued
      ensures Valid() && issued == old(issued) + {rs}
      ensures IssuedFor(old(issued), issued, rs)
    {
      issued := issued + {rs};
    }

    /** `prepare115UploadContext`: the target name, and the hashes unless the state has them. */
    method Prepare(req: Request, file: Bytes, rs0: ResumeState, env: Env)
      returns (stop: Option<Outcome>, rs: ResumeState)
      requires Valid() && Holds(rs0) && rs0.fileSize == |file|
      modifies this`issued
      ensures Valid() && IssuedFor(old(issued), issued, rs0) && Holds(rs)
      ensures stop.Some? ==> stop.value == Failed || (stop.value == Skipped && env.name.NameTaken?)
      ensures Helpful(env) ==> stop != Some(Failed)
      ensures rs0.resolvedName != "" && env.readable ==> stop == None
      ensures stop == None ==> rs == rs0.(resolvedName := rs.resolvedName, fileSHA1 := rs.fileSHA1, preid := rs.preid)
      ensures stop == None ==>
                if rs0.fileSHA1 == "" || rs0.preid == "" then rs.fileSHA1 == sha1(file) && rs.preid == sha1(FirstBytes(file, 131072))
                else rs.fileSHA1 == rs0.fileSHA1 && rs.preid == rs0.preid
      ensures stop == None ==>
                rs.resolvedName == if rs0.resolvedName != "" then rs0.resolvedName else if env.name.NameIs? then env.name.name else ""
      ensures rs0.resolvedName == "" && !env.name.NameIs? ==>
                stop == Some(if env.name.NameTaken? then Skipped else Failed)
    {
      rs, stop := rs0, None;
      Persist(rs);
      if rs.resolvedName == "" {
        if !env.name.NameIs? {
          stop := Some(if env.name.NameTaken? then Skipped else Failed);
          return;
        }
        rs := rs.(resolvedName := env.name.name);
        Persist(rs);
      }
      if rs.fileSHA1 == "" || rs.preid == "" {
        if !env.readable {
          stop := Some(Failed);
          return;
        }
        rs := rs.(fileSHA1 := sha1(file), preid := sha1(FirstBytes(file, 128 * 1024)));
        Persist(rs);
      }
    }

    /** List the session a state names; once more with a new credential if the first one is rejected. */
    method ListCandidate(session: Key, token0: Token, env: Env)
      returns (r: ListResult, existing: seq<Uploaded>, token: Token)
      requires Valid() && session in sessions
      ensures r == Listed ==> ListingOf(existing, sessions[session], etag)
      ensures CanList(token0, env) ==> r == Listed
      ensures r == ListMissing ==> SaidMissing(env)
      ensures IsMissing(token0, env) ==> r == ListMissing
    {
      token, existing, r := token0, [], ListError;
      assert 0 !in sessions[session] by {
        assert SessionOk(sessions[session], sizes[session]);
      }
      var checked := EnsureFresh(token, false, env.now, env.fetched);
      if checked == None {
        return;
      }
      token := checked.value;
      r, existing := ListUploadedParts(sessions[session], etag, env.list);
      if r == ListCredential {
        checked := EnsureFresh(token, true, env.now, env.refetched);
        if checked == None {
          r := ListError;
          return;
        }
        token := checked.value;
        r, existing := ListUploadedParts(sessions[session], etag, env.relist);
      }
    }

    /** Start a new session; once more with a new credential if the first one is rejected. */
    method Initiate(bucket: string, objectName: string, size: nat, token0: Token, env: Env)
      returns (r: Option<Key>, token: Token)
      requires Valid() && NewIDs(sessions.Keys, env)
      modifies this`sessions, this`sizes
      ensures Valid() && Grown(old(sessions), old(sizes), sessions, sizes, size)
      ensures r.Some? ==>
                r.value !in old(sessions) && r.value in sessions && sizes[r.value] == size && sessions[r.value] == map[]
      ensures r.Some? ==> r.value.0 == bucket && r.value.1 == objectName && r.value.2 != ""
      ensures CanInitiate(token0, env) <==> r.Some?
      ensures sessions.Keys == old(sessions).Keys + (if r.Some? then {r.value} else {})
    {
      hide SessionOk, EnsureFresh;
      token, r := token0, None;
      var checked := EnsureFresh(token, false, env.now, env.fetched);
      if checked == None {
        return;
      }
      token := checked.value;
      var reply := env.initiate;
      if reply.InitiateCredential? {
        checked := EnsureFresh(token, true, env.now, env.refetched);
        if checked == None {
          return;
        }
        token, reply := checked.value, env.reinitiate;
      }
      if !reply.Initiated? || reply.uploadID == "" {
        return;
      }
      var session := (bucket, objectName, reply.uploadID);
      assert session !in sessions;
      EmptySession(size);
      sessions, sizes := sessions[session := map[]], sizes[session := size];
      r := Some(session);
    }

    /** The session to continue, with the parts the service lists in it, or a new one. */
    method OpenSession(rs: ResumeState, bucket: string, objectName: string, token0: Token, env: Env)
      returns (r: Option<Key>, existing: seq<Uploaded>, token: Token)
      requires Valid() && Holds(rs) && NewIDs(sessions.Keys, env)
      modifies this`sessions, this`sizes
      ensures Valid() && Grown(old(sessions), old(sizes), sessions, sizes, rs.fileSize)
      ensures r.Some? ==>
                r.value in sessions && sizes[r.value] == rs.fileSize && ListingOf(existing, sessions[r.value], etag)
      ensures r.Some? ==> r.value.0 == bucket && r.value.1 == objectName && r.value.2 != ""
      ensures Names(rs, bucket, objectName) && CanList(token0, env) ==> r == Some(rs.Session())
      ensures sessions.Keys == old(sessions).Keys + (if r.Some? then {r.value} else {})
      ensures r.Some? ==> Chosen(r.value, rs, bucket, objectName, old(sessions).Keys, env)
      ensures !Names(rs, bucket, objectName) ==> (r.Some? <==> CanInitiate(token0, env))
      ensures IsMissing(token0, env) && CanInitiate(token0, env) && env.fetched.Some? ==> r.Some?
      ensures Helpful(env) ==> r.Some?
    {
      token, existing, r := token0, [], None;
      if rs.ossUploadID != "" && rs.bucket == bucket && rs.objectName == objectName {
        assert rs.Session() in sizes.Keys;
        var listing;
        listing, existing, token := ListCandidate(rs.Session(), token, env);
        if listing == Listed {
          r := Some(rs.Session());
          return;
        }
        if listing != ListMissing {
          return;
        }
      }
      existing := [];
      r, token := Initiate(bucket, objectName, rs.fileSize, token, env);
    }

    /** Hand out the states with the counted bytes. */
    method PersistAll(rs: ResumeState, reported: seq<int>)
      requires Valid() && Holds(rs)
      modifies this`issued
      ensures Valid() && IssuedFor(old(issued), issued, rs)
      ensures forall i :: 0 <= i < |reported| ==> rs.(uploadedBytes := reported[i]) in issued
    {
      for i := 0 to |reported|
        invariant Valid() && IssuedFor(old(issued), issued, rs)
        invariant forall j :: 0 <= j < i ==> rs.(uploadedBytes := reported[j]) in issued
      {
        Persist(rs.(uploadedBytes := reported[i]));
      }
    }

    /** The missing parts of one session, and the request to complete it. */
    method UploadToSession(file: Bytes, rs: ResumeState, session: Key, existing: seq<Uploaded>, listed: set<nat>,
                           uploaded: int, token: Token, env: Env)
      returns (r: Outcome, puts: seq<nat>)
      requires Valid() && Holds(rs) && |file| > 0
      requires session in sessions && sizes[session] == |file| && ListingOf(existing, sessions[session], etag)
      requires listed == sessions[session].Keys && CountsHeld(uploaded, sessions[session], file)
      modifies this`sessions, this`issued
      ensures Valid() && IssuedFor(old(issued), issued, rs) && OnlyFills(old(sessions), sessions, session, file)
      ensures r.CompleteSent? || r.Failed?
      ensures r.CompleteSent? ==>
                r.session == session && Built(old(sessions)[session], sessions[session], file, r.parts, etag)
      ensures r.CompleteSent? ==> ExactlyMissing(puts, old(sessions)[session], PartsOf(file))
      ensures r.CompleteSent? ==> forall n :: n in ReportsFor(file, old(sessions)[session]) ==> rs.(uploadedBytes := n) in issued
      ensures CanFill(env) ==> r.CompleteSent?
    {
      hide SessionOk, ListingOf, StoredFrom, Built, ExactlyMissing, DueReports, CountsHeld;
      var ok, completed, stored, reported;
      ok, completed, stored, reported, puts := FillSession(file, existing, listed, uploaded, sessions[session], token, env,
                                                             etag);
      sessions := sessions[session := stored];
      PersistAll(rs, reported);
      r := Failed;
      if ok && EnsureFresh(token, false, env.now, env.last).Some? {
        r := CompleteSent(session, completed);
      }
    }

    /** `ossMultipartUpload`. */
    method OssMultipartUpload(file: Bytes, rs0: ResumeState, target: Target, token0: Token, env: Env)
      returns (r: Outcome, puts: seq<nat>)
      requires Valid() && Holds(rs0) && rs0.fileSize == |file| > SINGLE_PART_UPLOAD_LIMIT && NewIDs(sessions.Keys, env)
      modifies this
      ensures Valid() && IssuedFor(old(issued), issued, rs0)
      ensures Continues(old(sessions), old(sizes), sessions, sizes, file)
      ensures r.CompleteSent? || r.Failed?
      ensures Helpful(env) && IsTarget(target) ==> r != Failed
      ensures r.CompleteSent? ==> Chosen(r.session, rs0, target.bucket, target.objectName, old(sessions).Keys, env)
      ensures r.CompleteSent? ==> Completes(r, puts, old(sessions), sessions, sizes, Some(target), file, etag)
      ensures AllRemembered(issued, Touched(sessions.Keys, old(sessions).Keys, r), Request(rs0.parentID, rs0.targetName), |file|,
                            target.pickCode != "" || rs0.pickCode != "")
      ensures Names(rs0, target.bucket, target.objectName) && CanList(token0, env) && r.CompleteSent? ==>
                r.session == rs0.Session()
      ensures Names(rs0, target.bucket, target.objectName) && CanList(token0, env) && IsTarget(target) && CanFill(env) ==>
                r.CompleteSent?
    {
      hide SessionOk, ListingOf, StoredFrom, Built, NewIDs, ExactlyMissing, AllRemembered, Remembered, Touched,
        Helpful, CanList, CanInitiate,
           IsMissing, CanFill, OnlyFills, Continues, Grown;
      HelpfulFills(env);
      ghost var named := Request(rs0.parentID, rs0.targetName);
      ghost var coded := target.pickCode != "" || rs0.pickCode != "";
      NoneRemembered(issued, sessions.Keys, named, |file|, coded);
      Untouched(sessions, sizes, file);
      r, puts := Failed, [];
      if target.bucket == "" || target.objectName == "" {
        return;
      }
      var session, existing, token := OpenSession(rs0, target.bucket, target.objectName, token0, env);
      if session == None {
        assert sessions.Keys == old(sessions).Keys;
        GrownContinues(old(sessions), old(sizes), sessions, sizes, file);
        return;
      }
      ghost var grown := sessions;
      r, puts := ContinueSession(file, rs0, target, session.value, existing, token, env);
      FilledContinues(old(sessions), old(sizes), grown, sizes, sessions, session.value, file);
      OneRemembered(issued, sessions.Keys, old(sessions).Keys, session.value, r, named, |file|, coded);
    }

    /** The state that names the session is handed out before anything is put into it. */
    method ContinueSession(file: Bytes, rs0: ResumeState, target: Target, session: Key, existing: seq<Uploaded>,
                           token: Token, env: Env)
      returns (r: Outcome, puts: seq<nat>)
      requires Valid() && rs0.fileSize == |file| > SINGLE_PART_UPLOAD_LIMIT
      requires session in sessions && sizes[session] == |file| && ListingOf(existing, sessions[session], etag)
      requires session.0 == target.bucket && session.1 == target.objectName
      modifies this`sessions, this`issued
      ensures Valid() && IssuedFor(old(issued), issued, rs0) && OnlyFills(old(sessions), sessions, session, file)
      ensures r.CompleteSent? || r.Failed?
      ensures r.CompleteSent? ==>
                r.session == session && Built(old(sessions)[session], sessions[session], file, r.parts, etag)
      ensures r.CompleteSent? ==> ExactlyMissing(puts, old(sessions)[session], PartsOf(file))
      ensures CanFill(env) ==> r.CompleteSent?
      ensures Remembered(issued, session, Request(rs0.parentID, rs0.targetName), |file|, target.pickCode != "" || rs0.pickCode != "")
      ensures exists c :: c in issued && c.Session() == session && CountsHeld(c.uploadedBytes, old(sessions)[session], file)
    {
      hide SessionOk, ListingOf, StoredFrom, Built, ExactlyMissing, CountsHeld, CountedTo;
      SessionLengths(sessions[session], |file|);
      var uploaded, listed := ListedBytes(existing, sessions[session], etag, |file|, CalculateOSSPartSize(|file|));
      CountedIsHeld(uploaded, sessions[session], file);
      var rs := rs0.(uploadPhase := "multipart", bucket := target.bucket, objectName := target.objectName, ossUploadID := session.2,
                     uploadedBytes := uploaded,
                     pickCode := if rs0.pickCode != "" then rs0.pickCode else target.pickCode);
      assert Remembers(rs, session, Request(rs0.parentID, rs0.targetName), |file|, target.pickCode != "" || rs0.pickCode != "");
      Persist(rs);
      assert rs in issued && rs.Session() == session;
      r, puts := Failed, [];
      if env.readable {
        r, puts := UploadToSession(file, rs, session, existing, listed, uploaded, token, env);
      }
    }

    /** `resumeMultipartUpload`: another bucket or object drops the upload id. */
    method ResumeMultipartUpload(file: Bytes, rs0: ResumeState, env: Env) returns (r: Outcome, puts: seq<nat>)
      requires Valid() && Holds(rs0) && rs0.fileSize == |file| > SINGLE_PART_UPLOAD_LIMIT && NewIDs(sessions.Keys, env)
      modifies this
      ensures Valid() && IssuedFor(old(issued), issued, rs0)
      ensures r.CompleteSent? ==> Completes(r, puts, old(sessions), sessions, sizes, env.resume, file, etag)
      ensures r.CompleteSent? ==>
                Chosen(r.session, rs0, env.resume.value.bucket, env.resume.value.objectName, old(sessions).Keys, env)
      ensures AllRemembered(issued, Touched(sessions.Keys, old(sessions).Keys, r), Request(rs0.parentID, rs0.targetName), |file|,
                            rs0.pickCode != "")
      ensures CanResume(rs0, env) && r.CompleteSent? ==> r.session == rs0.Session()
      ensures CanResume(rs0, env) && CanFill(env) ==> r.CompleteSent?
      ensures Continues(old(sessions), old(sizes), sessions, sizes, file)
      ensures r.CompleteSent? || r.Failed?
      ensures Helpful(env) ==> r != Failed
    {
      hide SessionOk, StoredFrom, Completes, AllRemembered, Remembered, Touched, Continues;
      Untouched(sessions, sizes, file);
      r, puts := Failed, [];
      ghost var named := Request(rs0.parentID, rs0.targetName);
      NoneRemembered(issued, sessions.Keys, named, |file|, rs0.pickCode != "");
      if env.resume == None || env.resume.value.bucket == "" || env.resume.value.objectName == "" {
        return;
      }
      var target := env.resume.value;
      var same := rs0.bucket == target.bucket && rs0.objectName == target.objectName;
      var rs := rs0.(ossUploadID := if same then rs0.ossUploadID else "", bucket := target.bucket, objectName := target.objectName,
                     pickCode := if target.pickCode != "" then target.pickCode else rs0.pickCode, uploadPhase := "multipart");
      Persist(rs);
      NoneRemembered(issued, sessions.Keys, named, |file|, rs0.pickCode != "");
      if env.token == None {
        return;
      }
      r, puts := OssMultipartUpload(file, rs, target, env.token.value, env);
      RememberedToo(issued, Touched(sessions.Keys, old(sessions).Keys, r), named, |file|, rs.pickCode != "" || target.pickCode != "",
                    rs0.pickCode != "");
    }

    /** One attempt. A large file goes up in parts; when the service is asked to complete a session, it
        has every part in order, and builds the current file exactly when the parts it held before the
        attempt are parts of the current file. */
    method UploadLocalFile(req: Request, file: Bytes, state: Option<ResumeState>, env: Env)
      returns (r: Outcome, puts: seq<nat>)
      requires Valid() && (state.Some? ==> state.value in issued) && NewIDs(sessions.Keys, env)
      modifies this
      ensures Valid() && old(issued) <= issued
      ensures forall c :: c in issued - old(issued) ==> Accepted(c, req, |file|)
      ensures r.CompleteSent? ==>
                Completes(r, puts, old(sessions), sessions, sizes, Aim(state, req, |file|, env), file, etag)
      ensures r.CompleteSent? && r.session in old(sessions) ==>
                state.Some? && Accepted(state.value, req, |file|) && r.session == state.value.Session()
      ensures AllRemembered(issued, Touched(sessions.Keys, old(sessions).Keys, r), req, |file|, env.init.Prepared? && env.init.target.pickCode != "")
      ensures Continuable(state, req, |file|, env) && r.CompleteSent? ==> r.session == state.value.Session()
      ensures Continuable(state, req, |file|, env) && CanFill(env) && req.targetName != "" ==> r.CompleteSent?
      ensures Continues(old(sessions), old(sizes), sessions, sizes, file)
      ensures r.WholeFileSent? ==> r.content == file && |file| <= 536870912
      ensures Helpful(env) ==> r != Failed
      ensures (r == Skipped ==> env.name.NameTaken?) && (r == RapidUpload ==> env.init.Rapid?)
      ensures !(state.Some? && Accepted(state.value, req, |file|)) && !env.name.NameIs? ==>
                r == if env.name.NameTaken? then Skipped else Failed
    {
      hide *;
      puts := [];
      var given := Begin(req, |file|, state);
      Begins(req, |file|, state, env);
      BeginHolds(req, |file|, state);
      var stop, rs := Prepare(req, file, given, env);
      IssuedTwice(old(issued), issued, issued, given, given, req, |file|);
      if stop.Some? {
        NoneRemembered(issued, sessions.Keys, req, |file|, env.init.Prepared? && env.init.target.pickCode != "");
        Untouched(sessions, sizes, file);
        return stop.value, [];
      }
      ResumeAlike(given, rs, env);
      ghost var prepared := issued;
      r, puts := UploadPrepared(file, rs, env);
      IssuedTwice(old(issued), prepared, issued, given, rs, req, |file|);
    }

    lemma BeginHolds(req: Request, fileSize: nat, state: Option<ResumeState>)
      requires Valid() && (state.Some? ==> state.value in issued)
      ensures Holds(Begin(req, fileSize, state)) && sizes.Keys == sessions.Keys
      ensures Begin(req, fileSize, state).ossUploadID != "" ==> fileSize > 536870912
    {
    }

    /** With a pick code a large file goes on at the service's word, otherwise it is announced first. */
    method UploadPrepared(file: Bytes, rs: ResumeState, env: Env) returns (r: Outcome, puts: seq<nat>)
      requires Valid() && Holds(rs) && rs.fileSize == |file| && NewIDs(sessions.Keys, env)
      modifies this
      ensures Valid() && IssuedFor(old(issued), issued, rs)
      ensures r.CompleteSent? ==> Completes(r, puts, old(sessions), sessions, sizes, AimOf(rs, env), file, etag)
      ensures r.CompleteSent? && r.session in old(sessions) ==> rs.ossUploadID != "" && r.session == rs.Session()
      ensures AllRemembered(issued, Touched(sessions.Keys, old(sessions).Keys, r), Request(rs.parentID, rs.targetName), |file|,
                            env.init.Prepared? && env.init.target.pickCode != "")
      ensures rs.pickCode != "" && CanResume(rs, env) && r.CompleteSent? ==> r.session == rs.Session()
      ensures rs.pickCode != "" && CanResume(rs, env) && CanFill(env) && |file| > 536870912 ==> r.CompleteSent?
      ensures Continues(old(sessions), old(sizes), sessions, sizes, file)
      ensures r.WholeFileSent? ==> r.content == file && |file| <= 536870912
      ensures (Helpful(env) ==> r != Failed) && r != Skipped && (r == RapidUpload ==> env.init.Rapid?)
      ensures r.CompleteSent? ==> |file| > 536870912
    {
      hide SessionOk, StoredFrom, Completes, AllRemembered, Remembered, Touched, CanResume, CanFill, Continues;
      puts := [];
      ghost var named := Request(rs.parentID, rs.targetName);
      ghost var coded := env.init.Prepared? && env.init.target.pickCode != "";
      if ShouldResumeMultipart(rs) {
        r, puts := ResumeMultipartUpload(file, rs, env);
        RememberedToo(issued, Touched(sessions.Keys, old(sessions).Keys, r), named, |file|, rs.pickCode != "", coded);
        return;
      }
      if !env.init.Prepared? {
        Untouched(sessions, sizes, file);
        NoneRemembered(issued, sessions.Keys, named, |file|, coded);
        return if env.init.Rapid? then RapidUpload else Failed, [];
      }
      r, puts := StartUpload(file, rs, env);
    }

    /** The upload after the file was announced: in one request or in parts. */
    method StartUpload(file: Bytes, rs0: ResumeState, env: Env) returns (r: Outcome, puts: seq<nat>)
      requires Valid() && Holds(rs0) && rs0.fileSize == |file| && env.init.Prepared? && NewIDs(sessions.Keys, env)
      modifies this
      ensures Valid() && IssuedFor(old(issued), issued, rs0)
      ensures r.CompleteSent? ==> Completes(r, puts, old(sessions), sessions, sizes, Some(env.init.target), file, etag)
      ensures AllRemembered(issued, Touched(sessions.Keys, old(sessions).Keys, r), Request(rs0.parentID, rs0.targetName), |file|,
                            env.init.target.pickCode != "")
      ensures r.CompleteSent? ==>
                Chosen(r.session, rs0, env.init.target.bucket, env.init.target.objectName, old(sessions).Keys, env)
      ensures Continues(old(sessions), old(sizes), sessions, sizes, file)
      ensures r.WholeFileSent? ==> r.content == file && |file| <= 536870912
      ensures (Helpful(env) ==> r != Failed) && r != Skipped && r != RapidUpload
      ensures r.CompleteSent? ==> |file| > 536870912
    {
      hide SessionOk, StoredFrom, Completes, AllRemembered, Remembered, Touched, Continues;
      Untouched(sessions, sizes, file);
      puts := [];
      var target := env.init.target;
      var small := |file| <= SINGLE_PART_UPLOAD_LIMIT;
      var rs := rs0.(pickCode := if target.pickCode != "" then target.pickCode else rs0.pickCode,
                     uploadPhase := if small then "single_part" else "multipart");
      assert rs.Session() == rs0.Session();
      Persist(rs);
      ghost var named := Request(rs0.parentID, rs0.targetName);
      NoneRemembered(issued, sessions.Keys, named, |file|, target.pickCode != "");
      if env.token == None {
        return Failed, [];
      }
      if !small {
        r, puts := OssMultipartUpload(file, rs, target, env.token.value, env);
        RememberedToo(issued, Touched(sessions.Keys, old(sessions).Keys, r), named, |file|, target.pickCode != "" || rs.pickCode != "",
                      target.pickCode != "");
      } else if target.bucket == "" || target.objectName == "" || !env.readable || !env.sent {
        r := Failed;
      } else {
        r := WholeFileSent(file);
      }
    }

    /** Any number of attempts for one unchanged file, each with any state handed out before and
        whatever faults. */
    method UploadRuns(file: Bytes, attempts: seq<Attempt>) returns (built: seq<Option<Bytes>>)
      requires Valid() && OnlyFrom(file)
      modifies this
      ensures Valid() && OnlyFrom(file) && |built| == |attempts|
      ensures forall b :: b in built && b.Some? ==> b.value == file
    {
      built := [];
      for i := 0 to |attempts|
        invariant Valid() && OnlyFrom(file) && |built| == i
        invariant forall b :: b in built && b.Some? ==> b.value == file
      {
        var whole := RunOnce(file, attempts[i]);
        built := built + [whole];
      }
    }

    method RunOnce(file: Bytes, a: Attempt) returns (whole: Option<Bytes>)
      requires Valid() && OnlyFrom(file)
      modifies this
      ensures Valid() && OnlyFrom(file) && (whole.Some? ==> whole.value == file)
    {
      var state := if a.state.Some? && a.state.value in issued then a.state else None;
      var clash := exists s :: s in sessions && ((a.env.initiate.Initiated? && a.env.initiate.uploadID == s.2)
                                                 || (a.env.reinitiate.Initiated? && a.env.reinitiate.uploadID == s.2));
      var env := if clash then a.env.(initiate := InitiateFails, reinitiate := InitiateFails) else a.env;
      hide SessionOk, StoredFrom, Holds, Continuable, CanFill, ExactlyMissing, At, Helpful, AllRemembered;
      NothingStored(file);
      var r, puts := UploadLocalFile(a.req, file, state, env);
      whole := None;
      if r.CompleteSent? {
        assert CompleteRequest(r.parts, sessions[r.session], etag, PartCount(|file|, CalculateOSSPartSize(|file|)));
        whole := Some(Assemble(sessions[r.session], PartCount(|file|, CalculateOSSPartSize(|file|))));
      } else if r.WholeFileSent? {
        whole := Some(r.content);
      }
    }

    /** Every part stored in a session for a file of this size is that part of `file`. */
    ghost predicate OnlyFrom(file: Bytes)
      reads this`sessions, this`sizes
    {
      forall s :: s in sessions && s in sizes && sizes[s] == |file| ==> StoredFrom(sessions[s], file)
    }
  }

  /** The service opens new sessions under ids not used before. */
  ghost predicate NewIDs(used: set<Key>, env: Env) {
    forall s :: s in used ==>
      && !(env.initiate.Initiated? && env.initiate.uploadID == s.2)
      && !(env.reinitiate.Initiated? && env.reinitiate.uploadID == s.2)
  }
}
