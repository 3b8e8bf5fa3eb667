/** drivers/189Cloud/upload.go: the service's reply to a request for one part's upload address may be
    for another part, and the part it names is the one that is put. */
module Cloud189 {
  import opened UploadPlan
  import opened Wrappers

  const DEFAULT_PART_SIZE := 10 * 1024 * 1024

  // ----- part size -----

  /** `uploadPartSize`. */
  function UploadPartSize(fileSize: nat): (partSize: int)
    ensures partSize > 0
  {
    if fileSize > DEFAULT_PART_SIZE * 2 * 999 then
      var multiple := (fileSize + 1999 * DEFAULT_PART_SIZE - 1) / (1999 * DEFAULT_PART_SIZE);
      (if multiple < 5 then 5 else multiple) * DEFAULT_PART_SIZE
    else if fileSize > DEFAULT_PART_SIZE * 999 then DEFAULT_PART_SIZE * 2
    else DEFAULT_PART_SIZE
  }

  lemma AtMost(size: nat, partSize: int, most: nat)
    requires partSize > 0 && size <= most * partSize && most >= 1
    ensures PartCount(size, partSize) <= most
  {
    if PartCount(size, partSize) > most {
      MulMonotone(most, PartCount(size, partSize) - 1, partSize);
    }
  }

  /** Whatever the size, at most 1999 parts of a multiple of 10 MiB. */
  lemma PartsAreBounded(fileSize: nat)
    ensures UploadPartSize(fileSize) % DEFAULT_PART_SIZE == 0
    ensures PartCount(fileSize, UploadPartSize(fileSize)) <= 1999
    ensures UploadPartSize(fileSize) == 10485760 <==> fileSize <= 999 * 10485760
    ensures UploadPartSize(fileSize) == 20971520 <==> 999 * 10485760 < fileSize <= 1998 * 10485760
    ensures var partSize := UploadPartSize(fileSize);
            partSize > 20971520 ==> partSize == 52428800 || (partSize > 52428800 && fileSize > 1999 * (partSize - 10485760))
  {
    var partSize := UploadPartSize(fileSize);
    if fileSize > DEFAULT_PART_SIZE * 2 * 999 {
      var multiple := (fileSize + 1999 * DEFAULT_PART_SIZE - 1) / (1999 * DEFAULT_PART_SIZE);
      assert fileSize <= multiple * (1999 * DEFAULT_PART_SIZE);
      AtMost(fileSize, partSize, 1999);
    } else {
      AtMost(fileSize, partSize, 999);
    }
  }

  // ----- hashes -----

  /** The checksums of a file: of the whole, of each part, and of the list of part checksums. */
  datatype HashInfo = HashInfo(fileMD5: string, sliceMD5: string, partHexes: seq<string>)

  function Lines(hexes: seq<string>): string {
    if |hexes| == 0 then "" else if |hexes| == 1 then hexes[0] else Lines(hexes[..|hexes| - 1]) + "\n" + hexes[|hexes| - 1]
  }

  /** Lines of one length stand one after the other, each but the last with a line end after it. */
  lemma {:induction false} LineAt(hexes: seq<string>, width: nat, i: nat)
    requires i < |hexes| && forall k :: 0 <= k < |hexes| ==> |hexes[k]| == width
    ensures |Lines(hexes)| == |hexes| * (width + 1) - 1
    ensures 0 <= i * (width + 1) <= i * (width + 1) + width <= |Lines(hexes)|
    ensures Lines(hexes)[i * (width + 1)..i * (width + 1) + width] == hexes[i]
    ensures i < |hexes| - 1 ==>
              i * (width + 1) + width < |Lines(hexes)| && Lines(hexes)[i * (width + 1) + width] == '\n'
  {
    var init, last := hexes[..|hexes| - 1], hexes[|hexes| - 1];
    if |hexes| > 1 {
      LineAt(init, width, if i < |init| then i else |init| - 1);
      assert Lines(hexes) == Lines(init) + "\n" + last;
      Widths(|init|, width, i);
    }
  }

  lemma Widths(n: nat, width: nat, i: nat)
    ensures (n + 1) * (width + 1) == n * (width + 1) + width + 1
    ensures i < n ==> i * (width + 1) + width + 1 <= n * (width + 1)
  {
    if i < n {
      MulMonotone(i + 1, n, width + 1);
    }
  }

  function PartHexes(file: Bytes, partSize: int, md5: Bytes -> string): seq<string>
    requires partSize > 0
  {
    if |file| == 0 then []
    else seq(PartCount(|file|, partSize), i requires 0 <= i < PartCount(|file|, partSize) => md5(Part(file, partSize, i + 1)))
  }

  /** The checksums the service compares: of the whole file, and of the list of part checksums. */
  function Checksums(file: Bytes, partSize: int, md5: Bytes -> string, md5Text: string -> string): HashInfo
    requires partSize > 0
  {
    var hexes := PartHexes(file, partSize, md5);
    HashInfo(md5(file), if |file| > partSize then md5Text(Lines(hexes)) else md5(file), hexes)
  }

  /** A file of one part has one checksum. For a longer one the second checksum is that of a text whose
      i-th line is the checksum of part i + 1. */
  lemma SliceChecksum(file: Bytes, partSize: int, md5: Bytes -> string, md5Text: string -> string, i: nat)
    returns (text: string)
    requires partSize > 0 && |file| > 0 && i < PartCount(|file|, partSize) && forall b :: |md5(b)| == 32
    ensures Checksums(file, partSize, md5, md5Text).fileMD5 == md5(file)
    ensures Checksums(file, partSize, md5, md5Text).sliceMD5 == if |file| <= partSize then md5(file) else md5Text(text)
    ensures |text| == 33 * PartCount(|file|, partSize) - 1
    ensures text[33 * i..33 * i + 32] == md5(Part(file, partSize, i + 1))
  {
    hide *;
    var hexes := PartHexes(file, partSize, md5);
    OneChecksum(file, partSize, md5, md5Text);
    HexesAre(file, partSize, md5);
    text := Lines(hexes);
    LineAt(hexes, 32, i);
  }

  lemma OneChecksum(file: Bytes, partSize: int, md5: Bytes -> string, md5Text: string -> string)
    requires partSize > 0
    ensures Checksums(file, partSize, md5, md5Text).fileMD5 == md5(file)
    ensures Checksums(file, partSize, md5, md5Text).sliceMD5 ==
            if |file| <= partSize then md5(file) else md5Text(Lines(PartHexes(file, partSize, md5)))
  {
  }

  lemma HexesAre(file: Bytes, partSize: int, md5: Bytes -> string)
    requires partSize > 0 && |file| > 0
    ensures var hexes := PartHexes(file, partSize, md5);
            |hexes| == PartCount(|file|, partSize) && forall k :: 0 <= k < |hexes| ==> hexes[k] == md5(Part(file, partSize, k + 1))
  {
  }

  /** `calculateUploadHashes`; `md5` is the checksum of bytes, `md5Text` that of a text. */
  method CalculateUploadHashes(file: Bytes, partSize: int, md5: Bytes -> string, md5Text: string -> string)
    returns (info: HashInfo)
    requires partSize > 0
    ensures info == Checksums(file, partSize, md5, md5Text)
  {
    if |file| == 0 {
      return HashInfo(md5([]), md5([]), []);
    }
    var written: Bytes := [];
    var partHexes: seq<string> := [];
    var cursor := 0;
    while cursor < |file|
      invariant 0 <= cursor <= |file| && written == file[..cursor]
      invariant 0 <= |partHexes| * partSize && cursor == Min(|partHexes| * partSize, |file|)
      invariant cursor < |file| ==> |partHexes| < PartCount(|file|, partSize)
      invariant cursor == |file| ==> |partHexes| == PartCount(|file|, partSize)
      invariant forall i :: 0 <= i < |partHexes| ==> partHexes[i] == md5(Part(file, partSize, i + 1))
    {
      var k := |partHexes| + 1;
      Offsets(k, partSize);
      var n := Min(partSize, |file| - cursor);
      var chunk := file[cursor..cursor + n];
      assert chunk == Part(file, partSize, k);
      SliceJoin(file, cursor, cursor + n);
      CountAt(|file|, partSize, k);
      written := written + chunk;
      partHexes := partHexes + [md5(chunk)];
      cursor := cursor + n;
    }
    assert file[..|file|] == file;
    assert partHexes == PartHexes(file, partSize, md5);
    info := HashInfo(md5(written), if |file| > partSize then md5Text(Lines(partHexes)) else md5(written), partHexes);
  }

  lemma CountAt(size: nat, partSize: int, k: nat)
    requires partSize > 0 && size > 0 && 1 <= k <= PartCount(size, partSize)
    ensures k * partSize >= size ==> k == PartCount(size, partSize)
    ensures k * partSize < size ==> k < PartCount(size, partSize)
  {
    if k < PartCount(size, partSize) {
      MulMonotone(k, PartCount(size, partSize) - 1, partSize);
    }
  }

  // ----- the part chosen by a reply -----

  /** One entry of a reply: the part number it states (0 when it states none), and its address. */
  datatype Entry = Entry(stated: nat, url: string, present: bool)

  /** The `uploadUrls` of a reply: a list, an object given as key numbers (0 when the key has none)
      in the order they are visited, or neither. */
  datatype UploadUrls = ListOf(items: seq<Entry>) | ObjectOf(members: seq<(nat, Entry)>) | Neither

  function FromList(items: seq<Entry>): map<nat, Entry> {
    if items == [] then map[]
    else
      var i := |items| - 1;
      FromList(items[..i])[(if items[i].stated > 0 then items[i].stated else i + 1) := items[i]]
  }

  function FromObject(members: seq<(nat, Entry)>, expected: nat): map<nat, Entry> {
    if members == [] then map[]
    else
      var i := |members| - 1;
      var part := if members[i].1.stated > 0 then members[i].1.stated else if members[i].0 > 0 then members[i].0 else expected;
      FromObject(members[..i], expected)[part := members[i].1]
  }

  function Candidates(raw: UploadUrls, expected: nat): map<nat, Entry> {
    match raw
    case ListOf(items) => FromList(items)
    case ObjectOf(members) => FromObject(members, expected)
    case Neither => map[]
  }

  /** What the service offers: parts with their addresses. */
  datatype Offer = Offer(part: nat, url: string)

  /** The candidates are exactly the offers; of two for one part, the later one. */
  ghost predicate Offered(c: map<nat, Entry>, offers: seq<Offer>) {
    && (forall p: nat :: p in c <==> Names(offers, p))
    && (forall i :: 0 <= i < |offers| && IsLast(offers, i) && offers[i].part in c ==>
          c[offers[i].part].url == offers[i].url && c[offers[i].part].present)
  }

  ghost predicate Names(offers: seq<Offer>, p: nat) {
    exists i :: 0 <= i < |offers| && offers[i].part == p
  }

  /** No later offer is for the same part. */
  ghost predicate IsLast(offers: seq<Offer>, i: nat)
    requires i < |offers|
  {
    forall j :: i < j < |offers| ==> offers[j].part != offers[i].part
  }

  lemma NamesMore(offers: seq<Offer>, p: nat)
    requires offers != []
    ensures Names(offers, p) <==> Names(offers[..|offers| - 1], p) || p == offers[|offers| - 1].part
  {
    var rest := offers[..|offers| - 1];
    if i :| 0 <= i < |offers| && offers[i].part == p {
      assert i < |rest| ==> rest[i].part == p;
    }
    if i :| 0 <= i < |rest| && rest[i].part == p {
      assert offers[i].part == p;
    }
  }

  lemma LastOfRest(offers: seq<Offer>, i: nat)
    requires i < |offers| - 1 && IsLast(offers, i)
    ensures IsLast(offers[..|offers| - 1], i) && offers[i].part != offers[|offers| - 1].part
  {
  }

  lemma OfferMore(c: map<nat, Entry>, offers: seq<Offer>, entry: Entry)
    requires offers != [] && Offered(c, offers[..|offers| - 1])
    requires entry.url == offers[|offers| - 1].url && entry.present
    ensures Offered(c[offers[|offers| - 1].part := entry], offers)
  {
    hide Names, IsLast;
    var rest, last := offers[..|offers| - 1], offers[|offers| - 1];
    var d := c[last.part := entry];
    forall p: nat
      ensures p in d <==> Names(offers, p)
    {
      NamesMore(offers, p);
    }
    forall i | 0 <= i < |offers| && IsLast(offers, i) && offers[i].part in d
      ensures d[offers[i].part].url == offers[i].url && d[offers[i].part].present
    {
      if i < |rest| {
        LastOfRest(offers, i);
        assert rest[i] == offers[i];
      }
    }
  }

  /** A list that states each part's number. */
  function StatedList(offers: seq<Offer>): UploadUrls {
    ListOf(seq(|offers|, i requires 0 <= i < |offers| => Entry(offers[i].part, offers[i].url, true)))
  }

  /** A list without numbers: parts 1, 2 and so on. */
  function PlainList(urls: seq<string>): UploadUrls {
    ListOf(seq(|urls|, i requires 0 <= i < |urls| => Entry(0, urls[i], true)))
  }

  /** An object whose keys are the part numbers. */
  function KeyedObject(offers: seq<Offer>): UploadUrls {
    ObjectOf(seq(|offers|, i requires 0 <= i < |offers| => (offers[i].part, Entry(0, offers[i].url, true))))
  }

  /** An object that states each part's number, whatever its keys are. */
  function StatedObject(offers: seq<Offer>, keys: seq<nat>): UploadUrls
    requires |keys| == |offers|
  {
    ObjectOf(seq(|offers|, i requires 0 <= i < |offers| => (keys[i], Entry(offers[i].part, offers[i].url, true))))
  }

  lemma {:induction false} StatedListReadsBack(offers: seq<Offer>, n: nat)
    requires forall i :: 0 <= i < |offers| ==> offers[i].part > 0
    ensures Offered(Candidates(StatedList(offers), n), offers)
  {
    if offers != [] {
      var k := |offers| - 1;
      StatedListReadsBack(offers[..k], n);
      assert StatedList(offers).items[..k] == StatedList(offers[..k]).items;
      OfferMore(FromList(StatedList(offers[..k]).items), offers, StatedList(offers).items[k]);
    }
  }

  lemma {:induction false} PlainListReadsBack(urls: seq<string>, n: nat)
    ensures Offered(Candidates(PlainList(urls), n), seq(|urls|, i requires 0 <= i < |urls| => Offer(i + 1, urls[i])))
  {
    if urls != [] {
      var k := |urls| - 1;
      var offers := seq(|urls|, i requires 0 <= i < |urls| => Offer(i + 1, urls[i]));
      PlainListReadsBack(urls[..k], n);
      assert PlainList(urls).items[..k] == PlainList(urls[..k]).items;
      assert offers[..k] == seq(k, i requires 0 <= i < k => Offer(i + 1, urls[..k][i]));
      OfferMore(FromList(PlainList(urls[..k]).items), offers, PlainList(urls).items[k]);
    }
  }

  lemma {:induction false} KeyedObjectReadsBack(offers: seq<Offer>, n: nat)
    requires forall i :: 0 <= i < |offers| ==> offers[i].part > 0
    ensures Offered(Candidates(KeyedObject(offers), n), offers)
  {
    if offers != [] {
      var k := |offers| - 1;
      KeyedObjectReadsBack(offers[..k], n);
      assert KeyedObject(offers).members[..k] == KeyedObject(offers[..k]).members;
      OfferMore(FromObject(KeyedObject(offers[..k]).members, n), offers, KeyedObject(offers).members[k].1);
    }
  }

  lemma {:induction false} StatedObjectReadsBack(offers: seq<Offer>, keys: seq<nat>, n: nat)
    requires |keys| == |offers| && forall i :: 0 <= i < |offers| ==> offers[i].part > 0
    ensures Offered(Candidates(StatedObject(offers, keys), n), offers)
  {
    if offers != [] {
      var k := |offers| - 1;
      StatedObjectReadsBack(offers[..k], keys[..k], n);
      assert StatedObject(offers, keys).members[..k] == StatedObject(offers[..k], keys[..k]).members;
      OfferMore(FromObject(StatedObject(offers[..k], keys[..k]).members, n), offers,
                StatedObject(offers, keys).members[k].1);
    }
  }

  /** An object that names no part at all is for the part asked for. */
  lemma UnnamedIsExpected(url: string, n: nat)
    ensures Candidates(Neither, n) == map[]
    ensures Offered(Candidates(ObjectOf([(0, Entry(0, url, true))]), n), [Offer(n, url)])
  {
    var members := [(0, Entry(0, url, true))];
    assert members[..0] == [] && FromObject([], n) == map[];
    assert Candidates(ObjectOf(members), n) == map[n := Entry(0, url, true)];
    assert [Offer(n, url)][0].part == n;
  }

  /** `selectUploadPart`: the expected part if it is offered, otherwise any part that is. */
  method SelectUploadPart(raw: UploadUrls, expected: nat) returns (part: nat, entry: Entry)
    ensures var c := Candidates(raw, expected);
            if expected in c then part == expected && entry == c[expected]
            else if c.Keys != {} then part in c && entry == c[part]
            else part == expected && !entry.present
  {
    var c := Candidates(raw, expected);
    if expected in c {
      return expected, c[expected];
    }
    if c.Keys != {} {
      var k :| k in c.Keys;
      return k, c[k];
    }
    return expected, Entry(0, "", false);
  }

  // ----- attempts -----

  datatype Request = Request(space: string, parentID: string, requestedName: string)

  datatype Checkpoint = Checkpoint(space: string, parentID: string, requestedName: string, targetName: string,
                                   fileSize: int, partSize: int, fileMD5: string, sliceMD5: string,
                                   uploadFileID: string, completedParts: seq<nat>, rapid: bool)

  /** `normalize189ResumeState` once the file is hashed. */
  predicate Accepted(c: Checkpoint, req: Request, fileSize: nat, fileMD5: string, sliceMD5: string) {
    && (if c.space == "" then "personal" else c.space) == req.space
    && c.parentID == req.parentID && c.requestedName == req.requestedName
    && c.fileSize == fileSize && c.partSize == UploadPartSize(fileSize)
    && c.targetName != "" && c.uploadFileID != "" && c.fileMD5 != "" && c.sliceMD5 != ""
    && c.fileMD5 == fileMD5 && c.sliceMD5 == sliceMD5
  }

  /** A checkpoint is accepted for one space, parent, name, size and content only; "personal" is the
      space of one that names none. */
  lemma AcceptedForSame(c: Checkpoint, req: Request, fileSize: nat, fileMD5: string, sliceMD5: string, other: Request,
                        otherSize: nat, otherMD5: string, otherSlice: string)
    requires Accepted(c, req, fileSize, fileMD5, sliceMD5)
    ensures Accepted(c, other, otherSize, otherMD5, otherSlice) <==>
              other == req && otherSize == fileSize && otherMD5 == fileMD5 && otherSlice == sliceMD5
    ensures req.space == "personal" <==> c.space == "personal" || c.space == ""
  {
  }

  datatype NameReply = NameFails | NameTaken | NameIs(name: string)
  datatype InitReply = InitFails | Init(uploadFileID: string, rapid: bool)
  /** The reply to the request for one part's address: `single` is the `data` member used when
      nothing is offered under `uploadUrls`. */
  datatype UrlReply = UrlReply(raw: UploadUrls, single: Entry)
  /** A part may be stored although its reply never arrives. */
  datatype PutReply = Stored | StoredButLost | Refused

  datatype Env = Env(name: NameReply, init: InitReply, urls: nat -> Option<UrlReply>, put: nat -> PutReply)

  datatype Outcome = Failed | Skipped | CommitSent(uploadFileID: string, rapid: bool, recorded: set<nat>)

  datatype Attempt = Attempt(req: Request, file: Bytes, state: Option<Checkpoint>, env: Env)

  function Count(size: nat): nat { PartCount(size, UploadPartSize(size)) }

  class Cloud189 {
    const md5: Bytes -> string
    const md5Text: string -> string
    var sessions: map<string, map<nat, Bytes>>
    var issued: set<Checkpoint>
    /** The content each session was created for. */
    ghost var origin: map<string, Bytes>

    /** The session of the checkpoint was created for content of its size and checksum, and holds the
        parts the checkpoint says are completed. */
    ghost predicate CheckpointHolds(c: Checkpoint, sessions: map<string, map<nat, Bytes>>, origin: map<string, Bytes>) {
      var s := c.uploadFileID;
      && s in sessions && s in origin
      && c.fileSize == |origin[s]| && c.fileMD5 == md5(origin[s])
      && forall n :: n in c.completedParts && 1 <= n <= Count(|origin[s]|) ==> n in sessions[s]
    }

    ghost predicate Consistent(sessions: map<string, map<nat, Bytes>>, origin: map<string, Bytes>, issued: set<Checkpoint>) {
      && (forall a, b :: md5(a) == md5(b) ==> a == b)
      && origin.Keys == sessions.Keys
      && (forall s :: s in sessions ==> OnlyPartsOf(sessions[s], origin[s], UploadPartSize(|origin[s]|)))
      && (forall c :: c in issued ==> CheckpointHolds(c, sessions, origin))
    }

    ghost predicate Valid()
      reads this
    {
      Consistent(sessions, origin, issued)
    }

    constructor (md5: Bytes -> string, md5Text: string -> string)
      requires forall a, b :: md5(a) == md5(b) ==> a == b
      ensures Valid() && issued == {} && sessions == map[] && this.md5 == md5 && this.md5Text == md5Text
    {
      this.md5, this.md5Text, sessions, issued, origin := md5, md5Text, map[], {}, map[];
    }

    /** The parts recorded as completed are stored in the session, which was created for `file`. */
    ghost predicate Recorded(s: string, file: Bytes, completed: set<nat>)
      reads this`sessions, this`origin
    {
      && s in sessions && s in origin && origin[s] == file
      && completed <= FirstParts(Count(|file|)) && forall n :: n in completed ==> n in sessions[s]
    }

    /** Some checkpoint for the session says that just these parts are completed. */
    ghost predicate Checkpointed(s: string, req: Request, targetName: string, file: Bytes, completed: set<nat>,
                                 rapid: bool)
      reads this`issued
    {
      exists c :: c in issued && Remembers(c, s, req, targetName, file, completed, rapid)
    }

    /** The checkpoint names the session and its parts, and it is accepted for this request and content
        again, unless a name or checksum is empty. */
    ghost predicate Remembers(c: Checkpoint, s: string, req: Request, targetName: string, file: Bytes, completed: set<nat>,
                              rapid: bool) {
      && c.uploadFileID == s && c.targetName == targetName && c.rapid == rapid
      && ParsePartSet(c.completedParts, 1, Count(|file|)) == completed
      && (s != "" && c.targetName != "" && c.fileMD5 != "" && c.sliceMD5 != "" && req.space != "" ==>
            Accepted(c, req, |file|, md5(file), c.sliceMD5))
    }

    /** `persist189ResumeState`. */
    method Persist(req: Request, targetName: string, file: Bytes, sliceMD5: string, s: string, completed: set<nat>,
                   rapid: bool)
      requires Valid() && Recorded(s, file, completed)
      modifies this`issued
      ensures Valid() && old(issued) <= issued && Checkpointed(s, req, targetName, file, completed, rapid)
    {
      var numbers := SortedParts(completed);
      var c := Checkpoint(req.space, req.parentID, req.requestedName, targetName, |file|, UploadPartSize(|file|), md5(file),
                          sliceMD5, s, numbers, rapid);
      assert CheckpointHolds(c, sessions, origin);
      PartSetRoundTrip(completed, numbers, Count(|file|));
      assert Remembers(c, s, req, targetName, file, completed, rapid);
      issued := issued + {c};
    }

    lemma PartStored(before: map<string, map<nat, Bytes>>, origin: map<string, Bytes>, issued: set<Checkpoint>,
                     s: string, n: nat)
      requires Consistent(before, origin, issued) && s in before && n >= 1
      ensures var partSize := UploadPartSize(|origin[s]|);
              var after := before[s := Store(before[s], n, Part(origin[s], partSize, n))];
              Consistent(after, origin, issued) && Grows(before, after) && after[s].Keys == before[s].Keys + {n}
    {
      var partSize := UploadPartSize(|origin[s]|);
      var after := before[s := Store(before[s], n, Part(origin[s], partSize, n))];
      forall c | c in issued
        ensures CheckpointHolds(c, after, origin)
      {
        assert CheckpointHolds(c, before, origin);
      }
    }

    /** Put part `selected` of the file, wherever the reply's choice lies. */
    method PutSection(file: Bytes, s: string, completed: set<nat>, selected: nat, reply: PutReply) returns (ok: bool)
      requires Valid() && Recorded(s, file, completed)
      modifies this`sessions
      ensures Valid() && Recorded(s, file, completed) && Grows(old(sessions), sessions)
      ensures ok ==> 1 <= selected <= Count(|file|) && sessions[s].Keys == old(sessions)[s].Keys + {selected}
      ensures |file| > 0 && 1 <= selected <= Count(|file|) && reply == Stored ==> ok
    {
      hide Cloud189.Consistent, Part;
      var partSize := UploadPartSize(|file|);
      var offset := (selected - 1) * partSize;
      var currentSize := Min(partSize, |file| - offset);
      if selected == 0 || currentSize <= 0 {
        if 1 <= selected <= Count(|file|) {
          PlannedPartNotMissing(|file|, partSize, selected);
        }
        return false;
      }
      SectionIsPart(file, partSize, selected, currentSize);
      BeforeEnd(|file|, partSize, selected);
      PartStored(sessions, origin, issued, s, selected);
      if reply != Refused {
        sessions := sessions[s := Store(sessions[s], selected, file[offset..offset + currentSize])];
      }
      ok := reply == Stored;
    }

    /** One turn of the part loop: ask for the address of `partNumber`, put the part the reply
        chooses, record that part. */
    method PutChosenPart(req: Request, targetName: string, file: Bytes, sliceMD5: string, s: string,
                         completed0: set<nat>, partNumber: nat, env: Env)
      returns (ok: bool, completed: set<nat>, selected: nat)
      requires Valid() && |file| > 0 && Recorded(s, file, completed0) && 1 <= partNumber <= Count(|file|)
      modifies this`sessions, this`issued
      ensures Valid() && old(issued) <= issued && Recorded(s, file, completed) && Grows(old(sessions), sessions)
      ensures completed == if ok then completed0 + {selected} else completed0
      ensures ok ==> MayChoose(env, partNumber, selected) && sessions[s].Keys == old(sessions)[s].Keys + {selected}
      ensures ok ==> Checkpointed(s, req, targetName, file, completed, false)
      ensures Usable(env, partNumber, Count(|file|)) ==> ok
    {
      hide Cloud189.Consistent;
      completed := completed0;
      var url;
      selected, url := ChoosePart(env, partNumber);
      ok := url != "";
      if ok {
        ok := PutSection(file, s, completed, selected, env.put(selected));
      }
      if ok {
        completed := completed0 + {selected};
        Persist(req, targetName, file, sliceMD5, s, completed, false);
      }
    }

    /** The part loop. `asked` are the parts an address was asked for, each with the part the reply
        chose; these are the parts recorded besides those of before. All parts are recorded at the end
        exactly when every reply chose the part asked for. */
    method UploadParts(req: Request, targetName: string, file: Bytes, sliceMD5: string, s: string, completed0: set<nat>,
                       env: Env)
      returns (ok: bool, completed: set<nat>, asked: seq<(nat, nat)>)
      requires Valid() && |file| > 0 && Recorded(s, file, completed0)
      modifies this`sessions, this`issued
      ensures Valid() && old(issued) <= issued && Grows(old(sessions), sessions)
      ensures Recorded(s, file, completed) && completed == completed0 + Chosen(asked)
      ensures Asked(asked, completed0, Count(|file|), env)
      ensures ok ==> sessions[s].Keys == old(sessions)[s].Keys + Chosen(asked)
      ensures ok ==> (completed == FirstParts(Count(|file|)) <==> Followed(asked))
      ensures ok && AllReplyOwn(env, completed0, Count(|file|)) ==> completed == FirstParts(Count(|file|))
      ensures ok && SomeStrays(env, completed0, Count(|file|)) ==> completed != FirstParts(Count(|file|))
      ensures (forall n :: 1 <= n <= Count(|file|) ==> Usable(env, n, Count(|file|))) ==> ok
    {
      hide Cloud189.Consistent, MayChoose, Usable, Asked, Followed, AllReplyOwn, SomeStrays, Chosen;
      NoneAsked(completed0, Count(|file|), env);
      ok, completed, asked := true, completed0, [];
      ghost var gap := 0;
      var total := Count(|file|);
      for index := 0 to total
        invariant ok && Valid() && old(issued) <= issued && Grows(old(sessions), sessions)
        invariant Recorded(s, file, completed) && completed == completed0 + Chosen(asked)
        invariant sessions[s].Keys == old(sessions)[s].Keys + Chosen(asked)
        invariant Asked(asked, completed0, total, env)
        invariant forall n :: 1 <= n <= index ==> n in completed0 || AskedFor(asked, n) || n in completed
        invariant if Followed(asked) then forall n :: 1 <= n <= index ==> n in completed
                  else 1 <= gap <= index && gap !in completed
      {
        var partNumber := index + 1;
        if partNumber in completed {
          continue;
        }
        var selected;
        ok, completed, selected := PutChosenPart(req, targetName, file, sliceMD5, s, completed, partNumber, env);
        if !ok {
          return;
        }
        if selected != partNumber {
          gap := partNumber;
        }
        AskedMore(asked, completed0, total, env, partNumber, selected);
        asked := asked + [(partNumber, selected)];
      }
      FirstPartsOnly(completed, total);
      ReplyDecides(asked, completed0, completed, total, env);
    }

    /** Continue the session of a checkpoint whose checksums are those of the file, or open one. */
    method OpenSession(req: Request, file: Bytes, info: HashInfo, state: Option<Checkpoint>, env: Env)
      returns (stop: Option<Outcome>, targetName: string, s: string, completed: set<nat>, rapid: bool)
      requires Valid() && (state.Some? ==> state.value in issued) && info.fileMD5 == md5(file)
      requires env.init.Init? ==> env.init.uploadFileID !in sessions
      modifies this`sessions, this`issued, this`origin
      ensures Valid() && old(issued) <= issued && Grows(old(sessions), sessions)
      ensures stop.Some? ==> !stop.value.CommitSent?
      ensures stop == None ==> Recorded(s, file, completed)
      ensures stop == None && Resumes(state, req, file, info) ==>
                && s == state.value.uploadFileID && completed == ParsePartSet(state.value.completedParts, 1, Count(|file|))
                && targetName == state.value.targetName && rapid == state.value.rapid
      ensures stop == None && !Resumes(state, req, file, info) ==> completed == {} && sessions[s] == map[]
      ensures stop == None && !Resumes(state, req, file, info) ==>
                env.name == NameIs(targetName) && Checkpointed(s, req, targetName, file, {}, rapid)
      ensures stop == None && !Resumes(state, req, file, info) ==> env.init.Init? && rapid == env.init.rapid
      ensures Helpful(env, Count(|file|)) ==> stop != Some(Failed) && (env.name.NameIs? ==> stop == None)
      ensures stop == Some(Skipped) ==> env.name.NameTaken?
    {
      stop, targetName, s, completed, rapid := Some(Failed), "", "", {}, false;
      if state.Some? && Accepted(state.value, req, |file|, info.fileMD5, info.sliceMD5) {
        var c := state.value;
        assert CheckpointHolds(c, sessions, origin);
        assert origin[c.uploadFileID] == file;
        targetName, s, rapid := c.targetName, c.uploadFileID, c.rapid;
        completed := ParsePartSet(c.completedParts, 1, Count(|file|));
        stop := None;
        GrowsNot(sessions);
        return;
      }
      GrowsNot(sessions);
      if !env.name.NameIs? {
        stop := Some(if env.name.NameTaken? then Skipped else Failed);
        return;
      }
      targetName := env.name.name;
      if env.init.InitFails? || env.init.uploadFileID == "" {
        return;
      }
      s, rapid := env.init.uploadFileID, env.init.rapid;
      sessions, origin := sessions[s := map[]], origin[s := file];
      Persist(req, targetName, file, info.sliceMD5, s, completed, rapid);
      stop := None;
    }

    /** One attempt, whatever the file now holds. When the commit is sent without a rapid hit, all
        parts are recorded if every reply for a part not completed before leads to that part, and
        some part is missing if any such reply leads elsewhere. */
    method UploadLocalFile(req: Request, file: Bytes, state: Option<Checkpoint>, env: Env)
      returns (r: Outcome, asked: seq<(nat, nat)>)
      requires Valid() && (state.Some? ==> state.value in issued)
      // the service opens a new session under a name not used before
      requires env.init.Init? ==> env.init.uploadFileID !in sessions
      modifies this`sessions, this`issued, this`origin
      ensures Valid() && old(issued) <= issued && Grows(old(sessions), sessions)
      ensures r.CommitSent? ==>
                r.uploadFileID in sessions && OnlyPartsOf(sessions[r.uploadFileID], file, UploadPartSize(|file|))
      ensures r.CommitSent? ==> forall n :: n in r.recorded ==> n in sessions[r.uploadFileID]
      ensures var start, total := StartingParts(req, file, state, md5, md5Text), Count(|file|);
              r.CommitSent? && !r.rapid && |file| > 0 ==>
                && r.recorded == start + Chosen(asked) && Asked(asked, start, total, env)
                && (r.recorded == FirstParts(total) <==> Followed(asked))
                && (AllReplyOwn(env, start, total) ==> r.recorded == FirstParts(total))
                && (SomeStrays(env, start, total) ==> r.recorded != FirstParts(total))
                && (state == None ==> sessions[r.uploadFileID].Keys == r.recorded)
      ensures r.CommitSent? && (r.rapid || |file| == 0) ==>
                asked == [] && r.recorded == StartingParts(req, file, state, md5, md5Text)
      ensures r.CommitSent? ==> r.rapid == StartsRapid(req, file, state, env, md5, md5Text)
      ensures Helpful(env, Count(|file|)) ==>
                r != Failed && (state == None && env.name.NameIs? ==> r.CommitSent? && r.rapid == env.init.rapid)
      ensures r == Skipped ==> env.name.NameTaken?
    {
      hide *;
      asked := [];
      var info := CalculateUploadHashes(file, UploadPartSize(|file|), md5, md5Text);
      StartingPartsAre(req, file, state);
      var stop, targetName, s, completed, rapid := OpenSession(req, file, info, state, env);
      if stop.Some? {
        r := stop.value;
        return;
      }
      if !rapid && |file| > 0 {
        var ok;
        ghost var before := sessions;
        if Helpful(env, Count(|file|)) {
          HelpfulMeans(env, Count(|file|));
        }
        ok, completed, asked := UploadParts(req, targetName, file, info.sliceMD5, s, completed, env);
        GrowsJoin(old(sessions), before, sessions);
        if !ok {
          r := Failed;
          return;
        }
      }
      OnlyPartsInSession(s, file, completed);
      r := CommitSent(s, rapid, completed);
    }

    lemma OnlyPartsInSession(s: string, file: Bytes, completed: set<nat>)
      requires Valid() && Recorded(s, file, completed)
      ensures s in sessions && OnlyPartsOf(sessions[s], file, UploadPartSize(|file|))
      ensures forall n :: n in completed ==> n in sessions[s]
    {
    }

    lemma StartingPartsAre(req: Request, file: Bytes, state: Option<Checkpoint>)
      ensures var info := Checksums(file, UploadPartSize(|file|), md5, md5Text);
              && info.fileMD5 == md5(file) && (state == None ==> !Resumes(state, req, file, info))
              && StartingParts(req, file, state, md5, md5Text) ==
                 (if Resumes(state, req, file, info) then ParsePartSet(state.value.completedParts, 1, Count(|file|)) else {})
      ensures forall env :: StartsRapid(req, file, state, env, md5, md5Text) ==
                            (if Resumes(state, req, file, Checksums(file, UploadPartSize(|file|), md5, md5Text)) then state.value.rapid
                             else env.init.Init? && env.init.rapid)
    {
    }

    /** One attempt with a checkpoint it may be handed, and what the service makes of a session with
        every part recorded. */
    method RunOnce(a: Attempt) returns (whole: Option<Bytes>)
      requires Valid()
      modifies this`sessions, this`issued, this`origin
      ensures Valid() && (whole.Some? ==> whole.value == a.file)
    {
      var state := if a.state.Some? && a.state.value in issued then a.state else None;
      var clash := a.env.init.Init? && a.env.init.uploadFileID in sessions;
      var env := if clash then a.env.(init := InitFails) else a.env;
      var r, asked := UploadLocalFile(a.req, a.file, state, env);
      whole := None;
      if r.CommitSent? && !r.rapid && |a.file| > 0 && r.recorded == FirstParts(Count(|a.file|)) {
        CompleteSession(sessions[r.uploadFileID], a.file, UploadPartSize(|a.file|));
        whole := Some(Assemble(sessions[r.uploadFileID], Count(|a.file|)));
      }
    }

    /** Any number of attempts, each with whatever file, checkpoint, choices and faults: a commit that
        is sent with all parts recorded assembles to the file of its attempt. */
    method UploadRuns(attempts: seq<Attempt>) returns (built: seq<Option<Bytes>>)
      requires Valid()
      modifies this`sessions, this`issued, this`origin
      ensures Valid() && |built| == |attempts|
      ensures forall i :: 0 <= i < |attempts| && built[i].Some? ==> built[i].value == attempts[i].file
    {
      built := [];
      for i := 0 to |attempts|
        invariant Valid() && |built| == i
        invariant forall k :: 0 <= k < i && built[k].Some? ==> built[k].value == attempts[k].file
      {
        var whole := RunOnce(attempts[i]);
        built := built + [whole];
      }
    }
  }

  lemma GrowsJoin(a: map<string, map<nat, Bytes>>, b: map<string, map<nat, Bytes>>, c: map<string, map<nat, Bytes>>)
    requires Grows(a, b) && Grows(b, c)
    ensures Grows(a, c)
  {
  }

  lemma GrowsNot(sessions: map<string, map<nat, Bytes>>)
    ensures Grows(sessions, sessions)
  {
  }

  /** An environment in which no call fails and every reply leads to a part of the file. */
  ghost predicate Helpful(env: Env, total: nat) {
    && env.name != NameFails && env.init.Init? && env.init.uploadFileID != ""
    && forall n :: 1 <= n <= total ==> Usable(env, n, total)
  }

  lemma HelpfulMeans(env: Env, total: nat)
    requires Helpful(env, total)
    ensures forall n :: 1 <= n <= total ==> Usable(env, n, total)
  {
  }

  /** A checkpoint is continued exactly when it names this target and this content. */
  ghost predicate Resumes(state: Option<Checkpoint>, req: Request, file: Bytes, info: HashInfo) {
    state.Some? && Accepted(state.value, req, |file|, info.fileMD5, info.sliceMD5)
  }

  /** The parts that count as completed before any is asked for. */
  ghost function StartingParts(req: Request, file: Bytes, state: Option<Checkpoint>, md5: Bytes -> string,
                               md5Text: string -> string): set<nat>
  {
    if Resumes(state, req, file, Checksums(file, UploadPartSize(|file|), md5, md5Text)) then
      ParsePartSet(state.value.completedParts, 1, Count(|file|))
    else {}
  }

  /** Whether the service has the content already: as the checkpoint says, or the service does. */
  ghost predicate StartsRapid(req: Request, file: Bytes, state: Option<Checkpoint>, env: Env, md5: Bytes -> string,
                              md5Text: string -> string)
  {
    if Resumes(state, req, file, Checksums(file, UploadPartSize(|file|), md5, md5Text)) then state.value.rapid
    else env.init.Init? && env.init.rapid
  }

  /** The part and address taken from a reply; the address is empty when there is none. */
  method ChoosePart(env: Env, partNumber: nat) returns (selected: nat, url: string)
    ensures env.urls(partNumber).Some? ==> LeadsTo(env.urls(partNumber).value, partNumber, selected, url)
    ensures url != "" ==> MayChoose(env, partNumber, selected)
    ensures env.urls(partNumber) == None ==> url == ""
  {
    var reply := env.urls(partNumber);
    if reply == None {
      return partNumber, "";
    }
    var entry;
    selected, entry := SelectUploadPart(reply.value.raw, partNumber);
    if !entry.present {
      selected, entry := partNumber, reply.value.single;
    }
    url := entry.url;
    assert LeadsTo(env.urls(partNumber).value, partNumber, selected, url);
  }

  /** What a reply to the request for part n can lead to: part n where it is offered; otherwise any
      offered part whose entry says something; part n at the single address where nothing is offered
      or the entry is empty. */
  ghost predicate LeadsTo(r: UrlReply, n: nat, selected: nat, url: string) {
    var c := Candidates(r.raw, n);
    if n in c then selected == n && url == (if c[n].present then c[n].url else r.single.url)
    else if c.Keys == {} then selected == n && url == r.single.url
    else exists k :: k in c && if c[k].present then selected == k && url == c[k].url else selected == n && url == r.single.url
  }

  ghost predicate MayChoose(env: Env, n: nat, selected: nat) {
    env.urls(n).Some? && exists url :: LeadsTo(env.urls(n).value, n, selected, url)
  }

  /** Whatever the reply for part n leads to is a part of the file, has an address, and is stored. */
  ghost predicate Usable(env: Env, n: nat, total: nat) {
    && env.urls(n).Some?
    && forall selected: nat, url :: LeadsTo(env.urls(n).value, n, selected, url) ==>
         url != "" && 1 <= selected <= total && env.put(selected) == Stored
  }

  /** The reply for part n leads to part n. */
  predicate ReplyIsOwn(r: UrlReply, n: nat) {
    var c := Candidates(r.raw, n);
    n in c || forall k :: k in c ==> !c[k].present
  }

  /** The reply for part n offers parts, all with entries that say something, and not part n. */
  predicate ReplyStrays(r: UrlReply, n: nat) {
    var c := Candidates(r.raw, n);
    n !in c && c.Keys != {} && forall k :: k in c ==> c[k].present
  }

  /** Where every offered entry says something, a reply either leads to its own part or strays. */
  lemma OwnOrStrays(r: UrlReply, n: nat)
    ensures ReplyIsOwn(r, n) ==> forall selected, url :: LeadsTo(r, n, selected, url) ==> selected == n
    ensures ReplyStrays(r, n) ==> forall selected, url :: LeadsTo(r, n, selected, url) ==> selected != n
    ensures (forall k :: k in Candidates(r.raw, n) ==> Candidates(r.raw, n)[k].present) ==>
              (ReplyStrays(r, n) <==> !ReplyIsOwn(r, n))
  {
  }

  ghost predicate AllReplyOwn(env: Env, completed0: set<nat>, total: nat) {
    forall n :: 1 <= n <= total && n !in completed0 && env.urls(n).Some? ==> ReplyIsOwn(env.urls(n).value, n)
  }

  ghost predicate SomeStrays(env: Env, completed0: set<nat>, total: nat) {
    exists n :: 1 <= n <= total && n !in completed0 && env.urls(n).Some? && ReplyStrays(env.urls(n).value, n)
  }

  /** The parts asked for were not completed before, and each reply could lead to the part chosen. */
  ghost predicate Asked(asked: seq<(nat, nat)>, completed0: set<nat>, total: nat, env: Env) {
    forall p :: p in asked ==> 1 <= p.0 <= total && p.0 !in completed0 && MayChoose(env, p.0, p.1)
  }

  ghost predicate AskedFor(asked: seq<(nat, nat)>, n: nat) {
    exists p :: p in asked && p.0 == n
  }

  ghost function Chosen(asked: seq<(nat, nat)>): set<nat> {
    set p | p in asked :: p.1
  }

  /** Every reply chose the part asked for. */
  ghost predicate Followed(asked: seq<(nat, nat)>) {
    forall p :: p in asked ==> p.0 == p.1
  }

  lemma AskedMore(asked: seq<(nat, nat)>, completed0: set<nat>, total: nat, env: Env, n: nat, selected: nat)
    requires Asked(asked, completed0, total, env) && 1 <= n <= total && n !in completed0 && MayChoose(env, n, selected)
    ensures Asked(asked + [(n, selected)], completed0, total, env)
    ensures Chosen(asked + [(n, selected)]) == Chosen(asked) + {selected}
    ensures Followed(asked + [(n, selected)]) <==> Followed(asked) && n == selected
    ensures forall k :: AskedFor(asked + [(n, selected)], k) <==> AskedFor(asked, k) || k == n
  {
    var more := asked + [(n, selected)];
    assert (n, selected) in more;
    assert forall q :: q in asked ==> q in more;
  }

  lemma NoneAsked(completed0: set<nat>, total: nat, env: Env)
    ensures Asked([], completed0, total, env) && Followed([]) && Chosen([]) == {}
  {
  }

  lemma FirstPartsOnly(completed: set<nat>, total: nat)
    requires completed <= FirstParts(total)
    ensures completed == FirstParts(total) <==> forall n :: 1 <= n <= total ==> n in completed
  {
  }

  /** The replies decide whether all parts are recorded: a part whose reply strays is either asked
      for in vain, or never asked for because the reply for another part strayed to it. */
  lemma ReplyDecides(asked: seq<(nat, nat)>, completed0: set<nat>, completed: set<nat>, total: nat, env: Env)
    requires Asked(asked, completed0, total, env) && completed == completed0 + Chosen(asked)
    requires forall n :: 1 <= n <= total ==> n in completed0 || AskedFor(asked, n) || n in completed
    ensures AllReplyOwn(env, completed0, total) ==> Followed(asked)
    ensures SomeStrays(env, completed0, total) ==> !Followed(asked)
  {
    if AllReplyOwn(env, completed0, total) {
      forall p | p in asked
        ensures p.0 == p.1
      {
        OwnOrStrays(env.urls(p.0).value, p.0);
      }
    }
    if n :| 1 <= n <= total && n !in completed0 && env.urls(n).Some? && ReplyStrays(env.urls(n).value, n) {
      OwnOrStrays(env.urls(n).value, n);
      StrayedOver(asked, completed0, completed, env, n);
    }
  }

  lemma StrayedOver(asked: seq<(nat, nat)>, completed0: set<nat>, completed: set<nat>, env: Env, n: nat)
    requires completed == completed0 + Chosen(asked) && n !in completed0 && (AskedFor(asked, n) || n in completed)
    requires forall p :: p in asked ==> MayChoose(env, p.0, p.1)
    requires env.urls(n).Some? && forall selected, url :: LeadsTo(env.urls(n).value, n, selected, url) ==> selected != n
    ensures !Followed(asked)
  {
    var p :| p in asked && (p.0 == n || p.1 == n);
    assert MayChoose(env, p.0, p.1);
  }

  lemma BeforeEnd(size: nat, partSize: int, n: nat)
    requires partSize > 0 && n >= 1 && size - (n - 1) * partSize > 0
    ensures n <= PartCount(size, partSize)
  {
    if n > PartCount(size, partSize) {
      MulMonotone(PartCount(size, partSize), n - 1, partSize);
    }
  }

  // ----- a run that leaves a part missing -----

  /** Every reply offers part 2 alone, whatever part was asked for. */
  function StrayEnv(): Env {
    Env(NameIs("name"), Init("id", false), (n: nat) => Some(UrlReply(ListOf([Entry(2, "u", true)]), Entry(0, "", false))),
        (n: nat) => Stored)
  }

  lemma OnlyPartTwo(n: nat)
    ensures Candidates(ListOf([Entry(2, "u", true)]), n) == map[2 := Entry(2, "u", true)]
    ensures Usable(StrayEnv(), n, 2)
    ensures forall selected :: MayChoose(StrayEnv(), n, selected) ==> selected == 2
  {
    assert FromList([]) == map[];
    assert [Entry(2, "u", true)][..0] == [];
    var r := UrlReply(ListOf([Entry(2, "u", true)]), Entry(0, "", false));
    assert Candidates(r.raw, n) == map[2 := Entry(2, "u", true)];
    assert StrayEnv().urls(n) == Some(r) && 2 in Candidates(r.raw, n);
    forall selected: nat, url | LeadsTo(r, n, selected, url)
      ensures selected == 2 && url == "u"
    {
    }
  }

  /** A file of two parts: both replies offer part 2, so the commit is sent although part 1 was never put. */
  method StrayReplyLosesPart(md5: Bytes -> string, md5Text: string -> string)
    returns (cloud: Cloud189, file: Bytes, r: Outcome)
    requires forall a, b :: md5(a) == md5(b) ==> a == b
    ensures fresh(cloud) && cloud.Valid() && Count(|file|) == 2
    ensures r.CommitSent? && !r.rapid && 1 !in r.recorded
    ensures r.uploadFileID in cloud.sessions && 1 !in cloud.sessions[r.uploadFileID]
  {
    hide *;
    TwoParts();
    file := seq(DEFAULT_PART_SIZE + 1, _ => 0 as byte);
    cloud := new Cloud189(md5, md5Text);
    StrayIsHelpful();
    var asked;
    r, asked := cloud.UploadLocalFile(Request("personal", "p", "name"), file, None, StrayEnv());
    OnlyTwoChosen(asked, StartingParts(Request("personal", "p", "name"), file, None, md5, md5Text));
    NothingToContinue(Request("personal", "p", "name"), file, md5, md5Text);
  }

  lemma TwoParts()
    ensures Count(DEFAULT_PART_SIZE + 1) == 2 && DEFAULT_PART_SIZE > 0
  {
  }

  lemma NothingToContinue(req: Request, file: Bytes, md5: Bytes -> string, md5Text: string -> string)
    ensures StartingParts(req, file, None, md5, md5Text) == {}
  {
  }

  lemma OnlyTwoChosen(asked: seq<(nat, nat)>, start: set<nat>)
    ensures Asked(asked, start, 2, StrayEnv()) ==> 1 !in Chosen(asked)
  {
    if Asked(asked, start, 2, StrayEnv()) {
      forall p | p in asked
        ensures p.1 == 2
      {
        OnlyPartTwo(p.0);
      }
    }
  }

  lemma StrayIsHelpful()
    ensures Helpful(StrayEnv(), 2) && StrayEnv().name == NameIs("name") && StrayEnv().init == Init("id", false)
    ensures !StrayEnv().init.rapid
  {
    forall n | 1 <= n <= 2
      ensures Usable(StrayEnv(), n, 2)
    {
      OnlyPartTwo(n);
    }
  }

  // ----- a run that builds the file -----

  /** Every reply is an object with the part asked for as its key. */
  function KeyedEnv(): Env {
    Env(NameIs("name"), Init("id", false), (n: nat) => Some(UrlReply(KeyedObject([Offer(n, "u")]), Entry(0, "", false))),
        (n: nat) => Stored)
  }

  lemma KeyedIsOwn(n: nat, total: nat)
    requires 1 <= n <= total
    ensures Usable(KeyedEnv(), n, total) && KeyedEnv().urls(n).Some? && ReplyIsOwn(KeyedEnv().urls(n).value, n)
  {
    var r := UrlReply(KeyedObject([Offer(n, "u")]), Entry(0, "", false));
    KeyedObjectReadsBack([Offer(n, "u")], n);
    assert [Offer(n, "u")][0].part in Candidates(r.raw, n);
    assert KeyedEnv().urls(n) == Some(r);
  }

  lemma KeyedIsHelpful(total: nat)
    ensures Helpful(KeyedEnv(), total) && AllReplyOwn(KeyedEnv(), {}, total)
    ensures KeyedEnv().name == NameIs("name") && KeyedEnv().init == Init("id", false) && !KeyedEnv().init.rapid
  {
    hide Usable, ReplyIsOwn;
    forall n | 1 <= n <= total
      ensures Usable(KeyedEnv(), n, total) && KeyedEnv().urls(n).Some? && ReplyIsOwn(KeyedEnv().urls(n).value, n)
    {
      KeyedIsOwn(n, total);
    }
  }

  /** A non-empty file of any number of parts, for each of which the service's reply has the part as its
      key: all parts are recorded, and the session assembles to the file. */
  method KeyedRepliesBuildFile(md5: Bytes -> string, md5Text: string -> string, file: Bytes)
    returns (cloud: Cloud189, r: Outcome)
    requires |file| > 0 && forall a, b :: md5(a) == md5(b) ==> a == b
    ensures fresh(cloud) && cloud.Valid()
    ensures r.CommitSent? && !r.rapid && r.recorded == FirstParts(Count(|file|))
    ensures r.uploadFileID in cloud.sessions && cloud.sessions[r.uploadFileID].Keys == r.recorded
    ensures Assemble(cloud.sessions[r.uploadFileID], Count(|file|)) == file
  {
    hide *;
    cloud := new Cloud189(md5, md5Text);
    KeyedIsHelpful(Count(|file|));
    NothingToContinue(Request("personal", "p", "name"), file, md5, md5Text);
    var asked;
    r, asked := cloud.UploadLocalFile(Request("personal", "p", "name"), file, None, KeyedEnv());
    AllRecorded(cloud.sessions[r.uploadFileID], file, r.recorded);
  }

  lemma AllRecorded(stored: map<nat, Bytes>, file: Bytes, recorded: set<nat>)
    requires OnlyPartsOf(stored, file, UploadPartSize(|file|)) && recorded == FirstParts(Count(|file|))
    requires forall n :: n in recorded ==> n in stored
    ensures Assemble(stored, Count(|file|)) == file
  {
    CompleteSession(stored, file, UploadPartSize(|file|));
  }
}
