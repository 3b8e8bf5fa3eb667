/** What the chunked upload drivers share: how a file is cut into numbered parts,
    what the remote service assembles from a set of stored parts, and how many
    bytes a set of completed parts accounts for. */
module UploadPlan {

  newtype byte = x: int | 0 <= x < 256
  type Bytes = seq<byte>

  function Min(a: int, b: int): (r: int)
    ensures r <= a && r <= b && (r == a || r == b)
  {
    if a < b then a else b
  }

  lemma MulMonotone(a: int, b: int, c: int)
    requires a <= b && c >= 0
    ensures a * c <= b * c
  {
    assert b * c == a * c + (b - a) * c;
  }

  /** Where part n starts and ends. */
  lemma Offsets(n: nat, partSize: int)
    requires n >= 1 && partSize > 0
    ensures 0 <= (n - 1) * partSize && n * partSize == (n - 1) * partSize + partSize
  {
    MulMonotone(0, n - 1, partSize);
  }

  lemma SliceJoin(file: Bytes, lo: nat, hi: nat)
    requires lo <= hi <= |file|
    ensures file[..lo] + file[lo..hi] == file[..hi]
  {
  }

  lemma SplitAt(a: Bytes, b: Bytes, whole: Bytes)
    requires a + b == whole
    ensures a == whole[..|a|] && b == whole[|a|..]
  {
  }

  /** Number of parts of a file; an empty file still has one part. */
  function PartCount(size: nat, partSize: int): (n: nat)
    requires partSize > 0
    ensures n >= 1
    ensures size > 0 ==> (n - 1) * partSize < size <= n * partSize
    ensures size == 0 ==> n == 1
  {
    var count := (size + partSize - 1) / partSize;
    if count < 1 then 1 else count
  }

  /** Length of part `n` (numbered from 1), zero outside the file. */
  function PartLen(size: nat, partSize: int, n: int): (len: int)
    requires partSize > 0
    ensures 0 <= len <= partSize
  {
    var remain := size - (n - 1) * partSize;
    if remain < 0 then 0 else Min(remain, partSize)
  }

  /** The bytes of part `n`. */
  function Part(file: Bytes, partSize: int, n: int): (chunk: Bytes)
    requires partSize > 0 && n >= 1
    ensures |chunk| == PartLen(|file|, partSize, n)
  {
    Offsets(n, partSize);
    file[Min((n - 1) * partSize, |file|)..Min(n * partSize, |file|)]
  }

  /** Reading `length` bytes from the offset of part n gives the part. */
  lemma SectionIsPart(file: Bytes, partSize: int, n: nat, length: int)
    requires partSize > 0 && 1 <= n && length == PartLen(|file|, partSize, n)
    requires length > 0
    ensures 0 <= (n - 1) * partSize <= (n - 1) * partSize + length <= |file|
    ensures file[(n - 1) * partSize..(n - 1) * partSize + length] == Part(file, partSize, n)
  {
    Offsets(n, partSize);
  }

  /** Parts 1..k are stored, and each is the matching part of `file`. */
  ghost predicate HoldsParts(stored: map<nat, Bytes>, file: Bytes, partSize: int, k: nat)
    requires partSize > 0
  {
    forall n :: 1 <= n <= k ==> n in stored && stored[n] == Part(file, partSize, n)
  }

  /** Every stored part, whichever they are, is the matching part of `file`. */
  ghost predicate OnlyPartsOf(stored: map<nat, Bytes>, file: Bytes, partSize: int)
    requires partSize > 0
  {
    forall n :: n in stored ==> n >= 1 && stored[n] == Part(file, partSize, n)
  }

  /** Every stored part has the planned length, whatever its bytes. */
  ghost predicate RightLengths(stored: map<nat, Bytes>, size: nat, partSize: int)
    requires partSize > 0
  {
    forall n :: n in stored ==> n >= 1 && |stored[n]| == PartLen(size, partSize, n)
  }

  function Store(stored: map<nat, Bytes>, n: nat, chunk: Bytes): map<nat, Bytes> {
    stored[n := chunk]
  }

  /** What the remote service builds: parts 1..k in ascending order. */
  function Assemble(stored: map<nat, Bytes>, k: nat): Bytes
    requires forall n :: 1 <= n <= k ==> n in stored
  {
    if k == 0 then [] else Assemble(stored, k - 1) + stored[k]
  }

  lemma {:induction false} AssemblePrefix(stored: map<nat, Bytes>, file: Bytes, partSize: int, k: nat)
    requires partSize > 0
    requires HoldsParts(stored, file, partSize, k)
    ensures 0 <= k * partSize
    ensures Assemble(stored, k) == file[..Min(k * partSize, |file|)]
  {
    if k > 0 {
      AssemblePrefix(stored, file, partSize, k - 1);
      Offsets(k, partSize);
      SliceJoin(file, Min((k - 1) * partSize, |file|), Min(k * partSize, |file|));
    }
  }

  /** The shared specification: a complete set of parts assembles to the file. */
  lemma AssembleIsFile(stored: map<nat, Bytes>, file: Bytes, partSize: int)
    requires partSize > 0
    requires HoldsParts(stored, file, partSize, PartCount(|file|, partSize))
    ensures Assemble(stored, PartCount(|file|, partSize)) == file
  {
    AssemblePrefix(stored, file, partSize, PartCount(|file|, partSize));
  }

  /** Parts that can only be right, none missing: the session assembles to the file. */
  lemma CompleteSession(stored: map<nat, Bytes>, file: Bytes, partSize: int)
    requires partSize > 0 && OnlyPartsOf(stored, file, partSize)
    requires forall n :: 1 <= n <= PartCount(|file|, partSize) ==> n in stored
    ensures HoldsParts(stored, file, partSize, PartCount(|file|, partSize))
    ensures Assemble(stored, PartCount(|file|, partSize)) == file
  {
    AssembleIsFile(stored, file, partSize);
  }

  /** When every stored part has the planned length, the assembly is the file only if each part is. */
  lemma {:induction false} AssembleDetermines(stored: map<nat, Bytes>, file: Bytes, partSize: int, k: nat)
    requires partSize > 0
    requires forall n :: 1 <= n <= k ==> n in stored && |stored[n]| == PartLen(|file|, partSize, n)
    ensures k * partSize >= 0 && |Assemble(stored, k)| == Min(k * partSize, |file|)
    ensures Assemble(stored, k) == file[..Min(k * partSize, |file|)] ==> HoldsParts(stored, file, partSize, k)
  {
    if k > 0 {
      AssembleDetermines(stored, file, partSize, k - 1);
      Offsets(k, partSize);
      var lo, hi := Min((k - 1) * partSize, |file|), Min(k * partSize, |file|);
      var before := Assemble(stored, k - 1);
      if before + stored[k] == file[..hi] {
        LastSection(before, stored[k], file, lo, hi);
      }
    }
  }

  lemma LastSection(before: Bytes, last: Bytes, file: Bytes, lo: nat, hi: nat)
    requires |before| == lo <= hi <= |file| && before + last == file[..hi]
    ensures before == file[..lo] && last == file[lo..hi]
  {
    SplitAt(before, last, file[..hi]);
    SliceJoin(file, lo, hi);
    SplitAt(file[..lo], file[lo..hi], file[..hi]);
  }

  // ----- bytes accounted for by a set of completed parts -----

  ghost function SumLen(size: nat, partSize: int, parts: set<nat>): (total: nat)
    requires partSize > 0
  {
    if parts == {} then 0
    else
      var p :| p in parts;
      PartLen(size, partSize, p) + SumLen(size, partSize, parts - {p})
  }

  lemma {:induction false} SumLenRemove(size: nat, partSize: int, parts: set<nat>, q: nat)
    requires partSize > 0 && q in parts
    ensures SumLen(size, partSize, parts) == PartLen(size, partSize, q) + SumLen(size, partSize, parts - {q})
    decreases parts
  {
    var p :| p in parts && SumLen(size, partSize, parts) == PartLen(size, partSize, p) + SumLen(size, partSize, parts - {p});
    if p != q {
      SumLenRemove(size, partSize, parts - {p}, q);
      SumLenRemove(size, partSize, parts - {q}, p);
      assert parts - {p} - {q} == parts - {q} - {p};
    }
  }

  function FirstParts(k: nat): (parts: set<nat>)
    ensures forall n :: n in parts <==> 1 <= n <= k
  {
    if k == 0 then {} else FirstParts(k - 1) + {k}
  }

  /** The set is 1..k for some k. */
  ghost predicate IsPrefix(completed: set<nat>, total: nat) {
    forall n :: n in completed ==> 1 <= n <= total && forall m :: 1 <= m < n ==> m in completed
  }

  lemma {:induction false} SumOfFirstParts(size: nat, partSize: int, k: nat)
    requires partSize > 0
    ensures SumLen(size, partSize, FirstParts(k)) == Min(k * partSize, size)
  {
    if k > 0 {
      SumOfFirstParts(size, partSize, k - 1);
      SumLenRemove(size, partSize, FirstParts(k), k);
      assert FirstParts(k) - {k} == FirstParts(k - 1);
      Offsets(k, partSize);
    }
  }

  lemma {:induction false} SumOfSubset(size: nat, partSize: int, small: set<nat>, large: set<nat>)
    requires partSize > 0 && small <= large
    ensures SumLen(size, partSize, small) <= SumLen(size, partSize, large)
    ensures (exists q :: q in large && q !in small && PartLen(size, partSize, q) > 0)
            ==> SumLen(size, partSize, small) < SumLen(size, partSize, large)
    decreases |large|
  {
    if q: nat :| q in large && q !in small && PartLen(size, partSize, q) > 0 {
      SumLenRemove(size, partSize, large, q);
      SumOfSubset(size, partSize, small, large - {q});
    } else if q: nat :| q in large && q !in small {
      SumLenRemove(size, partSize, large, q);
      SumOfSubset(size, partSize, small, large - {q});
    } else {
      assert small == large;
    }
  }

  lemma PlannedPartNotMissing(size: nat, partSize: int, n: int)
    requires partSize > 0 && n <= PartCount(size, partSize) && size - (n - 1) * partSize <= 0
    ensures size == 0
  {
    if size > 0 {
      MulMonotone(n - 1, PartCount(size, partSize) - 1, partSize);
    }
  }

  lemma PlannedPartIsNonEmpty(size: nat, partSize: int, n: int)
    requires partSize > 0 && size > 0
    requires n <= PartCount(size, partSize)
    ensures PartLen(size, partSize, n) > 0
  {
    MulMonotone(n - 1, PartCount(size, partSize) - 1, partSize);
  }

  /** The byte count reaches the file size exactly when every planned part is completed. */
  lemma FullCountMeansAllParts(size: nat, partSize: int, parts: set<nat>)
    requires partSize > 0 && size > 0
    requires parts <= FirstParts(PartCount(size, partSize))
    ensures SumLen(size, partSize, parts) <= size
    ensures SumLen(size, partSize, parts) == size <==> parts == FirstParts(PartCount(size, partSize))
  {
    var total := PartCount(size, partSize);
    SumOfFirstParts(size, partSize, total);
    SumOfSubset(size, partSize, parts, FirstParts(total));
    if q: nat :| q in FirstParts(total) && q !in parts {
      PlannedPartIsNonEmpty(size, partSize, q);
    } else {
      assert parts == FirstParts(total);
    }
  }

  /** `uploadutil.UploadedBytesByParts`: the parts come in no particular order. */
  method UploadedBytesByParts(fileSize: nat, partSize: int, completed: set<nat>) returns (uploaded: int)
    ensures partSize <= 0 ==> uploaded == 0
    ensures partSize > 0 ==> uploaded == Min(SumLen(fileSize, partSize, completed), fileSize)
  {
    if partSize <= 0 {
      return 0;
    }
    uploaded := 0;
    var rest := completed;
    while rest != {}
      invariant rest <= completed
      invariant uploaded + SumLen(fileSize, partSize, rest) == SumLen(fileSize, partSize, completed)
      decreases rest
    {
      var partNo :| partNo in rest;
      SumLenRemove(fileSize, partSize, rest, partNo);
      var offset := (partNo - 1) * partSize;
      var chunk := partSize;
      var remain := fileSize - offset;
      if remain < chunk {
        chunk := remain;
      }
      if chunk > 0 {
        uploaded := uploaded + chunk;
      }
      rest := rest - {partNo};
    }
    if uploaded > fileSize {
      uploaded := fileSize;
    }
  }

  /** Sessions are never dropped and never lose a part. */
  ghost predicate Grows<S>(before: map<S, map<nat, Bytes>>, after: map<S, map<nat, Bytes>>) {
    forall s :: s in before ==> s in after && forall n :: n in before[s] ==> n in after[s]
  }

  // ----- persisted part sets -----

  ghost predicate Ascending(s: seq<nat>) {
    forall i, j :: 0 <= i < j < |s| ==> s[i] < s[j]
  }

  /** `uploadutil.ParsePartSet`: numbers out of range are dropped. */
  function ParsePartSet(raw: seq<nat>, minPart: nat, maxPart: nat): (parts: set<nat>)
    ensures forall n :: n in parts <==> n in raw && minPart <= n <= maxPart
  {
    set n | n in raw && minPart <= n <= maxPart
  }

  /** `uploadutil.SortedParts`: the set is listed in any order and then sorted. */
  method SortedParts(parts: set<nat>) returns (out: seq<nat>)
    ensures Ascending(out)
    ensures forall n :: n in out <==> n in parts
  {
    out := [];
    var rest := parts;
    while rest != {}
      invariant rest <= parts && Ascending(out)
      invariant forall n :: n in out <==> n in parts && n !in rest
      decreases rest
    {
      var part :| part in rest;
      rest := rest - {part};
      var k := 0;
      while k < |out| && out[k] < part
        invariant k <= |out|
        invariant forall i :: 0 <= i < k ==> out[i] < part
      {
        k := k + 1;
      }
      assert k < |out| ==> out[k] in out;
      InsertAscending(out, k, part);
      out := out[..k] + [part] + out[k..];
    }
  }

  lemma AscendingSnoc(s: seq<nat>, x: nat)
    requires Ascending(s) && forall n :: n in s ==> n < x
    ensures Ascending(s + [x])
  {
    assert forall i :: 0 <= i < |s| ==> s[i] in s;
  }

  lemma InsertAscending(s: seq<nat>, k: nat, x: nat)
    requires Ascending(s) && k <= |s|
    requires forall i :: 0 <= i < k ==> s[i] < x
    requires k < |s| ==> x < s[k]
    ensures Ascending(s[..k] + [x] + s[k..])
    ensures forall n :: n in s[..k] + [x] + s[k..] <==> n in s || n == x
  {
    assert s == s[..k] + s[k..];
  }

  /** What is stored of a part set reads back as that set exactly when all its parts are in range. */
  lemma PartSetRoundTrip(parts: set<nat>, out: seq<nat>, maxPart: nat)
    requires forall n :: n in out <==> n in parts
    ensures ParsePartSet(out, 1, maxPart) == parts <==> forall n :: n in parts ==> 1 <= n <= maxPart
  {
    if n :| n in parts && !(1 <= n <= maxPart) {
      assert n !in ParsePartSet(out, 1, maxPart);
    }
  }

  /** The percentage stored with a checkpoint. */
  function Progress(uploaded: int, size: nat): int {
    var progress := uploaded * 100 / (if size > 1 then size else 1);
    if uploaded < size && progress > 99 then 99 else progress
  }

  lemma PercentBelow(uploaded: nat, size: nat)
    requires uploaded < size
    ensures uploaded * 100 / size < 100
  {
    var q := uploaded * 100 / size;
    assert q * size <= uploaded * 100;
    if q >= 100 {
      MulMonotone(100, q, size);
      assert false;
    }
  }

  lemma PercentFull(size: nat)
    requires size > 0
    ensures size * 100 / size == 100
  {
    var q := size * 100 / size;
    assert q * size <= size * 100 < q * size + size;
    if q < 100 {
      MulMonotone(q + 1, 100, size);
      assert false;
    } else if q > 100 {
      MulMonotone(101, q, size);
      assert false;
    }
  }

  /** The percentage is the share of the bytes, rounded down. */
  lemma ProgressMeaning(uploaded: nat, size: nat)
    requires size > 0 && uploaded <= size
    ensures var p := Progress(uploaded, size);
            0 <= p <= 100 && p * size <= uploaded * 100 < p * size + size
  {
    hide Progress;
    ProgressIsShare(uploaded, size);
    if uploaded < size {
      PercentBelow(uploaded, size);
    } else {
      PercentFull(size);
    }
  }

  lemma ProgressIsShare(uploaded: nat, size: nat)
    requires size > 0 && uploaded <= size
    ensures Progress(uploaded, size) == uploaded * 100 / size
  {
    if uploaded < size {
      PercentBelow(uploaded, size);
    }
  }

  lemma ProgressFull(uploaded: nat, size: nat)
    requires size > 0 && uploaded <= size
    ensures Progress(uploaded, size) == 100 <==> uploaded == size
  {
    if uploaded < size {
      PercentBelow(uploaded, size);
    } else {
      PercentFull(size);
    }
  }

  /** A checkpoint says 100 percent exactly when every part is completed. */
  lemma ProgressIsFullExactlyAtEnd(size: nat, partSize: int, parts: set<nat>)
    requires partSize > 0 && size > 0 && parts <= FirstParts(PartCount(size, partSize))
    ensures Progress(SumLen(size, partSize, parts), size) == 100 <==> parts == FirstParts(PartCount(size, partSize))
  {
    FullCountMeansAllParts(size, partSize, parts);
    ProgressFull(SumLen(size, partSize, parts), size);
  }

  /** Seek to part n and read it in full; `some` is false where nothing of the file remains. */
  method ReadPart(file: Bytes, partSize: int, n: nat) returns (some: bool, chunk: Bytes)
    requires partSize > 0 && 1 <= n <= PartCount(|file|, partSize)
    ensures some <==> |file| > 0
    ensures some ==> chunk == Part(file, partSize, n)
  {
    var seek := (n - 1) * partSize;
    var remain := |file| - seek;
    var chunkLen := partSize;
    if remain < chunkLen {
      chunkLen := remain;
    }
    if chunkLen <= 0 {
      PlannedPartNotMissing(|file|, partSize, n);
      return false, [];
    }
    SectionIsPart(file, partSize, n, chunkLen);
    return true, file[seek..seek + chunkLen];
  }
}
