/** internal/aiorganize/service.go: how pending works are cut into requests for the model. */
module Batching {
  import opened Seqs

  const MAX_CHUNK_WORKS := 20
  const MAX_CHUNK_BYTES := 28 * 1024

  function Flatten<T>(chunks: seq<seq<T>>): seq<T> {
    if chunks == [] then [] else chunks[0] + Flatten(chunks[1..])
  }

  /** The encoded size of a chunk. */
  function Total<T>(chunk: seq<T>, size: T -> nat): nat {
    if chunk == [] then 0 else Total(chunk[..|chunk| - 1], size) + size(chunk[|chunk| - 1])
  }

  /** At most 20 works and 28 KiB, except that a single work may be larger. */
  predicate ValidChunk<T>(chunk: seq<T>, size: T -> nat) {
    0 < |chunk| <= 20 && (|chunk| == 1 || Total(chunk, size) <= 28672)
  }

  /** The works cut into valid chunks, in their order. */
  ghost predicate IsSplit<T>(chunks: seq<seq<T>>, works: seq<T>, size: T -> nat) {
    Flatten(chunks) == works && forall c :: c in chunks ==> ValidChunk(c, size)
  }

  /** Each chunk is as long as it can be: the first work of the next one no longer fits. */
  ghost predicate IsGreedy<T>(chunks: seq<seq<T>>, size: T -> nat) {
    forall i :: 0 <= i < |chunks| - 1 && |chunks[i + 1]| > 0 ==> !ValidChunk(chunks[i] + [chunks[i + 1][0]], size)
  }

  lemma {:induction false} FlattenSnoc<T>(chunks: seq<seq<T>>, chunk: seq<T>)
    ensures Flatten(chunks + [chunk]) == Flatten(chunks) + chunk
  {
    if chunks == [] {
      assert [chunk][1..] == [];
    } else {
      FlattenSnoc(chunks[1..], chunk);
      assert (chunks + [chunk])[1..] == chunks[1..] + [chunk];
      AppendAssoc(chunks[0], Flatten(chunks[1..]), chunk);
    }
  }

  lemma {:induction false} TotalJoin<T>(a: seq<T>, b: seq<T>, size: T -> nat)
    ensures Total(a + b, size) == Total(a, size) + Total(b, size)
  {
    if b == [] {
      assert a + b == a;
    } else {
      TotalJoin(a, b[..|b| - 1], size);
      assert (a + b)[..|a + b| - 1] == a + b[..|b| - 1];
    }
  }

  /** A stretch of a valid chunk is a valid chunk. */
  lemma Stretch<T>(a: seq<T>, b: seq<T>, c: seq<T>, size: T -> nat)
    requires ValidChunk(a + b + c, size) && b != []
    ensures ValidChunk(b, size)
  {
    TotalJoin(a + b, c, size);
    TotalJoin(a, b, size);
  }

  /** A greedy split that has at most as much left to cover as another split needs at most as many chunks. */
  lemma {:induction false} StaysAhead<T>(chunks: seq<seq<T>>, other: seq<seq<T>>, covered: seq<T>, size: T -> nat)
    requires IsGreedy(chunks, size)
    requires (forall c :: c in chunks ==> ValidChunk(c, size)) && (forall c :: c in other ==> ValidChunk(c, size))
    requires Flatten(other) == covered + Flatten(chunks)
    ensures |chunks| <= |other|
    decreases |chunks|
  {
    if chunks != [] {
      var c, s := chunks[0], Flatten(chunks[1..]);
      assert c in chunks && other != [];
      var o, t := other[0], Flatten(other[1..]);
      assert o in other && o + t == covered + (c + s);
      AppendAssoc(covered, c, s);
      assert IsGreedy(chunks[1..], size) by {
        assert forall i :: 0 <= i < |chunks| - 1 ==> chunks[1..][i] == chunks[i + 1];
      }
      assert forall x :: x in chunks[1..] ==> x in chunks;
      assert forall x :: x in other[1..] ==> x in other;
      if |o| <= |covered + c| {
        var rest := (covered + c)[|o|..];
        Remainder(o, t, covered + c, s);
        StaysAhead(chunks[1..], other[1..], rest, size);
      } else {
        TooLong(o, t, covered, c, s, size);
        FirstOfFlatten(chunks[1..], size);
      }
    }
  }

  lemma Remainder<T>(o: seq<T>, t: seq<T>, a: seq<T>, s: seq<T>)
    requires o + t == a + s && |o| <= |a|
    ensures t == a[|o|..] + s
  {
    assert t == (o + t)[|o|..];
    assert (a + s)[|o|..] == a[|o|..] + s;
  }

  /** A valid chunk that reaches beyond c shows that c could have taken one more. */
  lemma TooLong<T>(o: seq<T>, t: seq<T>, a: seq<T>, c: seq<T>, s: seq<T>, size: T -> nat)
    requires o + t == (a + c) + s && |o| > |a + c| && ValidChunk(o, size)
    ensures s != [] && ValidChunk(c + [s[0]], size)
  {
    var n := |a + c|;
    assert o[..n] == (o + t)[..n] == a + c;
    assert o[n] == (o + t)[n] == s[0];
    assert o == a + (c + [s[0]]) + o[n + 1..];
    Stretch(a, c + [s[0]], o[n + 1..], size);
  }

  lemma FirstOfFlatten<T>(chunks: seq<seq<T>>, size: T -> nat)
    requires Flatten(chunks) != [] && forall c :: c in chunks ==> ValidChunk(c, size)
    ensures chunks != [] && chunks[0] != [] && chunks[0][0] == Flatten(chunks)[0]
  {
    assert chunks[0] in chunks;
  }

  /** No other split into valid chunks has fewer chunks. */
  lemma GreedyIsOptimal<T>(chunks: seq<seq<T>>, other: seq<seq<T>>, works: seq<T>, size: T -> nat)
    requires IsSplit(chunks, works, size) && IsGreedy(chunks, size) && IsSplit(other, works, size)
    ensures |chunks| <= |other|
  {
    assert Flatten(other) == [] + Flatten(chunks);
    StaysAhead(chunks, other, [], size);
  }

  lemma GreedyOneMore<T>(chunks: seq<seq<T>>, current: seq<T>, next: seq<T>, size: T -> nat)
    requires IsGreedy(chunks + [current], size) && next != [] && !ValidChunk(current + [next[0]], size)
    ensures IsGreedy(chunks + [current] + [next], size)
  {
    var a, b := chunks + [current], chunks + [current] + [next];
    forall i | 0 <= i < |b| - 1
      ensures b[i + 1] != [] ==> !ValidChunk(b[i] + [b[i + 1][0]], size)
    {
      assert b[i] == a[i];
      if i < |a| - 1 {
        assert b[i + 1] == a[i + 1];
      }
    }
  }

  lemma GreedyLonger<T>(chunks: seq<seq<T>>, current: seq<T>, work: T, size: T -> nat)
    requires IsGreedy(chunks + [current], size) && current != []
    ensures IsGreedy(chunks + [current + [work]], size)
  {
    var a, b := chunks + [current], chunks + [current + [work]];
    forall i | 0 <= i < |b| - 1
      ensures b[i + 1] != [] ==> !ValidChunk(b[i] + [b[i + 1][0]], size)
    {
      assert a[i] == b[i];
      assert b[i + 1] != [] ==> a[i + 1] != [] && a[i + 1][0] == b[i + 1][0];
    }
  }

  /** `splitWorks`, for any size of an encoded work. */
  method SplitWorks<T>(works: seq<T>, size: T -> nat) returns (chunks: seq<seq<T>>)
    ensures IsSplit(chunks, works, size) && IsGreedy(chunks, size)
    ensures forall other :: IsSplit(other, works, size) ==> |chunks| <= |other|
  {
    hide *;
    NothingSplit(size);
    chunks := [];
    var current, total: nat := [], 0;
    ghost var scanned: seq<T> := [];
    for i := 0 to |works|
      invariant scanned == works[..i] && Flatten(chunks) + current == scanned
      invariant current != [] ==> ValidChunk(current, size) && IsGreedy(chunks + [current], size)
      invariant current == [] ==> chunks == []
      invariant AllValid(chunks, size) && total == Total(current, size)
    {
      var work := works[i];
      TakeNext(works, i);
      var encoded := size(work);
      OneMoreWork(current, work, size);
      AppendAssoc(Flatten(chunks), current, [work]);
      if |current| > 0 && (|current| >= MAX_CHUNK_WORKS || total + encoded > MAX_CHUNK_BYTES) {
        GreedyOneMore(chunks, current, [work], size);
        FlattenSnoc(chunks, current);
        AllValidMore(chunks, current, size);
        OneMoreWork([], work, size);
        chunks := chunks + [current];
        current, total := [], 0;
        assert current + [work] == [work];
      } else if |current| > 0 {
        GreedyLonger(chunks, current, work, size);
      } else {
        OneChunk(work, size);
        assert current + [work] == [work] && chunks + [current + [work]] == [[work]];
      }
      current := current + [work];
      total := total + encoded;
      scanned := scanned + [work];
    }
    TakeAll(works);
    if |current| > 0 {
      FlattenSnoc(chunks, current);
      AllValidMore(chunks, current, size);
      chunks := chunks + [current];
    } else {
      NothingGreedy(chunks, size);
    }
    SplitIs(chunks, works, size);
    forall other | IsSplit(other, works, size)
      ensures |chunks| <= |other|
    {
      GreedyIsOptimal(chunks, other, works, size);
    }
  }

  ghost predicate AllValid<T>(chunks: seq<seq<T>>, size: T -> nat) {
    forall c :: c in chunks ==> ValidChunk(c, size)
  }

  lemma NothingSplit<T>(size: T -> nat)
    ensures Flatten<T>([]) == [] && AllValid<T>([], size) && Total([], size) == 0
  {
  }

  lemma NothingGreedy<T>(chunks: seq<seq<T>>, size: T -> nat)
    ensures chunks == [] ==> IsGreedy(chunks, size)
  {
  }

  lemma AllValidMore<T>(chunks: seq<seq<T>>, chunk: seq<T>, size: T -> nat)
    requires AllValid(chunks, size) && ValidChunk(chunk, size)
    ensures AllValid(chunks + [chunk], size)
  {
  }

  lemma SplitIs<T>(chunks: seq<seq<T>>, works: seq<T>, size: T -> nat)
    requires Flatten(chunks) == works && AllValid(chunks, size)
    ensures IsSplit(chunks, works, size)
  {
  }

  lemma OneChunk<T>(work: T, size: T -> nat)
    ensures IsGreedy([[work]], size) && [] + [[work]] == [[work]] && [] + [work] == [work]
  {
  }

  /** A work more fits exactly when neither bound is reached. */
  lemma OneMoreWork<T>(current: seq<T>, work: T, size: T -> nat)
    requires current != [] ==> ValidChunk(current, size)
    ensures Total(current + [work], size) == Total(current, size) + size(work)
    ensures ValidChunk(current + [work], size) <==>
              current == [] || !(|current| >= MAX_CHUNK_WORKS || Total(current, size) + size(work) > MAX_CHUNK_BYTES)
  {
    assert (current + [work])[..|current|] == current;
  }
}
