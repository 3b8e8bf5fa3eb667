/** drivers/LocalFs/move.go: copying and moving entries of a directory tree, with copy and removal where
    a rename crosses devices. A link is an entry of its own; only the look-up of a destination and a
    write to it follow one. */
module LocalMove {
  import opened Wrappers

  type Path = seq<string>

  datatype Node = Dir | File(content: seq<int>) | Link(target: string)

  type Tree = map<Path, Node>

  function Parent(p: Path): Path
    requires p != []
  {
    p[..|p| - 1]
  }

  /** Every entry is in a directory. */
  ghost predicate WellFormed(t: Tree) {
    forall p :: p in t && p != [] ==> Parent(p) in t && t[Parent(p)].Dir?
  }

  // ----- places in a tree -----

  predicate Has(t: Tree, base: Path, s: Path) {
    base + s in t
  }

  function At(t: Tree, base: Path, s: Path): Node
    requires Has(t, base, s)
  {
    t[base + s]
  }

  /** The two trees agree on an entry. */
  ghost predicate SameAt(t: Tree, u: Tree, q: Path) {
    (q in t <==> q in u) && (q in t && q in u ==> t[q] == u[q])
  }

  /** Nothing changed but at `base` and below. */
  ghost predicate SameOutside(t: Tree, u: Tree, base: Path) {
    forall q :: !(base <= q) ==> SameAt(t, u, q)
  }

  /** What was at `src` and below in `t` is at `dst` and below in `u`: names, kinds, contents and link
      targets, and nothing else. */
  ghost predicate IsCopy(t: Tree, u: Tree, src: Path, dst: Path) {
    forall s :: (Has(u, dst, s) <==> Has(t, src, s)) && (Has(u, dst, s) && Has(t, src, s) ==> At(u, dst, s) == At(t, src, s))
  }

  lemma {:induction false} Ancestors(t: Tree, p: Path, q: Path)
    requires WellFormed(t) && q in t && p <= q
    ensures p in t && (p != q ==> t[p].Dir?)
    decreases |q|
  {
    if p != q {
      Ancestors(t, p, Parent(q));
    }
  }

  /** Below an entry that does not exist, or is not a directory, there is nothing. */
  lemma NothingBelow(t: Tree, base: Path)
    requires WellFormed(t) && (base in t ==> !t[base].Dir?)
    ensures forall s :: Has(t, base, s) ==> s == [] && base in t
    ensures forall q :: base <= q && q in t ==> q == base
  {
    forall q | base <= q && q in t
      ensures q == base
    {
      Ancestors(t, base, q);
    }
    forall s | Has(t, base, s)
      ensures s == [] && base in t
    {
      assert base <= base + s;
      assert |base + s| == |base| + |s|;
    }
  }

  /** A new entry in a directory. */
  lemma AddEntry(t: Tree, p: Path, node: Node)
    requires WellFormed(t) && p != [] && p !in t && Parent(p) in t && t[Parent(p)].Dir?
    ensures WellFormed(t[p := node]) && SameOutside(t, t[p := node], p)
  {
    var u := t[p := node];
    forall q | q in u && q != []
      ensures Parent(q) in u && u[Parent(q)].Dir?
    {
      if q != p {
        assert Parent(q) in t;
      }
    }
  }

  /** A copied leaf: a file or a link. */
  lemma LeafCopy(t: Tree, src: Path, dst: Path)
    requires WellFormed(t) && src in t && !t[src].Dir? && dst !in t && dst != [] && Parent(dst) in t && t[Parent(dst)].Dir?
    ensures var u := t[dst := t[src]]; WellFormed(u) && SameOutside(t, u, dst) && IsCopy(t, u, src, dst)
  {
    var u := t[dst := t[src]];
    AddEntry(t, dst, t[src]);
    NothingBelow(t, src);
    NothingBelow(u, dst);
    forall s
      ensures (Has(u, dst, s) <==> Has(t, src, s)) && (Has(u, dst, s) && Has(t, src, s) ==> At(u, dst, s) == At(t, src, s))
    {
      assert dst + [] == dst && src + [] == src;
      assert s == [] ==> Has(u, dst, s) && Has(t, src, s);
    }
  }

  // ----- a directory that is copied entry by entry -----

  /** All entries of the directory are copied but those in `rest`. */
  ghost predicate Partly(t: Tree, u: Tree, src: Path, dst: Path, rest: set<string>) {
    && (forall s :: Has(u, dst, s) <==> s == [] || (s[0] !in rest && Has(t, src, s)))
    && (forall s :: s != [] && Has(u, dst, s) && Has(t, src, s) ==> At(u, dst, s) == At(t, src, s))
  }

  function Names(t: Tree, dir: Path): (names: set<string>)
    ensures forall e :: e in names <==> dir + [e] in t
  {
    var names := set q | q in t && |q| == |dir| + 1 && dir <= q :: q[|dir|];
    assert forall e :: dir + [e] in t ==> (dir + [e])[|dir|] == e;
    assert forall q :: q in t && |q| == |dir| + 1 && dir <= q ==> q == dir + [q[|dir|]];
    names
  }

  lemma FirstName(t: Tree, base: Path, s: Path)
    requires WellFormed(t) && Has(t, base, s) && s != []
    ensures s[0] in Names(t, base)
  {
    assert base + [s[0]] <= base + s;
    Ancestors(t, base + [s[0]], base + s);
  }

  lemma NothingCopied(t: Tree, u: Tree, src: Path, dst: Path)
    requires WellFormed(t) && WellFormed(u) && src in t && t[src].Dir? && dst !in t && u == t[dst := Dir]
    ensures Partly(t, u, src, dst, Names(t, src))
  {
    NothingBelow(t, dst);
    assert dst + [] == dst;
    forall s | s != []
      ensures !Has(u, dst, s) && (Has(t, src, s) ==> s[0] in Names(t, src))
    {
      assert dst <= dst + s && dst + s != dst by {
        assert |dst + s| == |dst| + |s|;
      }
      if Has(t, src, s) {
        FirstName(t, src, s);
      }
    }
    assert Has(u, dst, []);
  }

  lemma AllCopied(t: Tree, u: Tree, src: Path, dst: Path)
    requires Partly(t, u, src, dst, {}) && src in t && dst in u && t[src] == u[dst]
    ensures IsCopy(t, u, src, dst)
  {
    assert src + [] == src && dst + [] == dst;
  }

  lemma Shift(base: Path, e: string, s: Path)
    requires s != [] && s[0] == e
    ensures base + s == base + [e] + s[1..]
  {
    assert s == [e] + s[1..];
  }

  lemma FirstOfBelow(base: Path, e: string, s: Path)
    requires base + [e] <= base + s
    ensures s != [] && s[0] == e
  {
    assert (base + [e])[|base|] == (base + s)[|base|];
  }

  lemma OtherName(base: Path, e: string, s: Path)
    requires s == [] || s[0] != e
    ensures !(base + [e] <= base + s)
  {
    if base + [e] <= base + s {
      FirstOfBelow(base, e, s);
    }
  }

  /** One more entry copied. */
  lemma CopiedOne(t: Tree, u: Tree, v: Tree, src: Path, dst: Path, rest: set<string>, e: string)
    requires Partly(t, u, src, dst, rest) && e in rest
    requires SameOutside(u, v, dst + [e])
    requires IsCopy(t, v, src + [e], dst + [e])
    ensures Partly(t, v, src, dst, rest - {e})
  {
    forall s
      ensures Has(v, dst, s) <==> s == [] || (s[0] !in rest - {e} && Has(t, src, s))
      ensures s != [] && Has(v, dst, s) && Has(t, src, s) ==> At(v, dst, s) == At(t, src, s)
    {
      if s != [] && s[0] == e {
        Shift(src, e, s);
        Shift(dst, e, s);
        assert Has(v, dst + [e], s[1..]) <==> Has(t, src + [e], s[1..]);
      } else {
        OtherName(dst, e, s);
        assert SameAt(u, v, dst + s);
        assert Has(u, dst, s) <==> s == [] || (s[0] !in rest && Has(t, src, s));
      }
    }
  }

  lemma Comparable(a: Path, b: Path, q: Path)
    requires a <= q && b <= q
    ensures a <= b || b <= a
  {
    if |a| <= |b| {
      assert a == q[..|a|] == b[..|a|];
    } else {
      assert b == q[..|b|] == a[..|b|];
    }
  }

  lemma ChildOfBoth(a: Path, b: Path, e: string)
    requires a + [e] <= b + [e]
    ensures a <= b
  {
    assert a <= a + [e] && b <= b + [e];
    Comparable(a, b, b + [e]);
  }

  /** Neither is below the other, nor is it the other. */
  ghost predicate Apart(a: Path, b: Path) {
    !(a <= b) && !(b <= a)
  }

  lemma Disjoint(a: Path, b: Path, q: Path)
    requires Apart(a, b) && a <= q
    ensures !(b <= q)
  {
    if b <= q {
      Comparable(a, b, q);
    }
  }

  lemma StillApart(a: Path, b: Path, e: string)
    requires Apart(a, b)
    ensures Apart(a + [e], b + [e])
  {
    if a + [e] <= b + [e] {
      ChildOfBoth(a, b, e);
    }
    if b + [e] <= a + [e] {
      ChildOfBoth(b, a, e);
    }
  }

  /** Changes below an entry are changes below what it is in. */
  lemma OutsideJoin(t: Tree, u: Tree, v: Tree, base: Path, inner: Path)
    requires SameOutside(t, u, base) && SameOutside(u, v, inner) && base <= inner
    ensures SameOutside(t, v, base)
  {
    forall q | !(base <= q)
      ensures SameAt(t, v, q)
    {
      assert SameAt(t, u, q) && SameAt(u, v, q);
    }
  }

  /** A tree that changed only at `dst` still holds the source as it was. */
  lemma SourceKept(t: Tree, u: Tree, src: Path, dst: Path)
    requires SameOutside(t, u, dst) && Apart(src, dst)
    ensures IsCopy(t, u, src, src) && SameAt(t, u, src)
  {
    forall s
      ensures (Has(u, src, s) <==> Has(t, src, s)) && (Has(u, src, s) && Has(t, src, s) ==> At(u, src, s) == At(t, src, s))
    {
      Disjoint(src, dst, src + s);
      assert SameAt(t, u, src + s);
    }
    Disjoint(src, dst, src);
  }

  lemma CopyThrough(t: Tree, u: Tree, v: Tree, a: Path, b: Path, c: Path)
    requires IsCopy(t, u, a, b) && IsCopy(u, v, b, c)
    ensures IsCopy(t, v, a, c)
  {
    forall s
      ensures (Has(v, c, s) <==> Has(t, a, s)) && (Has(v, c, s) && Has(t, a, s) ==> At(v, c, s) == At(t, a, s))
    {
      assert Has(u, b, s) <==> Has(t, a, s);
      assert Has(v, c, s) <==> Has(u, b, s);
    }
  }

  /** How deep the tree below an entry is at most. */
  ghost predicate Height(t: Tree, base: Path, height: nat) {
    forall q :: q in t && base <= q ==> |q| <= |base| + height
  }

  lemma ChildHeight(t: Tree, u: Tree, base: Path, e: string, height: nat)
    requires Height(t, base, height) && base + [e] in t
    requires forall q :: base <= q ==> SameAt(t, u, q)
    ensures height > 0 && Height(u, base + [e], height - 1)
  {
    assert base <= base + [e];
    forall q | q in u && base + [e] <= q
      ensures |q| <= |base + [e]| + (height - 1)
    {
      assert base <= q && SameAt(t, u, q);
    }
  }

  lemma BelowSourceSame(t: Tree, u: Tree, src: Path, dst: Path)
    requires SameOutside(t, u, dst) && Apart(src, dst)
    ensures forall q :: src <= q ==> SameAt(t, u, q)
  {
    forall q | src <= q
      ensures SameAt(t, u, q)
    {
      Disjoint(src, dst, q);
    }
  }

  // ----- what goes wrong -----

  /** What happens when an entry is copied to its new place: it fails before anything is there, or after
      a part is: the first bytes of a file, or a directory whose entries cannot be read. */
  datatype CopyFault = NoFault | NothingMade | PartMade(k: nat)

  /** The fault of each copied entry, by its new place, and the entries that cannot be removed. */
  datatype Faults = Faults(copy: Path -> CopyFault, remove: Path -> bool)

  /** No entry at `src` or below meets a fault on its way to `dst`. */
  ghost predicate CopyFree(t: Tree, src: Path, dst: Path, faults: Faults) {
    forall s :: Has(t, src, s) ==> faults.copy(dst + s) == NoFault
  }

  /** There is nothing at `base` or below. */
  ghost predicate Gone(t: Tree, base: Path) {
    forall q :: base <= q ==> q !in t
  }

  /** No entry at `base` or below refuses to be removed. */
  ghost predicate RemoveFree(t: Tree, base: Path, faults: Faults) {
    forall q :: q in t && base <= q ==> !faults.remove(q)
  }

  /** The entries of the directory that are not in `rest` are free of faults. */
  ghost predicate FreeBut(t: Tree, src: Path, dst: Path, rest: set<string>, faults: Faults) {
    forall e :: e in Names(t, src) && e !in rest ==> CopyFree(t, src + [e], dst + [e], faults)
  }

  lemma FaultAtTop(t: Tree, src: Path, dst: Path, faults: Faults)
    requires src in t
    ensures faults.copy(dst) != NoFault ==> !CopyFree(t, src, dst, faults)
  {
    assert src + [] == src && dst + [] == dst;
    assert Has(t, src, []);
  }

  lemma LeafIsFree(t: Tree, src: Path, dst: Path, faults: Faults)
    requires WellFormed(t) && src in t && !t[src].Dir?
    ensures CopyFree(t, src, dst, faults) <==> faults.copy(dst) == NoFault
  {
    FaultAtTop(t, src, dst, faults);
    NothingBelow(t, src);
    assert dst + [] == dst;
  }

  /** An entry of the directory, looked at later, is as free of faults as it was before. */
  lemma EntryIsFree(t: Tree, u: Tree, src: Path, dst: Path, e: string, faults: Faults)
    requires SameOutside(t, u, dst) && Apart(src, dst)
    ensures CopyFree(u, src + [e], dst + [e], faults) <==> CopyFree(t, src + [e], dst + [e], faults)
    ensures !CopyFree(t, src + [e], dst + [e], faults) ==> !CopyFree(t, src, dst, faults)
  {
    forall s
      ensures Has(u, src + [e], s) <==> Has(t, src + [e], s)
    {
      assert src <= src + [e] + s;
      Disjoint(src, dst, src + [e] + s);
      assert SameAt(t, u, src + [e] + s);
    }
    forall s | Has(t, src + [e], s)
      ensures Has(t, src, [e] + s) && dst + [e] + s == dst + ([e] + s)
    {
      Shift(src, e, [e] + s);
    }
  }

  lemma NothingIsFreeYet(t: Tree, src: Path, dst: Path, faults: Faults)
    ensures FreeBut(t, src, dst, Names(t, src), faults)
  {
  }

  lemma OneMoreFree(t: Tree, src: Path, dst: Path, rest: set<string>, e: string, faults: Faults)
    requires FreeBut(t, src, dst, rest, faults) && CopyFree(t, src + [e], dst + [e], faults)
    ensures FreeBut(t, src, dst, rest - {e}, faults)
  {
    hide CopyFree;
  }

  function FirstPart(content: seq<int>, k: nat): (part: seq<int>)
    ensures part <= content && |part| == if k < |content| then k else |content|
  {
    if k < |content| then content[..k] else content
  }

  lemma AllFree(t: Tree, src: Path, dst: Path, faults: Faults)
    requires WellFormed(t) && src in t && faults.copy(dst) == NoFault && FreeBut(t, src, dst, {}, faults)
    ensures CopyFree(t, src, dst, faults)
  {
    forall s | Has(t, src, s)
      ensures faults.copy(dst + s) == NoFault
    {
      if s == [] {
        assert dst + [] == dst;
      } else {
        FirstName(t, src, s);
        Shift(src, s[0], s);
        Shift(dst, s[0], s);
        assert Has(t, src + [s[0]], s[1..]);
      }
    }
  }

  // ----- removal and renaming -----

  lemma {:induction false} LongestExists(paths: set<Path>)
    requires paths != {}
    ensures exists q :: q in paths && forall r :: r in paths ==> |r| <= |q|
    decreases paths
  {
    var p :| p in paths;
    if paths - {p} != {} {
      LongestExists(paths - {p});
      var q :| q in paths - {p} && forall r :: r in paths - {p} ==> |r| <= |q|;
      var longest := if |p| > |q| then p else q;
      assert longest in paths && forall r :: r in paths ==> r == p || r in paths - {p};
      assert forall r :: r in paths ==> |r| <= |longest|;
    } else {
      assert paths == {p};
    }
  }

  lemma HeightExists(t: Tree, base: Path) returns (height: nat)
    ensures Height(t, base, height)
  {
    height := 0;
    if t.Keys != {} {
      LongestExists(t.Keys);
      var q :| q in t.Keys && forall r :: r in t.Keys ==> |r| <= |q|;
      height := |q|;
    }
  }

  function Below(t: Tree, base: Path): (paths: set<Path>)
    ensures forall q :: q in paths <==> q in t && base <= q
  {
    set q | q in t && base <= q
  }

  lemma Prefixes(a: Path, b: Path, c: Path)
    requires a <= b && b <= c
    ensures a <= c
  {
  }

  /** An entry with nothing below it can be taken away. */
  lemma DropEntry(t: Tree, base: Path, q: Path)
    requires WellFormed(t) && q in t && base <= q && forall r :: r in t && base <= r ==> |r| <= |q|
    ensures WellFormed(t - {q}) && SameOutside(t, t - {q}, base)
  {
    forall r | r in t - {q} && r != []
      ensures Parent(r) in t - {q} && (t - {q})[Parent(r)].Dir?
    {
      if Parent(r) == q {
        Prefixes(base, q, r);
      }
    }
  }

  /** The tree after a rename. */
  function Renamed(t: Tree, src: Path, dst: Path): (u: Tree)
    requires Apart(src, dst)
    ensures forall q :: q in u <==> (dst <= q && src + q[|dst|..] in t) || (!(dst <= q) && !(src <= q) && q in t)
    ensures forall q :: q in u ==> u[q] == (if dst <= q then t[src + q[|dst|..]] else t[q])
  {
    var stay := set q | q in t && !(dst <= q) && !(src <= q);
    var come := set q | q in t && src <= q :: dst + q[|src|..];
    assert forall q :: q in come ==> dst <= q && src + q[|dst|..] in t by {
      forall q | q in come
        ensures dst <= q && src + q[|dst|..] in t
      {
        var p :| p in t && src <= p && q == dst + p[|src|..];
        assert q[|dst|..] == p[|src|..];
        assert src + p[|src|..] == p;
      }
    }
    assert forall q :: dst <= q && src + q[|dst|..] in t ==> q in come by {
      forall q | dst <= q && src + q[|dst|..] in t
        ensures q in come
      {
        var p := src + q[|dst|..];
        assert src <= p && p[|src|..] == q[|dst|..];
        assert q == dst + p[|src|..];
      }
    }
    map q | q in stay + come :: if dst <= q then t[src + q[|dst|..]] else t[q]
  }

  /** The source is at the destination, and nothing else changed. */
  ghost predicate Moved(t: Tree, u: Tree, src: Path, dst: Path) {
    && IsCopy(t, u, src, dst) && (forall q :: src <= q ==> q !in u)
    && SameElsewhere(t, u, src, dst)
  }

  ghost predicate SameElsewhere(t: Tree, u: Tree, src: Path, dst: Path) {
    forall q :: !(src <= q) && !(dst <= q) ==> SameAt(t, u, q)
  }

  lemma RenameMoves(t: Tree, src: Path, dst: Path)
    requires WellFormed(t) && src in t && Apart(src, dst) && dst !in t && dst != [] && Parent(dst) in t && t[Parent(dst)].Dir?
    ensures var u := Renamed(t, src, dst); WellFormed(u) && Moved(t, u, src, dst)
  {
    hide Renamed, IsCopy, WellFormed;
    RenameCopies(t, src, dst);
    RenamedIsWellFormed(t, src, dst);
    RenamedElsewhere(t, src, dst);
  }

  lemma RenamedElsewhere(t: Tree, src: Path, dst: Path)
    requires WellFormed(t) && Apart(src, dst) && dst !in t
    ensures var u := Renamed(t, src, dst); (forall q :: src <= q ==> q !in u) && SameElsewhere(t, u, src, dst)
  {
    hide Renamed;
    forall q | src <= q
      ensures q !in Renamed(t, src, dst)
    {
      Disjoint(src, dst, q);
    }
    NothingBelow(t, dst);
  }

  lemma RenamedIsWellFormed(t: Tree, src: Path, dst: Path)
    requires WellFormed(t) && src in t && Apart(src, dst) && dst !in t && dst != [] && Parent(dst) in t && t[Parent(dst)].Dir?
    ensures WellFormed(Renamed(t, src, dst))
  {
    hide Renamed, Apart;
    forall q | q in Renamed(t, src, dst) && q != []
      ensures Parent(q) in Renamed(t, src, dst) && Renamed(t, src, dst)[Parent(q)].Dir?
    {
      RenamedParent(t, src, dst, q);
    }
  }

  lemma RenameCopies(t: Tree, src: Path, dst: Path)
    requires Apart(src, dst)
    ensures IsCopy(t, Renamed(t, src, dst), src, dst)
  {
    var u := Renamed(t, src, dst);
    forall s
      ensures (Has(u, dst, s) <==> Has(t, src, s)) && (Has(u, dst, s) && Has(t, src, s) ==> At(u, dst, s) == At(t, src, s))
    {
      assert dst <= dst + s && (dst + s)[|dst|..] == s;
    }
  }

  lemma RenamedParent(t: Tree, src: Path, dst: Path, q: Path)
    requires WellFormed(t) && src in t && Apart(src, dst) && dst !in t && dst != [] && Parent(dst) in t && t[Parent(dst)].Dir?
    requires q != [] && q in Renamed(t, src, dst)
    ensures Parent(q) in Renamed(t, src, dst) && Renamed(t, src, dst)[Parent(q)].Dir?
  {
    hide Renamed;
    if q == dst {
      OutsidePlace(src, dst, Parent(q), q);
    } else if dst <= q {
      MovedPlace(t, src, dst, q);
    } else {
      OutsidePlace(src, dst, Parent(q), q);
    }
  }

  /** The directory of an entry that is not below the source or the destination is not either. */
  lemma OutsidePlace(src: Path, dst: Path, p: Path, q: Path)
    requires q != [] && p == Parent(q) && !(src <= q) && (q == dst || !(dst <= q))
    ensures !(src <= p) && !(dst <= p)
  {
    if src <= p {
      Prefixes(src, p, q);
    }
    if dst <= p {
      Prefixes(dst, p, q);
    }
  }

  lemma MovedPlace(t: Tree, src: Path, dst: Path, q: Path)
    requires WellFormed(t) && Apart(src, dst) && dst <= q && q != dst && src + q[|dst|..] in t
    ensures var p := Parent(q); dst <= p && src + p[|dst|..] in t && t[src + p[|dst|..]].Dir?
  {
    var s := q[|dst|..];
    assert Parent(src + s) == src + s[..|s| - 1];
    assert Parent(q)[|dst|..] == s[..|s| - 1];
  }

  /** What a removal at `src` leaves of a copy at `dst`. */
  lemma CopyKept(t: Tree, u: Tree, v: Tree, src: Path, dst: Path)
    requires IsCopy(t, u, src, dst) && SameOutside(u, v, src) && Apart(src, dst)
    ensures IsCopy(t, v, src, dst)
  {
    SourceKept(u, v, dst, src);
    CopyThrough(t, u, v, src, dst, dst);
  }

  lemma ElsewhereJoin(t: Tree, u: Tree, v: Tree, src: Path, dst: Path)
    requires SameOutside(t, u, dst) && (SameOutside(u, v, src) || SameOutside(u, v, dst))
    ensures SameElsewhere(t, v, src, dst)
  {
    forall q | !(src <= q) && !(dst <= q)
      ensures SameAt(t, v, q)
    {
      assert SameAt(t, u, q) && SameAt(u, v, q);
    }
  }

  /** Every file and link of the source is, as it was, still there or at the destination. */
  ghost predicate Safe(t: Tree, u: Tree, src: Path, dst: Path) {
    forall s :: Has(t, src, s) && !At(t, src, s).Dir? ==>
      || (Has(u, src, s) && At(u, src, s) == At(t, src, s))
      || (Has(u, dst, s) && At(u, dst, s) == At(t, src, s))
  }

  lemma CopyIsSafe(t: Tree, u: Tree, src: Path, dst: Path)
    requires IsCopy(t, u, src, dst) || IsCopy(t, u, src, src)
    ensures Safe(t, u, src, dst)
  {
  }

  // ----- whole requests -----

  datatype Result = Done | OutsideRoot | IsRoot | Missing | NotADir | IntoItself | Exists | FsError

  /** `isSubPath` on clean paths. */
  predicate IsSubPath(parent: Path, child: Path) {
    parent <= child
  }

  function Target(src: Path, targetDir: Path): Path
    requires src != []
  {
    targetDir + [src[|src| - 1]]
  }

  /** A transfer that succeeded: nothing to do, or the source is copied or moved to a free place, and
      nothing else changed. */
  ghost predicate Transferred(t: Tree, u: Tree, src: Path, targetDir: Path, copyMode: bool) {
    && src != []
    && var dst := Target(src, targetDir);
       if src == dst then u == t
       else
         && Apart(src, dst) && dst !in t && IsCopy(t, u, src, dst)
         && (if copyMode then SameOutside(t, u, dst) else Moved(t, u, src, dst))
  }

  /** The trees between the transfers of a request. */
  ghost predicate Trail(trees: seq<Tree>, ids: seq<Path>, targetDir: Path, copyMode: bool) {
    && |trees| == |ids| + 1
    && forall i :: 0 <= i < |ids| ==> Transferred(trees[i], trees[i + 1], ids[i], targetDir, copyMode)
  }

  lemma TrailNext(trees: seq<Tree>, ids: seq<Path>, targetDir: Path, copyMode: bool, id: Path, next: Tree)
    requires Trail(trees, ids, targetDir, copyMode) && Transferred(trees[|ids|], next, id, targetDir, copyMode)
    ensures Trail(trees + [next], ids + [id], targetDir, copyMode)
  {
    var all, more := trees + [next], ids + [id];
    forall i | 0 <= i < |more|
      ensures Transferred(all[i], all[i + 1], more[i], targetDir, copyMode)
    {
      if i < |ids| {
        assert all[i] == trees[i] && all[i + 1] == trees[i + 1] && more[i] == ids[i];
      }
    }
  }

  /** The guard before a transfer leaves two places of which neither is below the other. */
  lemma GuardedIsApart(t: Tree, src: Path, dst: Path)
    requires WellFormed(t) && src in t && dst !in t && !IsSubPath(src, dst)
    ensures Apart(src, dst)
  {
    if dst <= src {
      Ancestors(t, dst, src);
    }
  }

  /** Where an entry is after a transfer that took it along. */
  function Image(p: Path, src: Path, targetDir: Path): Path {
    if src != [] && src <= p then Target(src, targetDir) + p[|src|..] else p
  }

  /** Where p may be after the transfers, each of which took it along or not. */
  ghost function Places(ids: seq<Path>, targetDir: Path, p: Path): set<Path> {
    if ids == [] then {p}
    else
      var before := Places(ids[..|ids| - 1], targetDir, p);
      before + set r | r in before :: Image(r, ids[|ids| - 1], targetDir)
  }

  ghost predicate GoesTo(ids: seq<Path>, targetDir: Path, p: Path, q: Path) {
    q in Places(ids, targetDir, p)
  }

  /** Each file and link of `t` is, as it was, at a place of its own in `u`. */
  ghost predicate Relocates(place: map<Path, Path>, t: Tree, u: Tree) {
    && (forall p :: p in place <==> p in t && !t[p].Dir?)
    && (forall p :: p in place ==> place[p] in u && u[place[p]] == t[p])
    && (forall p, q :: p in place && q in place && place[p] == place[q] ==> p == q)
  }

  /** No file or link is lost: each is where it was, or where the transfers take it. */
  ghost predicate NothingLost(t: Tree, u: Tree, ids: seq<Path>, targetDir: Path) {
    exists place :: Relocates(place, t, u) && forall p :: p in place ==> GoesTo(ids, targetDir, p, place[p])
  }

  /** Nothing of `t` changed in `u`. */
  ghost predicate Extends(t: Tree, u: Tree) {
    forall p :: p in t ==> p in u && u[p] == t[p]
  }

  lemma GoesToNext(ids: seq<Path>, id: Path, targetDir: Path, p: Path, r: Path, q: Path)
    requires GoesTo(ids, targetDir, p, r) && (q == r || q == Image(r, id, targetDir))
    ensures GoesTo(ids + [id], targetDir, p, q)
  {
    assert (ids + [id])[..|ids|] == ids;
  }

  lemma GoesToOnly(id: Path, targetDir: Path, p: Path, q: Path)
    ensures GoesTo([id], targetDir, p, q) <==> q == p || q == Image(p, id, targetDir)
  {
    assert [id][..0] == [];
    assert GoesTo([], targetDir, p, p);
  }

  /** The places after a transfer that may have stopped anywhere. */
  function PlaceAfter(t: Tree, u: Tree, src: Path, targetDir: Path): map<Path, Path> {
    map p | p in t && !t[p].Dir? :: if p in u && u[p] == t[p] then p else Image(p, src, targetDir)
  }

  lemma SafeKeeps(t: Tree, u: Tree, src: Path, targetDir: Path, p: Path)
    requires src != [] && WellFormed(t) && p in t && !t[p].Dir? && Target(src, targetDir) !in t
    requires Safe(t, u, src, Target(src, targetDir)) && SameElsewhere(t, u, src, Target(src, targetDir))
    ensures var q := PlaceAfter(t, u, src, targetDir)[p]; q in u && u[q] == t[p]
  {
    var dst := Target(src, targetDir);
    NothingBelow(t, dst);
    if src <= p {
      var s := p[|src|..];
      assert src + s == p;
      assert Has(t, src, s);
    } else {
      assert !(dst <= p) && SameAt(t, u, p);
    }
  }

  lemma SafeKeepsApart(t: Tree, u: Tree, src: Path, targetDir: Path, p: Path, q: Path)
    requires src != [] && WellFormed(t) && p in t && !t[p].Dir? && q in t && !t[q].Dir? && Target(src, targetDir) !in t
    requires PlaceAfter(t, u, src, targetDir)[p] == PlaceAfter(t, u, src, targetDir)[q]
    ensures p == q
  {
    var dst, place := Target(src, targetDir), PlaceAfter(t, u, src, targetDir);
    NothingBelow(t, dst);
    if src <= p && place[p] != p {
      assert dst <= place[p];
      assert place[p][|dst|..] == p[|src|..] && p == src + p[|src|..];
    }
    if src <= q && place[q] != q {
      assert dst <= place[q];
      assert place[q][|dst|..] == q[|src|..] && q == src + q[|src|..];
    }
  }

  lemma SafeLosesNothing(t: Tree, u: Tree, src: Path, targetDir: Path)
    requires src != [] && WellFormed(t) && Target(src, targetDir) !in t
    requires Safe(t, u, src, Target(src, targetDir)) && SameElsewhere(t, u, src, Target(src, targetDir))
    ensures NothingLost(t, u, [src], targetDir)
  {
    hide Safe, SameElsewhere, WellFormed, Image, GoesTo;
    var place := PlaceAfter(t, u, src, targetDir);
    forall p | p in place
      ensures place[p] in u && u[place[p]] == t[p] && GoesTo([src], targetDir, p, place[p])
    {
      SafeKeeps(t, u, src, targetDir, p);
      GoesToOnly(src, targetDir, p, place[p]);
    }
    forall p, q | p in place && q in place && place[p] == place[q]
      ensures p == q
    {
      SafeKeepsApart(t, u, src, targetDir, p, q);
    }
    assert Relocates(place, t, u);
  }

  lemma RelocatesJoin(t: Tree, u: Tree, v: Tree, a: map<Path, Path>, b: map<Path, Path>)
    requires Relocates(a, t, u) && Relocates(b, u, v)
    ensures forall p :: p in a ==> a[p] in b
    ensures Relocates(map p | p in a :: b[a[p]], t, v)
  {
    forall p | p in a
      ensures a[p] in b && b[a[p]] in v && v[b[a[p]]] == t[p]
    {
      assert a[p] in u && u[a[p]] == t[p];
    }
    forall p, q | p in a && q in a && b[a[p]] == b[a[q]]
      ensures p == q
    {
      assert a[p] == a[q];
    }
  }

  lemma LosesNothingJoin(t: Tree, u: Tree, v: Tree, ids: seq<Path>, id: Path, targetDir: Path)
    requires NothingLost(t, u, ids, targetDir) && NothingLost(u, v, [id], targetDir)
    ensures NothingLost(t, v, ids + [id], targetDir)
  {
    var a :| Relocates(a, t, u) && forall p :: p in a ==> GoesTo(ids, targetDir, p, a[p]);
    var b :| Relocates(b, u, v) && forall p :: p in b ==> GoesTo([id], targetDir, p, b[p]);
    hide Relocates, GoesTo;
    RelocatesJoin(t, u, v, a, b);
    var place := map p | p in a :: b[a[p]];
    forall p | p in place
      ensures GoesTo(ids + [id], targetDir, p, place[p])
    {
      GoesToOnly(id, targetDir, a[p], place[p]);
      GoesToNext(ids, id, targetDir, p, a[p], place[p]);
    }
  }

  lemma CopyExtends(t: Tree, u: Tree, dst: Path)
    requires WellFormed(t) && dst !in t && SameOutside(t, u, dst)
    ensures Extends(t, u)
  {
    NothingBelow(t, dst);
    forall p | p in t
      ensures p in u && u[p] == t[p]
    {
      assert SameAt(t, u, p);
    }
  }

  lemma ExtendsLosesNothing(t: Tree, u: Tree, ids: seq<Path>, targetDir: Path)
    requires Extends(t, u)
    ensures NothingLost(t, u, ids, targetDir)
  {
    var place := map p | p in t && !t[p].Dir? :: p;
    assert Relocates(place, t, u);
    forall p | p in place
      ensures GoesTo(ids, targetDir, p, place[p])
    {
      StaysPut(ids, targetDir, p);
    }
  }

  lemma {:induction false} StaysPut(ids: seq<Path>, targetDir: Path, p: Path)
    ensures GoesTo(ids, targetDir, p, p)
  {
    if ids != [] {
      StaysPut(ids[..|ids| - 1], targetDir, p);
    }
  }

  lemma ExtendsJoin(t: Tree, u: Tree, v: Tree)
    requires Extends(t, u) && Extends(u, v)
    ensures Extends(t, v)
  {
  }

  lemma UnchangedIsFine(t: Tree, targetDir: Path)
    ensures Extends(t, t) && forall ids :: NothingLost(t, t, ids, targetDir)
  {
    forall ids
      ensures NothingLost(t, t, ids, targetDir)
    {
      ExtendsLosesNothing(t, t, ids, targetDir);
    }
  }

  // ----- a link at the destination -----

  /** What the look-up of a destination says. It follows links, so one whose end does not exist is absent. */
  datatype StatReply = Seen | Absent | StatError

  datatype RenameReply = Renames | CrossDevice | Refuses

  /** The replies during one transfer; `spot` is where a file is created when a link at the destination
      is written through, unless that is outside of the tree. */
  datatype Calls = Calls(stat: StatReply, rename: RenameReply, spot: Option<Path>, faults: Faults)

  /** A copy to `dst` meets no fault; onto a link only a file can be copied. */
  ghost predicate Copies(t: Tree, src: Path, dst: Path, calls: Calls) {
    src in t && (dst in t ==> t[src].File?) && CopyFree(t, src, dst, calls.faults)
  }

  /** A move to `dst` goes through: by a rename, unless a directory meets a link, or across devices by a
      copy and a removal that meet no fault. */
  ghost predicate Moves(t: Tree, src: Path, dst: Path, calls: Calls) {
    && src in t
    && match calls.rename
       case Renames => dst in t ==> !t[src].Dir?
       case CrossDevice => Copies(t, src, dst, calls) && RemoveFree(t, src, calls.faults)
       case Refuses => false
  }

  predicate LinkAt(t: Tree, p: Path) {
    p in t && t[p].Link?
  }

  /** Only of a link does the tree not decide whether something is there. */
  function Looked(t: Tree, dst: Path, stat: StatReply): StatReply {
    if stat == StatError then StatError
    else if dst !in t then Absent
    else if t[dst].Link? then stat
    else Seen
  }

  predicate CreatesAt(t: Tree, spot: Option<Path>) {
    && spot.Some? && spot.value != [] && spot.value !in t
    && Parent(spot.value) in t && t[Parent(spot.value)].Dir?
  }

  /** A file written through a link. */
  function Through(t: Tree, spot: Option<Path>, node: Node): Tree {
    if CreatesAt(t, spot) then t[spot.value := node] else t
  }

  /** A copy to a place where there is a link: only a file can be copied, and it goes where the link leads. */
  ghost predicate WroteThrough(t: Tree, u: Tree, src: Path, spot: Option<Path>, ok: bool) {
    && src in t
    && (ok ==> t[src].File? && u == Through(t, spot, t[src]))
    && (!ok ==> u == t || (t[src].File? && exists content :: u == Through(t, spot, File(content))))
  }

  /** A move to a place where there is a link. A rename replaces the link; across devices a file is written
      through the link, and the link is removed where that fails. */
  ghost predicate MovedOverLink(t: Tree, u: Tree, src: Path, dst: Path, calls: Calls, ok: bool) {
    && src in t && Apart(src, dst)
    && if calls.rename.Renames? && !t[src].Dir? then ok && u == Renamed(t - {dst}, src, dst)
       else if !calls.rename.CrossDevice? then !ok && u == t
       else
         exists w, copied ::
           && WroteThrough(t, w, src, calls.spot, copied) && (copied <==> Copies(t, src, dst, calls))
           && (ok <==> copied && !calls.faults.remove(src))
           && u == (if copied then if ok then w - {src} else w else if calls.faults.remove(dst) then w else w - {dst})
  }

  lemma ThroughIsWellFormed(t: Tree, spot: Option<Path>, node: Node)
    requires WellFormed(t)
    ensures WellFormed(Through(t, spot, node))
  {
    if CreatesAt(t, spot) {
      AddEntry(t, spot.value, node);
    }
  }

  lemma DropLeaf(t: Tree, p: Path)
    requires WellFormed(t) && p in t && !t[p].Dir?
    ensures WellFormed(t - {p})
  {
  }

  /** The removal of a file or link takes it away, or does nothing. */
  lemma RemovedLeaf(t: Tree, u: Tree, p: Path)
    requires WellFormed(t) && p in t && !t[p].Dir? && SameOutside(t, u, p)
    requires forall q :: q in u ==> q in t && u[q] == t[q]
    ensures u == t || u == t - {p}
    ensures p !in u ==> u == t - {p}
  {
    NothingBelow(t, p);
    forall q | q != p
      ensures (q in u <==> q in t) && (q in u ==> u[q] == t[q])
    {
      assert p <= q || SameAt(t, u, q);
    }
    if p in u {
      assert u == t;
    } else {
      assert u == t - {p};
    }
  }

  lemma ThroughKeeps(t: Tree, spot: Option<Path>, node: Node, p: Path)
    requires p in t
    ensures p in Through(t, spot, node) && Through(t, spot, node)[p] == t[p]
  {
  }

  lemma LinkIsApart(t: Tree, src: Path, dst: Path)
    requires WellFormed(t) && src in t && LinkAt(t, dst) && !(src <= dst)
    ensures Apart(src, dst)
  {
    if dst <= src {
      Ancestors(t, dst, src);
    }
  }

  /** A link has nothing below it, so without it the destination is free. */
  lemma ReplacesLink(t: Tree, src: Path, dst: Path)
    requires WellFormed(t) && src in t && LinkAt(t, dst) && Apart(src, dst) && dst != []
    ensures WellFormed(Renamed(t - {dst}, src, dst))
    ensures forall q :: src <= q ==> q !in Renamed(t - {dst}, src, dst)
    ensures dst in Renamed(t - {dst}, src, dst) && Renamed(t - {dst}, src, dst)[dst] == t[src]
    ensures SameElsewhere(t, Renamed(t - {dst}, src, dst), src, dst)
  {
    hide Renamed;
    var less := t - {dst};
    DropLeaf(t, dst);
    RenameMoves(less, src, dst);
    assert dst + [] == dst && src + [] == src && Has(less, src, []);
    assert Has(Renamed(less, src, dst), dst, []);
    forall q | !(src <= q) && !(dst <= q)
      ensures SameAt(t, Renamed(less, src, dst), q)
    {
      assert SameAt(less, Renamed(less, src, dst), q);
    }
  }

  /** A successful move over a link loses the link, or leaves the file elsewhere than at the destination. */
  lemma OverLinkLoses(t: Tree, u: Tree, src: Path, targetDir: Path, calls: Calls)
    requires src != [] && WellFormed(t) && LinkAt(t, Target(src, targetDir)) && Target(src, targetDir) != []
    requires MovedOverLink(t, u, src, Target(src, targetDir), calls, true)
    ensures !NothingLost(t, u, [src], targetDir)
  {
    forall place | Relocates(place, t, u)
      ensures exists p :: p in place && !GoesTo([src], targetDir, p, place[p])
    {
      var p := NoPlaceFor(t, u, src, targetDir, calls, place);
    }
  }

  lemma NoPlaceFor(t: Tree, u: Tree, src: Path, targetDir: Path, calls: Calls, place: map<Path, Path>) returns (p: Path)
    requires src != [] && WellFormed(t) && LinkAt(t, Target(src, targetDir)) && Target(src, targetDir) != []
    requires MovedOverLink(t, u, src, Target(src, targetDir), calls, true) && Relocates(place, t, u)
    ensures p in place && !GoesTo([src], targetDir, p, place[p])
  {
    hide Renamed, GoesTo, WellFormed;
    var dst := Target(src, targetDir);
    assert Image(src, src, targetDir) == dst && Image(dst, src, targetDir) == dst;
    if calls.rename.Renames? && !t[src].Dir? {
      ReplacesLink(t, src, dst);
      p := if place[src] == dst then dst else src;
    } else {
      GoneFromSource(t, u, src, dst, calls);
      p := src;
    }
    GoesToOnly(src, targetDir, p, place[p]);
  }

  lemma GoneFromSource(t: Tree, u: Tree, src: Path, dst: Path, calls: Calls)
    requires WellFormed(t) && LinkAt(t, dst) && MovedOverLink(t, u, src, dst, calls, true)
    requires !(calls.rename.Renames? && !t[src].Dir?)
    ensures t[src].File? && src !in u && dst in u && u[dst] == t[dst]
  {
    var w, copied :| WroteThrough(t, w, src, calls.spot, copied) && copied && u == w - {src};
    ThroughKeeps(t, calls.spot, t[src], dst);
  }

  /** The target directory stays where it is. */
  lemma TargetDirStays(t: Tree, u: Tree, src: Path, dst: Path, targetDir: Path)
    requires SameElsewhere(t, u, src, dst) && !(src <= dst) && |dst| > 0 && dst == targetDir + [dst[|dst| - 1]]
    ensures SameAt(t, u, targetDir)
  {
    if src <= targetDir {
      Prefixes(src, targetDir, dst);
    }
    assert |dst| == |targetDir| + 1;
  }

  class FileSystem {
    var tree: Tree

    constructor (tree: Tree)
      ensures this.tree == tree
    {
      this.tree := tree;
    }

    /** `copyFile` or a link that is made again. A file may be left with a part of its content. */
    method CopyLeaf(src: Path, dst: Path, faults: Faults) returns (ok: bool)
      requires WellFormed(tree) && src in tree && !tree[src].Dir?
      requires dst != [] && dst !in tree && Parent(dst) in tree && tree[Parent(dst)].Dir?
      modifies this
      ensures WellFormed(tree) && SameOutside(old(tree), tree, dst)
      ensures ok <==> CopyFree(old(tree), src, dst, faults)
      ensures ok ==> IsCopy(old(tree), tree, src, dst)
      ensures !ok ==>
                tree == if old(tree)[src].File? && faults.copy(dst).PartMade?
                        then old(tree)[dst := File(FirstPart(old(tree)[src].content, faults.copy(dst).k))] else old(tree)
    {
      var node := tree[src];
      LeafCopy(tree, src, dst);
      LeafIsFree(tree, src, dst, faults);
      var fault := faults.copy(dst);
      if fault == NoFault {
        tree := tree[dst := node];
        return true;
      }
      ok := false;
      if node.File? && fault.PartMade? {
        var partial := File(FirstPart(node.content, fault.k));
        AddEntry(tree, dst, partial);
        tree := tree[dst := partial];
      }
    }

    /** `copyPath`, and the same three cases inside `copyDir`. */
    method CopyPath(src: Path, dst: Path, faults: Faults, ghost height: nat) returns (ok: bool)
      requires WellFormed(tree) && src in tree && Height(tree, src, height) && Apart(src, dst)
      requires dst != [] && dst !in tree && Parent(dst) in tree && tree[Parent(dst)].Dir?
      modifies this
      ensures WellFormed(tree) && SameOutside(old(tree), tree, dst)
      ensures ok <==> CopyFree(old(tree), src, dst, faults)
      ensures ok ==> IsCopy(old(tree), tree, src, dst)
      decreases height, 1
    {
      if tree[src].Dir? {
        ok := CopyDir(src, dst, faults, height);
      } else {
        ok := CopyLeaf(src, dst, faults);
      }
    }

    /** `copyDir`: the directory is made, then its entries are copied one after the other; the first
        failure ends it. */
    method CopyDir(src: Path, dst: Path, faults: Faults, ghost height: nat) returns (ok: bool)
      requires WellFormed(tree) && src in tree && tree[src].Dir? && Height(tree, src, height) && Apart(src, dst)
      requires dst != [] && dst !in tree && Parent(dst) in tree && tree[Parent(dst)].Dir?
      modifies this
      ensures WellFormed(tree) && SameOutside(old(tree), tree, dst)
      ensures ok <==> CopyFree(old(tree), src, dst, faults)
      ensures ok ==> IsCopy(old(tree), tree, src, dst)
      decreases height, 0
    {
      hide IsCopy, Partly, Height, WellFormed, CopyFree, FreeBut;
      ghost var before := tree;
      var fault := faults.copy(dst);
      FaultAtTop(tree, src, dst, faults);
      if fault.NothingMade? {
        SameAsBefore(tree, dst);
        return false;
      }
      AddEntry(tree, dst, Dir);
      NothingCopied(tree, tree[dst := Dir], src, dst);
      tree := tree[dst := Dir];
      if fault.PartMade? {
        return false;
      }
      NothingIsFreeYet(before, src, dst, faults);
      SourceKept(before, tree, src, dst);
      var rest := Names(tree, src);
      SameNames(before, tree, src, dst);
      while rest != {}
        invariant WellFormed(tree) && SameOutside(before, tree, dst) && rest <= Names(before, src)
        invariant dst in tree && tree[dst] == Dir && Partly(before, tree, src, dst, rest)
        invariant FreeBut(before, src, dst, rest, faults)
        decreases rest
      {
        var e :| e in rest;
        ghost var now := tree;
        BelowSourceSame(before, tree, src, dst);
        ChildHeight(before, tree, src, e, height);
        StillApart(src, dst, e);
        NotYetThere(before, tree, src, dst, rest, e);
        ok := CopyPath(src + [e], dst + [e], faults, height - 1);
        EntryIsFree(before, now, src, dst, e, faults);
        OutsideJoin(before, now, tree, dst, dst + [e]);
        if !ok {
          return;
        }
        EntryFromBefore(before, now, tree, src, dst, e);
        CopiedOne(before, now, tree, src, dst, rest, e);
        assert SameAt(now, tree, dst);
        OneMoreFree(before, src, dst, rest, e, faults);
        rest := rest - {e};
      }
      ok := true;
      SourceKept(before, tree, src, dst);
      AllCopied(before, tree, src, dst);
      AllFree(before, src, dst, faults);
    }

    /** `os.RemoveAll`: entries go one by one, each after what is below it; it may stop anywhere. */
    method RemoveAll(base: Path, faults: Faults) returns (ok: bool)
      requires WellFormed(tree)
      modifies this
      ensures WellFormed(tree) && SameOutside(old(tree), tree, base)
      ensures forall q :: q in tree ==> q in old(tree) && tree[q] == old(tree)[q]
      ensures ok <==> Gone(tree, base)
      ensures ok <==> RemoveFree(old(tree), base, faults)
    {
      ghost var before := tree;
      var rest := Below(tree, base);
      while rest != {}
        invariant rest == Below(tree, base)
        invariant WellFormed(tree) && SameOutside(before, tree, base)
        invariant forall q :: q in tree ==> q in before && tree[q] == before[q]
        invariant forall q :: q in before && base <= q && q !in tree ==> !faults.remove(q)
        decreases rest
      {
        LongestExists(rest);
        var q :| q in rest && forall r :: r in rest ==> |r| <= |q|;
        if faults.remove(q) {
          return false;
        }
        ghost var now := tree;
        DropEntry(tree, base, q);
        tree := tree - {q};
        OutsideJoin(before, now, tree, base, base);
        assert Below(tree, base) == rest - {q};
        rest := rest - {q};
      }
      ok := true;
      assert forall q :: base <= q ==> q !in tree || q in Below(tree, base);
    }

    /** `copyPath` to a place where there is a link: a directory or a link cannot be made there, and a file
        is created where the link leads. */
    method CopyOverLink(src: Path, spot: Option<Path>, fault: CopyFault) returns (ok: bool)
      requires WellFormed(tree) && src in tree
      modifies this
      ensures WellFormed(tree) && WroteThrough(old(tree), tree, src, spot, ok)
      ensures ok <==> old(tree)[src].File? && fault == NoFault
    {
      var node := tree[src];
      if !node.File? || fault.NothingMade? {
        return false;
      }
      if fault.PartMade? {
        var partial := File(FirstPart(node.content, fault.k));
        ThroughIsWellFormed(tree, spot, partial);
        tree := Through(tree, spot, partial);
        return false;
      }
      ThroughIsWellFormed(tree, spot, node);
      tree := Through(tree, spot, node);
      ok := true;
    }

    /** `renameOrCopyMove`. Where the destination is free, whichever step fails, either the source is
        untouched or the copy is complete. */
    method RenameOrCopyMove(src: Path, dst: Path, calls: Calls) returns (ok: bool)
      requires WellFormed(tree) && src in tree && Apart(src, dst) && dst != []
      requires if dst in tree then LinkAt(tree, dst) else Parent(dst) in tree && tree[Parent(dst)].Dir?
      modifies this
      ensures WellFormed(tree)
      ensures dst !in old(tree) ==>
                && SameElsewhere(old(tree), tree, src, dst) && Safe(old(tree), tree, src, dst)
                && (ok ==> Moved(old(tree), tree, src, dst))
                && (IsCopy(old(tree), tree, src, src) || IsCopy(old(tree), tree, src, dst))
                && (!ok && NoneStays(calls.faults) ==> tree == old(tree))
      ensures dst in old(tree) ==> MovedOverLink(old(tree), tree, src, dst, calls, ok)
      ensures ok <==> Moves(old(tree), src, dst, calls)
    {
      hide *;
      ghost var before := tree;
      Ways(tree, src, dst, calls);
      if calls.rename.Renames? && (!tree[src].Dir? || dst !in tree) {
        RenameReplaces(tree, src, dst, calls);
        tree := Renamed(tree - {dst}, src, dst);
        return true;
      }
      Untouched(tree, src, dst, calls);
      ok := false;
      if calls.rename.CrossDevice? {
        if dst in tree {
          ok := CopyOverLink(src, calls.spot, calls.faults.copy(dst));
        } else {
          ghost var height := HeightExists(tree, src);
          ok := CopyPath(src, dst, calls.faults, height);
        }
        ghost var copied := tree;
        if !ok {
          var cleaned := RemoveAll(dst, calls.faults);
          CleanedUp(before, copied, tree, src, dst, calls, cleaned);
        } else {
          CopiedSource(before, copied, src, dst, calls);
          SameToRemove(before, copied, src, dst, calls);
          ok := RemoveAll(src, calls.faults);
          SourceRemoved(before, copied, tree, src, dst, calls, ok);
        }
      }
    }

    /** One turn of the loop in `transferFiles`. Unless the destination is a link whose end does not
        exist, the entry is transferred or nothing is lost; a move over such a link always loses
        something. */
    method TransferOne(root: Path, src: Path, targetDir: Path, copyMode: bool, calls: Calls) returns (r: Result)
      requires WellFormed(tree) && targetDir in tree && tree[targetDir].Dir? && root <= targetDir
      modifies this
      ensures WellFormed(tree) && targetDir in tree && tree[targetDir].Dir?
      ensures r != Done && r != FsError ==> tree == old(tree)
      ensures r == Done || r == FsError <==>
                && root <= src && src != root && src in old(tree) && src != []
                && (src == Target(src, targetDir) ||
                    (!(src <= Target(src, targetDir)) && Looked(old(tree), Target(src, targetDir), calls.stat) != Seen))
      ensures (r == OutsideRoot <==> !(root <= src)) && (r == IsRoot <==> src == root)
      ensures r == Missing <==> root <= src && src != root && src !in old(tree)
      ensures r == IntoItself <==>
                root <= src && src != root && src in old(tree) && src != [] && src <= Target(src, targetDir) && src != Target(src, targetDir)
      ensures r == FsError && !copyMode && !OverLink(old(tree), src, targetDir) && NoneStays(calls.faults) ==>
                tree == old(tree)
      ensures src != [] && src != Target(src, targetDir) && Looked(old(tree), Target(src, targetDir), calls.stat) != Absent ==>
                r != Done && tree == old(tree)
      ensures r == Done ==>
                (Transferred(old(tree), tree, src, targetDir, copyMode) <==> !OverLink(old(tree), src, targetDir))
      ensures src == [] || !OverLink(old(tree), src, targetDir) ==> Tried(old(tree), tree, src, targetDir, copyMode)
      ensures r == Done && !copyMode ==>
                (NothingLost(old(tree), tree, [src], targetDir) <==> !OverLink(old(tree), src, targetDir))
      ensures (r == Done || r == FsError) && OverLink(old(tree), src, targetDir)
              && Looked(old(tree), Target(src, targetDir), calls.stat) == Absent ==>
                if copyMode then WroteThrough(old(tree), tree, src, calls.spot, r == Done)
                else MovedOverLink(old(tree), tree, src, Target(src, targetDir), calls, r == Done)
      ensures r == Done <==> Goes(old(tree), root, src, targetDir, copyMode, calls)
    {
      hide *;
      WhenItGoes(tree, root, src, targetDir, copyMode, calls);
      ghost var before := tree;
      NothingTried(tree, src, targetDir, copyMode);
      if !(root <= src) {
        return OutsideRoot;
      }
      if src == root {
        return IsRoot;
      }
      if src !in tree {
        return Missing;
      }
      var dst := Target(src, targetDir);
      if src == dst {
        return Done;
      }
      LookUp(tree, src, dst, calls.stat);
      if IsSubPath(src, dst) {
        return IntoItself;
      }
      var stat := Looked(tree, dst, calls.stat);
      if stat == Seen {
        return Exists;
      }
      if stat == StatError {
        return FsError;
      }
      PassesGuard(tree, src, targetDir, calls.stat);
      var ok;
      if copyMode {
        if dst in tree {
          ok := CopyOverLink(src, calls.spot, calls.faults.copy(dst));
        } else {
          ghost var height := HeightExists(tree, src);
          ok := CopyPath(src, dst, calls.faults, height);
        }
        CopyTried(before, tree, src, targetDir, calls.spot, ok);
      } else {
        ok := RenameOrCopyMove(src, dst, calls);
        MoveTried(before, tree, src, targetDir, calls, ok);
      }
      r := if ok then Done else FsError;
    }

    /** `transferFiles`: the first error ends it. Unless some destination is a link whose end does not
        exist, no file or link is lost, whatever happens; and copying changes nothing that was there. */
    method TransferFiles(root: Path, ids: seq<Path>, targetDir: Path, copyMode: bool, calls: nat -> Calls)
      returns (r: Result)
      requires WellFormed(tree)
      modifies this
      ensures WellFormed(tree)
      ensures !(root <= targetDir) ==> r == OutsideRoot && tree == old(tree)
      ensures root <= targetDir && !(targetDir in old(tree) && old(tree)[targetDir].Dir?) ==>
                r == NotADir && tree == old(tree)
      ensures root <= targetDir && targetDir in old(tree) && old(tree)[targetDir].Dir? ==>
                exists trees, k :: EndsWith(root, trees, k, ids, targetDir, copyMode, calls, old(tree), tree, r)
      ensures (root <= targetDir && targetDir in old(tree) && old(tree)[targetDir].Dir?
               && AllGo(old(tree), root, ids, 0, targetDir, copyMode, calls)) ==> r == Done
      ensures Clear(old(tree), ids, targetDir, calls) ==>
                NothingLost(old(tree), tree, ids, targetDir) && (copyMode ==> Extends(old(tree), tree))
      ensures Clear(old(tree), ids, targetDir, calls) && r == Done ==>
                exists trees :: Trail(trees, ids, targetDir, copyMode) && trees[0] == old(tree) && trees[|ids|] == tree
      ensures Clear(old(tree), ids, targetDir, calls) && r != Done && tree != old(tree) ==>
                exists trees, k :: 0 <= k < |ids| && StoppedAt(trees, k, ids, targetDir, copyMode, old(tree), tree)
      ensures Clear(old(tree), ids, targetDir, calls) && r == Done && copyMode ==>
                forall id :: id in ids && id in old(tree) && id != [] && id != Target(id, targetDir) ==>
                  IsCopy(old(tree), tree, id, Target(id, targetDir))
    {
      hide *;
      ghost var before := tree;
      UnchangedIsFine(tree, targetDir);
      if !(root <= targetDir) {
        return OutsideRoot;
      }
      if targetDir !in tree || !tree[targetDir].Dir? {
        return NotADir;
      }
      ghost var trees := [tree];
      ghost var go := AllGo(tree, root, ids, 0, targetDir, copyMode, calls);
      ghost var clear := Clear(tree, ids, targetDir, calls);
      RunStarts(tree, ids, targetDir, copyMode);
      NoSteps(root, tree, ids, targetDir, copyMode, calls);
      for i := 0 to |ids|
        invariant WellFormed(tree) && targetDir in tree && tree[targetDir].Dir?
        invariant |trees| == i + 1 && trees[i] == tree && Steps(root, trees, i, ids, targetDir, copyMode, calls, before)
        invariant clear ==> RunStands(before, tree, trees, ids, i, targetDir, copyMode)
        invariant go ==> AllGo(tree, root, ids, i, targetDir, copyMode, calls)
      {
        ghost var now := tree;
        if go {
          NextGoes(tree, root, ids, i, targetDir, copyMode, calls);
        }
        r := TransferOne(root, ids[i], targetDir, copyMode, calls(i));
        if go {
          StillAllGo(root, now, tree, ids, i, targetDir, copyMode, calls);
        }
        if clear {
          NoLinkInTheWay(before, now, trees, ids, i, targetDir, copyMode, calls, r);
          NothingTried(now, ids[i], targetDir, copyMode);
          RunTries(before, now, tree, trees, ids, i, targetDir, copyMode);
          if r == Done {
            RunGoesOn(before, now, tree, trees, ids, i, targetDir, copyMode);
          }
        }
        StepIs(root, now, tree, ids[i], targetDir, copyMode, calls(i), r);
        StepNext(root, trees, i, ids, targetDir, copyMode, calls, before, tree, r);
        if r != Done {
          return;
        }
        trees := trees + [tree];
      }
      r := Done;
      AllSteps(root, trees, ids, targetDir, copyMode, calls, before);
      if clear {
        RunEnds(before, tree, trees, ids, targetDir, copyMode);
      }
    }
  }

  // ----- steps of a move -----

  lemma RenameReplaces(t: Tree, src: Path, dst: Path, calls: Calls)
    requires WellFormed(t) && src in t && Apart(src, dst) && dst != [] && calls.rename.Renames?
    requires (LinkAt(t, dst) && !t[src].Dir?) || (dst !in t && Parent(dst) in t && t[Parent(dst)].Dir?)
    ensures var u := Renamed(t - {dst}, src, dst);
            && WellFormed(u)
            && (dst !in t ==> SameElsewhere(t, u, src, dst) && Safe(t, u, src, dst) && Moved(t, u, src, dst) && IsCopy(t, u, src, dst))
            && (dst in t ==> MovedOverLink(t, u, src, dst, calls, true))
  {
    hide Renamed, WellFormed;
    if dst in t {
      ReplacesLink(t, src, dst);
    } else {
      assert t - {dst} == t;
      RenameMoves(t, src, dst);
      CopyIsSafe(t, Renamed(t, src, dst), src, dst);
    }
  }

  /** When a move goes through, case by case. */
  lemma Ways(t: Tree, src: Path, dst: Path, calls: Calls)
    requires WellFormed(t) && src in t
    ensures calls.rename.Renames? ==> (Moves(t, src, dst, calls) <==> !t[src].Dir? || dst !in t)
    ensures calls.rename.Refuses? ==> !Moves(t, src, dst, calls)
    ensures calls.rename.CrossDevice? ==>
              (Moves(t, src, dst, calls) <==> Copies(t, src, dst, calls) && RemoveFree(t, src, calls.faults))
    ensures Copies(t, src, dst, calls) <==>
              if dst in t then t[src].File? && calls.faults.copy(dst) == NoFault else CopyFree(t, src, dst, calls.faults)
  {
    hide CopyFree, RemoveFree;
    if t[src].File? {
      LeafIsFree(t, src, dst, calls.faults);
    }
  }

  /** The copy changes nothing about what there is to remove. */
  lemma SameToRemove(t: Tree, w: Tree, src: Path, dst: Path, calls: Calls)
    requires WellFormed(t) && WellFormed(w) && src in t && Apart(src, dst)
    requires if dst in t then WroteThrough(t, w, src, calls.spot, true) else SameOutside(t, w, dst)
    ensures RemoveFree(w, src, calls.faults) <==> RemoveFree(t, src, calls.faults)
  {
    if dst in t {
      hide WellFormed, SameOutside;
      LinkStays(t, w, src, dst, calls.spot, true);
      NothingBelow(t, src);
      NothingBelow(w, src);
    } else {
      BelowSourceSame(t, w, src, dst);
      forall q | src <= q
        ensures q in t <==> q in w
      {
        assert SameAt(t, w, q);
      }
    }
  }

  /** Nothing happened yet. */
  lemma Untouched(t: Tree, src: Path, dst: Path, calls: Calls)
    requires src in t && Apart(src, dst) && !(calls.rename.Renames? && (!t[src].Dir? || dst !in t))
    ensures dst !in t ==> SameElsewhere(t, t, src, dst) && Safe(t, t, src, dst) && IsCopy(t, t, src, src)
    ensures dst in t && !calls.rename.CrossDevice? ==> MovedOverLink(t, t, src, dst, calls, false)
    ensures SameOutside(t, t, dst)
  {
  }

  /** Every entry can be removed. */
  ghost predicate NoneStays(faults: Faults) {
    forall q :: !faults.remove(q)
  }

  lemma LeftAsBefore(t: Tree, w: Tree, u: Tree, dst: Path)
    requires WellFormed(t) && dst !in t && SameOutside(t, w, dst) && SameOutside(w, u, dst)
    requires Gone(u, dst)
    ensures u == t
  {
    NothingBelow(t, dst);
    forall q
      ensures SameAt(t, u, q)
    {
      assert dst <= q || (SameAt(t, w, q) && SameAt(w, u, q));
    }
    assert forall q :: SameAt(t, u, q);
    assert forall q :: q in t <==> q in u by {
      forall q
        ensures q in t <==> q in u
      {
        assert SameAt(t, u, q);
      }
    }
    forall q | q in t
      ensures t[q] == u[q]
    {
      assert SameAt(t, u, q);
    }
  }

  /** The removal of a file or link takes it away exactly when it does not refuse. */
  lemma LeafTaken(t: Tree, u: Tree, p: Path, faults: Faults, ok: bool)
    requires WellFormed(t) && p in t && !t[p].Dir? && SameOutside(t, u, p)
    requires forall q :: q in u ==> q in t && u[q] == t[q]
    requires (ok <==> Gone(u, p)) && (ok <==> RemoveFree(t, p, faults))
    ensures ok <==> !faults.remove(p)
    ensures u == (if ok then t - {p} else t)
  {
    NothingBelow(t, p);
    RemovedLeaf(t, u, p);
    assert p <= p;
  }

  lemma CleanedUp(t: Tree, w: Tree, u: Tree, src: Path, dst: Path, calls: Calls, cleaned: bool)
    requires WellFormed(t) && WellFormed(w) && src in t && Apart(src, dst) && calls.rename.CrossDevice? && (dst in t ==> LinkAt(t, dst))
    requires !Copies(t, src, dst, calls)
    requires (cleaned <==> Gone(u, dst)) && (cleaned <==> RemoveFree(w, dst, calls.faults))
    requires if dst in t then WroteThrough(t, w, src, calls.spot, false) else SameOutside(t, w, dst)
    requires SameOutside(w, u, dst) && forall q :: q in u ==> q in w && u[q] == w[q]
    ensures dst !in t ==> SameElsewhere(t, u, src, dst) && Safe(t, u, src, dst) && IsCopy(t, u, src, src)
    ensures dst !in t && NoneStays(calls.faults) ==> u == t
    ensures dst in t ==> MovedOverLink(t, u, src, dst, calls, false)
  {
    if dst in t {
      hide WellFormed, SameOutside, Copies;
      LinkStays(t, w, src, dst, calls.spot, false);
      LeafTaken(w, u, dst, calls.faults, cleaned);
    } else {
      if NoneStays(calls.faults) {
        LeftAsBefore(t, w, u, dst);
      }
      hide IsCopy, SameElsewhere, Safe, SameOutside;
      OutsideTwice(t, w, u, dst);
      SourceKept(t, u, src, dst);
      ElsewhereJoin(t, w, u, src, dst);
      CopyIsSafe(t, u, src, dst);
    }
  }

  lemma LinkStays(t: Tree, w: Tree, src: Path, dst: Path, spot: Option<Path>, ok: bool)
    requires WroteThrough(t, w, src, spot, ok)
    ensures LinkAt(t, dst) ==> LinkAt(w, dst) && w[dst] == t[dst]
    ensures src in w && w[src] == t[src]
  {
  }

  lemma CopiedSource(t: Tree, w: Tree, src: Path, dst: Path, calls: Calls)
    requires WellFormed(t) && src in t && Apart(src, dst)
    requires if dst in t then WroteThrough(t, w, src, calls.spot, true) else SameOutside(t, w, dst) && IsCopy(t, w, src, dst)
    ensures dst !in t ==> Safe(t, w, src, dst)
  {
    if dst !in t {
      CopyIsSafe(t, w, src, dst);
    }
  }

  lemma SourceRemoved(t: Tree, w: Tree, u: Tree, src: Path, dst: Path, calls: Calls, ok: bool)
    requires WellFormed(w) && src in t && Apart(src, dst) && calls.rename.CrossDevice?
    requires if dst in t then WroteThrough(t, w, src, calls.spot, true) else SameOutside(t, w, dst) && IsCopy(t, w, src, dst)
    requires SameOutside(w, u, src) && forall q :: q in u ==> q in w && u[q] == w[q]
    requires Copies(t, src, dst, calls)
    requires (ok <==> Gone(u, src)) && (ok <==> RemoveFree(w, src, calls.faults))
    ensures dst !in t ==>
              && SameElsewhere(t, u, src, dst) && Safe(t, u, src, dst) && (ok ==> Moved(t, u, src, dst)) && IsCopy(t, u, src, dst)
    ensures dst in t ==> MovedOverLink(t, u, src, dst, calls, ok)
    ensures !ok ==> !NoneStays(calls.faults)
  {
    if dst in t {
      hide WellFormed, SameOutside;
      LinkStays(t, w, src, dst, calls.spot, true);
      LeafTaken(w, u, src, calls.faults, ok);
    } else {
      hide IsCopy, SameElsewhere, Safe, SameOutside;
      CopyKept(t, w, u, src, dst);
      ElsewhereJoin(t, w, u, src, dst);
      CopyIsSafe(t, u, src, dst);
    }
  }

  // ----- steps of a transfer -----

  /** The destination is another entry's link. */
  predicate OverLink(t: Tree, src: Path, targetDir: Path) {
    src != [] && src != Target(src, targetDir) && LinkAt(t, Target(src, targetDir))
  }

  /** What a transfer to a free place leaves, whether it succeeds or not. */
  ghost predicate Tried(t: Tree, u: Tree, src: Path, targetDir: Path, copyMode: bool) {
    || u == t
    || (&& src != [] && Target(src, targetDir) !in t
        && SameElsewhere(t, u, src, Target(src, targetDir)) && Safe(t, u, src, Target(src, targetDir))
        && (copyMode ==> SameOutside(t, u, Target(src, targetDir))))
  }

  lemma NothingTried(t: Tree, src: Path, targetDir: Path, copyMode: bool)
    ensures Tried(t, t, src, targetDir, copyMode)
    ensures src != [] && src == Target(src, targetDir) ==>
              Transferred(t, t, src, targetDir, copyMode) && !OverLink(t, src, targetDir)
    ensures NothingLost(t, t, [src], targetDir)
  {
    ExtendsLosesNothing(t, t, [src], targetDir);
  }

  /** The transfer succeeds: the entry is in the root, exists and is there already, or the look-up finds the
      place free, which is not below the entry, and the copy or the move goes through. */
  ghost predicate Goes(t: Tree, root: Path, src: Path, targetDir: Path, copyMode: bool, calls: Calls) {
    && root <= src && src != root && src in t && src != []
    && var dst := Target(src, targetDir);
       || src == dst
       || (&& !(src <= dst) && calls.stat != StatError && (dst in t ==> t[dst].Link? && calls.stat == Absent)
           && (if copyMode then Copies(t, src, dst, calls) else Moves(t, src, dst, calls)))
  }

  lemma WhenItGoes(t: Tree, root: Path, src: Path, targetDir: Path, copyMode: bool, calls: Calls)
    requires WellFormed(t)
    ensures Goes(t, root, src, targetDir, copyMode, calls) <==>
              && root <= src && src != root && src in t && src != []
              && (src == Target(src, targetDir)
                  || (!(src <= Target(src, targetDir)) && Looked(t, Target(src, targetDir), calls.stat) == Absent
                      && (if copyMode then Copies(t, src, Target(src, targetDir), calls) else Moves(t, src, Target(src, targetDir), calls))))
    ensures src in t && src != [] ==>
              var dst := Target(src, targetDir);
              Copies(t, src, dst, calls) <==>
                if dst in t then t[src].File? && calls.faults.copy(dst) == NoFault else CopyFree(t, src, dst, calls.faults)
  {
    hide WellFormed, Moves;
    if src in t && src != [] {
      Ways(t, src, Target(src, targetDir), calls);
      hide Copies;
    }
  }

  lemma LookUp(t: Tree, src: Path, dst: Path, stat: StatReply)
    ensures IsSubPath(src, dst) <==> src <= dst
    ensures Looked(t, dst, stat) == StatError <==> stat == StatError
  {
  }

  lemma PassesGuard(t: Tree, src: Path, targetDir: Path, stat: StatReply)
    requires WellFormed(t) && src in t && src != [] && targetDir in t && t[targetDir].Dir?
    requires !(src <= Target(src, targetDir)) && Looked(t, Target(src, targetDir), stat) == Absent
    ensures var dst := Target(src, targetDir);
            && dst != [] && Parent(dst) == targetDir && Apart(src, dst) && (dst in t <==> OverLink(t, src, targetDir))
            && (dst in t ==> LinkAt(t, dst))
  {
    var dst := Target(src, targetDir);
    if dst in t {
      LinkIsApart(t, src, dst);
    } else {
      GuardedIsApart(t, src, dst);
    }
  }

  lemma CopyTried(t: Tree, u: Tree, src: Path, targetDir: Path, spot: Option<Path>, ok: bool)
    requires WellFormed(t) && src in t && src != [] && targetDir in t && t[targetDir].Dir? && Apart(src, Target(src, targetDir))
    requires if Target(src, targetDir) in t then WroteThrough(t, u, src, spot, ok)
             else SameOutside(t, u, Target(src, targetDir)) && (ok ==> IsCopy(t, u, src, Target(src, targetDir)))
    ensures targetDir in u && u[targetDir].Dir?
    ensures Target(src, targetDir) !in t ==>
              Tried(t, u, src, targetDir, true) && (ok ==> Transferred(t, u, src, targetDir, true))
    ensures Target(src, targetDir) in t ==> !Transferred(t, u, src, targetDir, true)
  {
    var dst := Target(src, targetDir);
    NotItself(src, targetDir);
    if dst in t {
      LinkStays(t, u, src, dst, spot, ok);
      ThroughDir(t, u, src, spot, ok, targetDir);
    } else {
      SourceKept(t, u, src, dst);
      CopyIsSafe(t, u, src, dst);
      AlsoElsewhere(t, u, src, dst);
      assert |dst| == |targetDir| + 1 && SameAt(t, u, targetDir);
    }
  }

  lemma AboveDir(src: Path, targetDir: Path, dst: Path)
    requires targetDir <= dst
    ensures src <= targetDir ==> src <= dst
  {
  }

  lemma NotItself(src: Path, targetDir: Path)
    requires src != [] && Apart(src, Target(src, targetDir))
    ensures src != Target(src, targetDir) && !(src <= targetDir) && Target(src, targetDir) != targetDir
  {
    AboveDir(src, targetDir, Target(src, targetDir));
    assert |Target(src, targetDir)| == |targetDir| + 1;
  }

  lemma ThroughDir(t: Tree, u: Tree, src: Path, spot: Option<Path>, ok: bool, p: Path)
    requires WroteThrough(t, u, src, spot, ok) && p in t
    ensures p in u && u[p] == t[p]
  {
  }

  lemma MoveTried(t: Tree, u: Tree, src: Path, targetDir: Path, calls: Calls, ok: bool)
    requires WellFormed(t) && src in t && src != [] && targetDir in t && t[targetDir].Dir? && Apart(src, Target(src, targetDir))
    requires Target(src, targetDir) in t ==>
               LinkAt(t, Target(src, targetDir)) && MovedOverLink(t, u, src, Target(src, targetDir), calls, ok)
    requires Target(src, targetDir) !in t ==>
               && SameElsewhere(t, u, src, Target(src, targetDir)) && Safe(t, u, src, Target(src, targetDir))
               && (ok ==> Moved(t, u, src, Target(src, targetDir)))
    ensures targetDir in u && u[targetDir].Dir?
    ensures Target(src, targetDir) !in t ==>
              && Tried(t, u, src, targetDir, false) && (ok ==> Transferred(t, u, src, targetDir, false))
              && NothingLost(t, u, [src], targetDir)
    ensures Target(src, targetDir) in t && ok ==>
              !Transferred(t, u, src, targetDir, false) && !NothingLost(t, u, [src], targetDir)
  {
    hide Renamed, Safe, NothingLost, WellFormed;
    var dst := Target(src, targetDir);
    NotItself(src, targetDir);
    if dst in t {
      DirStaysOverLink(t, u, src, dst, calls, ok, targetDir);
      if ok {
        OverLinkLoses(t, u, src, targetDir, calls);
      }
    } else {
      SafeLosesNothing(t, u, src, targetDir);
      TargetDirStays(t, u, src, dst, targetDir);
      MovedIsCopy(t, u, src, dst);
    }
  }

  lemma DirStaysOverLink(t: Tree, u: Tree, src: Path, dst: Path, calls: Calls, ok: bool, p: Path)
    requires WellFormed(t) && src in t && LinkAt(t, dst) && MovedOverLink(t, u, src, dst, calls, ok) && dst != []
    requires p in t && !(src <= p) && p != dst && p < dst
    ensures p in u && u[p] == t[p]
  {
    hide Renamed, WellFormed;
    if calls.rename.Renames? && !t[src].Dir? {
      ReplacesLink(t, src, dst);
      assert SameAt(t, u, p);
    } else if calls.rename.CrossDevice? {
      var w, copied :|
        && WroteThrough(t, w, src, calls.spot, copied) && (copied <==> Copies(t, src, dst, calls))
        && (ok <==> copied && !calls.faults.remove(src))
        && u == (if copied then if ok then w - {src} else w else if calls.faults.remove(dst) then w else w - {dst});
      ThroughDir(t, w, src, calls.spot, copied, p);
    }
  }

  /** What one transfer does, whatever is at its destination. */
  ghost predicate StepOf(t: Tree, u: Tree, src: Path, targetDir: Path, copyMode: bool, calls: Calls, done: bool) {
    if src != [] && OverLink(t, src, targetDir) && Looked(t, Target(src, targetDir), calls.stat) == Absent then
      || (u == t && !done)
      || (if copyMode then WroteThrough(t, u, src, calls.spot, done)
          else MovedOverLink(t, u, src, Target(src, targetDir), calls, done))
    else Tried(t, u, src, targetDir, copyMode) && (done ==> Transferred(t, u, src, targetDir, copyMode))
  }

  lemma StepIs(root: Path, t: Tree, u: Tree, src: Path, targetDir: Path, copyMode: bool, calls: Calls, r: Result)
    requires r != Done && r != FsError ==> u == t
    requires src != [] && src != Target(src, targetDir) && Looked(t, Target(src, targetDir), calls.stat) != Absent ==>
               r != Done && u == t
    requires r == Done ==> (Transferred(t, u, src, targetDir, copyMode) <==> !OverLink(t, src, targetDir))
    requires src == [] || !OverLink(t, src, targetDir) ==> Tried(t, u, src, targetDir, copyMode)
    requires src != [] && (r == Done || r == FsError) && OverLink(t, src, targetDir)
             && Looked(t, Target(src, targetDir), calls.stat) == Absent ==>
               if copyMode then WroteThrough(t, u, src, calls.spot, r == Done)
               else MovedOverLink(t, u, src, Target(src, targetDir), calls, r == Done)
    requires r == Done <==> Goes(t, root, src, targetDir, copyMode, calls)
    requires r == FsError && !copyMode && !OverLink(t, src, targetDir) && NoneStays(calls.faults) ==> u == t
    ensures StepTaken(root, t, u, src, targetDir, copyMode, calls, r == Done)
  {
    hide Goes, NoneStays, Transferred, WroteThrough, MovedOverLink;
    NothingTried(t, src, targetDir, copyMode);
  }

  // ----- requests of separate entries -----

  /** The transfer succeeds, and its destination is the entry itself or free. */
  ghost predicate GoesFree(t: Tree, root: Path, src: Path, targetDir: Path, copyMode: bool, calls: Calls) {
    && Goes(t, root, src, targetDir, copyMode, calls)
    && (src == Target(src, targetDir) || Target(src, targetDir) !in t)
  }

  /** Neither entry is in the other, and their names differ. */
  ghost predicate Separate(a: Path, b: Path) {
    Apart(a, b) && !SameName(a, b)
  }

  /** From the i-th on, each transfer by itself would succeed now, and the entries are separate. */
  ghost predicate AllGo(t: Tree, root: Path, ids: seq<Path>, i: nat, targetDir: Path, copyMode: bool, calls: nat -> Calls) {
    && (forall j: nat :: i <= j < |ids| ==> GoesFree(t, root, ids[j], targetDir, copyMode, calls(j)))
    && (forall j, k :: i <= j < k < |ids| ==> Separate(ids[j], ids[k]))
  }

  lemma TransferStaysAway(u: Tree, v: Tree, src: Path, targetDir: Path, copyMode: bool, id: Path, q: Path)
    requires WellFormed(u) && Transferred(u, v, src, targetDir, copyMode) && src in u && id in u && Separate(src, id)
    requires id != [] && (id == Target(id, targetDir) || (!(id <= Target(id, targetDir)) && Target(id, targetDir) !in u))
    requires id <= q || q == Target(id, targetDir)
    ensures SameAt(u, v, q)
  {
    var dst, other := Target(src, targetDir), Target(id, targetDir);
    if src != dst {
      StartsAway(src, targetDir, id, q);
      EndsAway(u, src, targetDir, id, q);
    }
  }

  lemma StartsAway(src: Path, targetDir: Path, id: Path, q: Path)
    requires src != [] && id != [] && Apart(src, Target(src, targetDir)) && Separate(src, id)
    requires id <= q || q == Target(id, targetDir)
    ensures !(src <= q)
  {
    AboveDir(src, targetDir, Target(src, targetDir));
    if src <= q && id <= q {
      Comparable(src, id, q);
    }
  }

  lemma EndsAway(u: Tree, src: Path, targetDir: Path, id: Path, q: Path)
    requires WellFormed(u) && src != [] && Target(src, targetDir) !in u && id in u && Separate(src, id)
    requires id != [] && (id == Target(id, targetDir) || !(id <= Target(id, targetDir)))
    requires id <= q || q == Target(id, targetDir)
    ensures !(Target(src, targetDir) <= q)
  {
    var dst, other := Target(src, targetDir), Target(id, targetDir);
    AboveDir(id, targetDir, other);
    assert |dst| == |other| && dst[|targetDir|] != other[|targetDir|];
    NothingBelow(u, dst);
    if dst <= q && id <= q {
      Comparable(dst, id, q);
    }
  }

  lemma FreeAlike(u: Tree, v: Tree, src: Path, dst: Path, faults: Faults)
    requires forall q :: src <= q ==> SameAt(u, v, q)
    ensures CopyFree(u, src, dst, faults) <==> CopyFree(v, src, dst, faults)
    ensures RemoveFree(u, src, faults) <==> RemoveFree(v, src, faults)
  {
    forall s
      ensures Has(u, src, s) <==> Has(v, src, s)
    {
      assert src <= src + s && SameAt(u, v, src + s);
    }
    forall q | src <= q
      ensures q in u <==> q in v
    {
      assert SameAt(u, v, q);
    }
  }

  lemma StillGoes(root: Path, u: Tree, v: Tree, src: Path, targetDir: Path, copyMode: bool, id: Path, calls: Calls)
    requires WellFormed(u) && Transferred(u, v, src, targetDir, copyMode) && src in u && Separate(src, id)
    requires GoesFree(u, root, id, targetDir, copyMode, calls)
    ensures GoesFree(v, root, id, targetDir, copyMode, calls)
  {
    forall q | id <= q || q == Target(id, targetDir)
      ensures SameAt(u, v, q)
    {
      TransferStaysAway(u, v, src, targetDir, copyMode, id, q);
    }
    hide WellFormed, Transferred, Separate;
    assert SameAt(u, v, id) && SameAt(u, v, Target(id, targetDir));
    FreeAlike(u, v, id, Target(id, targetDir), calls.faults);
  }

  lemma StillAllGo(root: Path, u: Tree, v: Tree, ids: seq<Path>, i: nat, targetDir: Path, copyMode: bool,
                   calls: nat -> Calls)
    requires i < |ids| && AllGo(u, root, ids, i, targetDir, copyMode, calls)
    requires WellFormed(u) && ids[i] in u && Transferred(u, v, ids[i], targetDir, copyMode)
    ensures AllGo(v, root, ids, i + 1, targetDir, copyMode, calls)
  {
    hide WellFormed, Transferred, Separate, GoesFree;
    forall j: nat | i + 1 <= j < |ids|
      ensures GoesFree(v, root, ids[j], targetDir, copyMode, calls(j))
    {
      StillGoes(root, u, v, ids[i], targetDir, copyMode, ids[j], calls(j));
    }
  }

  lemma NextGoes(t: Tree, root: Path, ids: seq<Path>, i: nat, targetDir: Path, copyMode: bool, calls: nat -> Calls)
    requires i < |ids| && AllGo(t, root, ids, i, targetDir, copyMode, calls)
    ensures Goes(t, root, ids[i], targetDir, copyMode, calls(i)) && ids[i] in t && !OverLink(t, ids[i], targetDir)
  {
  }

  // ----- steps of a request -----

  /** One transfer that succeeds exactly where nothing stands in its way. */
  ghost predicate StepTaken(root: Path, t: Tree, u: Tree, src: Path, targetDir: Path, copyMode: bool, calls: Calls, done: bool) {
    && StepOf(t, u, src, targetDir, copyMode, calls, done) && (done <==> Goes(t, root, src, targetDir, copyMode, calls))
    && (!done && !copyMode && !OverLink(t, src, targetDir) && NoneStays(calls.faults) ==> u == t)
  }

  /** The trees after each of the first k transfers, which were done. */
  ghost predicate Steps(root: Path, trees: seq<Tree>, k: nat, ids: seq<Path>, targetDir: Path, copyMode: bool, calls: nat -> Calls, t: Tree) {
    && k <= |ids| && |trees| == k + 1 && trees[0] == t
    && forall j: nat :: j < k ==> StepTaken(root, trees[j], trees[j + 1], ids[j], targetDir, copyMode, calls(j), true)
  }

  /** The request did the first k transfers, and unless these were all it tried one more. */
  ghost predicate EndsWith(root: Path, trees: seq<Tree>, k: nat, ids: seq<Path>, targetDir: Path, copyMode: bool,
                           calls: nat -> Calls, t: Tree, u: Tree, r: Result)
  {
    && Steps(root, trees, k, ids, targetDir, copyMode, calls, t)
    && if r == Done then k == |ids| && trees[k] == u
       else k < |ids| && StepTaken(root, trees[k], u, ids[k], targetDir, copyMode, calls(k), false)
  }

  lemma NoSteps(root: Path, t: Tree, ids: seq<Path>, targetDir: Path, copyMode: bool, calls: nat -> Calls)
    ensures Steps(root, [t], 0, ids, targetDir, copyMode, calls, t)
  {
  }

  lemma StepNext(root: Path, trees: seq<Tree>, k: nat, ids: seq<Path>, targetDir: Path, copyMode: bool,
                 calls: nat -> Calls, t: Tree, u: Tree, r: Result)
    requires Steps(root, trees, k, ids, targetDir, copyMode, calls, t) && k < |ids|
    requires StepTaken(root, trees[k], u, ids[k], targetDir, copyMode, calls(k), r == Done)
    ensures r == Done ==> Steps(root, trees + [u], k + 1, ids, targetDir, copyMode, calls, t)
    ensures r != Done ==> EndsWith(root, trees, k, ids, targetDir, copyMode, calls, t, u, r)
  {
    hide StepTaken;
    var more := trees + [u];
    forall j: nat | j < k + 1 && r == Done
      ensures StepTaken(root, more[j], more[j + 1], ids[j], targetDir, copyMode, calls(j), true)
    {
      if j < k {
        assert StepTaken(root, trees[j], trees[j + 1], ids[j], targetDir, copyMode, calls(j), true);
      }
    }
  }

  lemma AllSteps(root: Path, trees: seq<Tree>, ids: seq<Path>, targetDir: Path, copyMode: bool, calls: nat -> Calls,
                 t: Tree)
    requires Steps(root, trees, |ids|, ids, targetDir, copyMode, calls, t)
    ensures EndsWith(root, trees, |ids|, ids, targetDir, copyMode, calls, t, trees[|ids|], Done)
  {
  }

  predicate SameName(a: Path, b: Path) {
    a != [] && b != [] && a[|a| - 1] == b[|b| - 1]
  }

  /** No destination is a link whose end does not exist: neither one that is there at the start, nor
      one that an earlier transfer put there. */
  ghost predicate Clear(t: Tree, ids: seq<Path>, targetDir: Path, calls: nat -> Calls) {
    forall i: nat :: i < |ids| && calls(i).stat == Absent ==>
      !OverLink(t, ids[i], targetDir) && forall j :: 0 <= j < i ==> !SameName(ids[j], ids[i])
  }

  /** Before transfer k all were done; it was tried last. */
  ghost predicate StoppedAt(trees: seq<Tree>, k: nat, ids: seq<Path>, targetDir: Path, copyMode: bool, t: Tree, u: Tree)
    requires k < |ids|
  {
    && |trees| == k + 1 && trees[0] == t && Trail(trees, ids[..k], targetDir, copyMode)
    && Tried(trees[k], u, ids[k], targetDir, copyMode)
  }

  /** A link in the target directory was there at the start, or has the name of a transferred entry. */
  ghost predicate LinksAreOld(t: Tree, u: Tree, ids: seq<Path>, i: nat, targetDir: Path)
    requires i <= |ids|
  {
    forall id: Path :: OverLink(u, id, targetDir) ==>
      OverLink(t, id, targetDir) || exists j :: 0 <= j < i && SameName(ids[j], id)
  }

  /** The invariant of a request, after i transfers. */
  ghost predicate RunStands(t: Tree, u: Tree, trees: seq<Tree>, ids: seq<Path>, i: nat, targetDir: Path, copyMode: bool) {
    && i <= |ids| && |trees| == i + 1 && trees[0] == t && trees[i] == u
    && WellFormed(t) && Trail(trees, ids[..i], targetDir, copyMode)
    && NothingLost(t, u, ids[..i], targetDir) && LinksAreOld(t, u, ids, i, targetDir)
    && (copyMode ==> CopiesIn(t, u, ids[..i], targetDir))
  }

  lemma RunStarts(t: Tree, ids: seq<Path>, targetDir: Path, copyMode: bool)
    requires WellFormed(t)
    ensures RunStands(t, t, [t], ids, 0, targetDir, copyMode)
  {
    assert ids[..0] == [];
    UnchangedIsFine(t, targetDir);
    NoCopiesYet(t, t, targetDir);
  }

  lemma NoLinkInTheWay(t: Tree, u: Tree, trees: seq<Tree>, ids: seq<Path>, i: nat, targetDir: Path, copyMode: bool,
                       calls: nat -> Calls, r: Result)
    requires RunStands(t, u, trees, ids, i, targetDir, copyMode) && i < |ids| && Clear(t, ids, targetDir, calls)
    requires r == Done ==>
               ids[i] != [] && (ids[i] == Target(ids[i], targetDir) || Looked(u, Target(ids[i], targetDir), calls(i).stat) == Absent)
    ensures OverLink(u, ids[i], targetDir) ==>
              && r != Done && ids[i] != [] && ids[i] != Target(ids[i], targetDir)
              && Looked(u, Target(ids[i], targetDir), calls(i).stat) != Absent
  {
    hide Trail, NothingLost, CopiesIn, WellFormed;
  }

  lemma {:induction false} GoesToMore(ids: seq<Path>, more: seq<Path>, targetDir: Path, p: Path, q: Path)
    requires GoesTo(ids, targetDir, p, q)
    ensures GoesTo(ids + more, targetDir, p, q)
  {
    if more == [] {
      assert ids + more == ids;
    } else {
      var init, last := more[..|more| - 1], more[|more| - 1];
      GoesToMore(ids, init, targetDir, p, q);
      GoesToNext(ids + init, last, targetDir, p, q, q);
      assert ids + init + [last] == ids + more;
    }
  }

  lemma LosesNothingOfAll(t: Tree, u: Tree, ids: seq<Path>, i: nat, targetDir: Path)
    requires i <= |ids| && NothingLost(t, u, ids[..i], targetDir)
    ensures NothingLost(t, u, ids, targetDir)
  {
    var place :| Relocates(place, t, u) && forall p :: p in place ==> GoesTo(ids[..i], targetDir, p, place[p]);
    forall p | p in place
      ensures GoesTo(ids, targetDir, p, place[p])
    {
      GoesToMore(ids[..i], ids[i..], targetDir, p, place[p]);
      assert ids[..i] + ids[i..] == ids;
    }
  }

  lemma TriedLosesNothing(t: Tree, u: Tree, src: Path, targetDir: Path, copyMode: bool)
    requires WellFormed(t) && Tried(t, u, src, targetDir, copyMode)
    ensures NothingLost(t, u, [src], targetDir) && (copyMode ==> Extends(t, u))
  {
    hide SameElsewhere, Safe, WellFormed, NothingLost, SameOutside, Extends;
    if u == t {
      UnchangedIsFine(t, targetDir);
      assert NothingLost(t, t, [src], targetDir);
    } else {
      SafeLosesNothing(t, u, src, targetDir);
      if copyMode {
        CopyExtends(t, u, Target(src, targetDir));
      }
    }
  }

  /** Whether it succeeds or not, one more transfer loses nothing. */
  lemma RunTries(t: Tree, u: Tree, v: Tree, trees: seq<Tree>, ids: seq<Path>, i: nat, targetDir: Path, copyMode: bool)
    requires RunStands(t, u, trees, ids, i, targetDir, copyMode) && i < |ids| && WellFormed(u)
    requires Tried(u, v, ids[i], targetDir, copyMode)
    ensures NothingLost(t, v, ids[..i + 1], targetDir) && NothingLost(t, v, ids, targetDir)
    ensures copyMode ==> Extends(t, v)
    ensures StoppedAt(trees, i, ids, targetDir, copyMode, t, v)
  {
    hide Tried, NothingLost, WellFormed, LinksAreOld, Trail;
    TriedLosesNothing(u, v, ids[i], targetDir, copyMode);
    LosesNothingJoin(t, u, v, ids[..i], ids[i], targetDir);
    assert ids[..i + 1] == ids[..i] + [ids[i]];
    LosesNothingOfAll(t, v, ids, i + 1, targetDir);
    if copyMode {
      ExtendsJoin(t, u, v);
    }
  }

  lemma RunGoesOn(t: Tree, u: Tree, v: Tree, trees: seq<Tree>, ids: seq<Path>, i: nat, targetDir: Path, copyMode: bool)
    requires RunStands(t, u, trees, ids, i, targetDir, copyMode) && i < |ids|
    requires Transferred(u, v, ids[i], targetDir, copyMode)
    requires NothingLost(t, v, ids[..i + 1], targetDir) && (copyMode ==> Extends(t, v))
    ensures RunStands(t, v, trees + [v], ids, i + 1, targetDir, copyMode)
  {
    hide NothingLost, WellFormed, LinksAreOld, Trail, Extends, CopiesIn, Transferred;
    assert ids[..i + 1] == ids[..i] + [ids[i]];
    TrailNext(trees, ids[..i], targetDir, copyMode, ids[i], v);
    LinksStayOld(t, u, v, ids, i, targetDir, copyMode);
    if copyMode {
      TransferredCopy(u, v, ids[i], targetDir);
      OneMoreCopy(t, u, v, ids[..i], ids[i], targetDir);
    }
  }

  lemma TransferredCopy(u: Tree, v: Tree, id: Path, targetDir: Path)
    requires Transferred(u, v, id, targetDir, true)
    ensures id != []
    ensures if id == Target(id, targetDir) then v == u
            else Apart(id, Target(id, targetDir)) && Target(id, targetDir) !in u && IsCopy(u, v, id, Target(id, targetDir))
                 && SameOutside(u, v, Target(id, targetDir))
  {
  }

  lemma LinksStayOld(t: Tree, u: Tree, v: Tree, ids: seq<Path>, i: nat, targetDir: Path, copyMode: bool)
    requires i < |ids| && LinksAreOld(t, u, ids, i, targetDir) && Transferred(u, v, ids[i], targetDir, copyMode)
    ensures LinksAreOld(t, v, ids, i + 1, targetDir)
  {
    forall id: Path | OverLink(v, id, targetDir) && !OverLink(t, id, targetDir)
      ensures exists j :: 0 <= j < i + 1 && SameName(ids[j], id)
    {
      if !SameName(ids[i], id) {
        OtherEntryStays(u, v, ids[i], targetDir, copyMode, id);
        var j :| 0 <= j < i && SameName(ids[j], id);
      }
    }
  }

  lemma OtherEntryStays(u: Tree, v: Tree, src: Path, targetDir: Path, copyMode: bool, id: Path)
    requires Transferred(u, v, src, targetDir, copyMode) && OverLink(v, id, targetDir) && !SameName(src, id)
    ensures OverLink(u, id, targetDir)
  {
    var dst, other := Target(src, targetDir), Target(id, targetDir);
    assert |dst| == |other| && dst[|targetDir|] != other[|targetDir|];
    assert !(dst <= other);
    if src != dst {
      assert !(src <= other) || copyMode;
      assert SameAt(u, v, other);
    }
  }

  lemma RunEnds(t: Tree, u: Tree, trees: seq<Tree>, ids: seq<Path>, targetDir: Path, copyMode: bool)
    requires RunStands(t, u, trees, ids, |ids|, targetDir, copyMode)
    ensures NothingLost(t, u, ids, targetDir) && (copyMode ==> Extends(t, u))
    ensures Trail(trees, ids, targetDir, copyMode) && trees[0] == t && trees[|ids|] == u
    ensures copyMode ==>
              forall id :: id in ids && id in t && id != [] && id != Target(id, targetDir) ==> IsCopy(t, u, id, Target(id, targetDir))
  {
    hide NothingLost, WellFormed, LinksAreOld, Trail, IsCopy;
    assert ids[..|ids|] == ids;
    if copyMode {
      CopiesAre(t, u, ids, targetDir);
    }
  }

  /** The trees differ at most below new entries of the target directory. */
  ghost predicate OnlyNew(t: Tree, u: Tree, targetDir: Path) {
    forall q :: SameAt(t, u, q) || (targetDir <= q && |q| > |targetDir| && targetDir + [q[|targetDir|]] !in t)
  }

  ghost predicate CopiedTo(t: Tree, u: Tree, id: Path, targetDir: Path) {
    id in t && id != [] && id != Target(id, targetDir) ==> Target(id, targetDir) in u && IsCopy(t, u, id, Target(id, targetDir))
  }

  /** Each entry transferred so far that was there at the start is copied as it was then. */
  ghost predicate CopiesIn(t: Tree, u: Tree, ids: seq<Path>, targetDir: Path) {
    && Extends(t, u) && OnlyNew(t, u, targetDir)
    && forall id :: id in ids ==> CopiedTo(t, u, id, targetDir)
  }

  lemma NoCopiesYet(t: Tree, u: Tree, targetDir: Path)
    requires t == u
    ensures CopiesIn(t, u, [], targetDir)
  {
    assert forall q :: SameAt(t, u, q);
  }

  lemma CopiesAre(t: Tree, u: Tree, ids: seq<Path>, targetDir: Path)
    requires CopiesIn(t, u, ids, targetDir)
    ensures forall id :: id in ids && id in t && id != [] && id != Target(id, targetDir) ==>
              IsCopy(t, u, id, Target(id, targetDir))
  {
    forall id | id in ids && id in t && id != [] && id != Target(id, targetDir)
      ensures IsCopy(t, u, id, Target(id, targetDir))
    {
      assert CopiedTo(t, u, id, targetDir);
    }
  }

  /** A new entry of the target directory is not above an entry that was there; so it is below it. */
  lemma NewIsElsewhere(t: Tree, id: Path, targetDir: Path, q: Path)
    requires WellFormed(t) && id in t && id <= q && targetDir <= q && |q| > |targetDir|
    requires targetDir + [q[|targetDir|]] !in t
    ensures id <= targetDir
  {
    var e := q[|targetDir|];
    var d := targetDir + [e];
    assert q == targetDir + q[|targetDir|..];
    Comparable(id, d, q);
    if d <= id {
      Ancestors(t, d, id);
    } else {
      Shorter(id, targetDir, e);
    }
  }

  /** What was there at the start and is being copied has not been added to meanwhile. */
  lemma StillAsAtStart(t: Tree, u: Tree, id: Path, targetDir: Path)
    requires WellFormed(t) && id in t && OnlyNew(t, u, targetDir) && !(id <= targetDir)
    ensures IsCopy(t, u, id, id)
  {
    forall s
      ensures SameAt(t, u, id + s)
    {
      var q := id + s;
      assert SameAt(t, u, q) || (targetDir <= q && |q| > |targetDir| && targetDir + [q[|targetDir|]] !in t);
      if targetDir <= q && |q| > |targetDir| && targetDir + [q[|targetDir|]] !in t {
        NewIsElsewhere(t, id, targetDir, q);
      }
    }
    forall s
      ensures (Has(u, id, s) <==> Has(t, id, s)) && (Has(u, id, s) && Has(t, id, s) ==> At(u, id, s) == At(t, id, s))
    {
      assert SameAt(t, u, id + s);
    }
  }

  lemma Shorter(id: Path, dir: Path, e: string)
    requires id <= dir + [e] && id != dir + [e]
    ensures id <= dir
  {
    assert id == (dir + [e])[..|id|];
  }

  lemma OneMoreCopy(t: Tree, u: Tree, v: Tree, done: seq<Path>, id: Path, targetDir: Path)
    requires WellFormed(t) && CopiesIn(t, u, done, targetDir) && Extends(t, v) && id != []
    requires if id == Target(id, targetDir) then v == u
             else Apart(id, Target(id, targetDir)) && Target(id, targetDir) !in u && IsCopy(u, v, id, Target(id, targetDir))
                  && SameOutside(u, v, Target(id, targetDir))
    ensures CopiesIn(t, v, done + [id], targetDir)
  {
    if id != Target(id, targetDir) {
      hide IsCopy, WellFormed;
      var dst := Target(id, targetDir);
      NewStaysNew(t, u, v, targetDir, id[|id| - 1]);
      forall x | x in done
        ensures CopiedTo(t, v, x, targetDir)
      {
        assert CopiedTo(t, u, x, targetDir);
        EarlierCopyStays(t, u, v, x, dst, targetDir, id[|id| - 1]);
      }
      NewCopy(t, u, v, id, targetDir);
    } else {
      assert forall x :: x in done ==> CopiedTo(t, u, x, targetDir);
    }
  }

  lemma CopyHasTop(t: Tree, u: Tree, src: Path, dst: Path)
    requires src in t && IsCopy(t, u, src, dst)
    ensures dst in u
  {
    assert src + [] == src && dst + [] == dst;
    assert Has(t, src, []) && Has(u, dst, []);
  }

  lemma NewCopy(t: Tree, u: Tree, v: Tree, id: Path, targetDir: Path)
    requires WellFormed(t) && OnlyNew(t, u, targetDir) && id != [] && Apart(id, Target(id, targetDir))
    requires IsCopy(u, v, id, Target(id, targetDir))
    ensures CopiedTo(t, v, id, targetDir)
  {
    if id in t {
      hide IsCopy, WellFormed, OnlyNew;
      var dst := Target(id, targetDir);
      NotItself(id, targetDir);
      StillAsAtStart(t, u, id, targetDir);
      CopyThrough(t, u, v, id, id, dst);
      CopyHasTop(t, v, id, dst);
    }
  }

  lemma NewStaysNew(t: Tree, u: Tree, v: Tree, targetDir: Path, e: string)
    requires OnlyNew(t, u, targetDir) && Extends(t, u) && targetDir + [e] !in u && SameOutside(u, v, targetDir + [e])
    ensures OnlyNew(t, v, targetDir)
  {
    var dst := targetDir + [e];
    forall q
      ensures SameAt(t, v, q) || (targetDir <= q && |q| > |targetDir| && targetDir + [q[|targetDir|]] !in t)
    {
      assert SameAt(t, u, q) || (targetDir <= q && |q| > |targetDir| && targetDir + [q[|targetDir|]] !in t);
      if dst <= q {
        Prefixes(targetDir, dst, q);
        assert q[|targetDir|] == dst[|targetDir|] == e;
      } else {
        assert SameAt(u, v, q);
      }
    }
  }

  lemma EarlierCopyStays(t: Tree, u: Tree, v: Tree, x: Path, dst: Path, targetDir: Path, e: string)
    requires CopiedTo(t, u, x, targetDir) && dst == targetDir + [e] && dst !in u && SameOutside(u, v, dst)
    ensures CopiedTo(t, v, x, targetDir)
  {
    if x in t && x != [] && x != Target(x, targetDir) {
      var other := Target(x, targetDir);
      assert other in u && other != dst && |other| == |dst|;
      assert Apart(other, dst);
      SourceKept(u, v, other, dst);
      CopyThrough(t, u, v, x, other, other);
    }
  }

  lemma AlsoElsewhere(t: Tree, u: Tree, src: Path, dst: Path)
    requires SameOutside(t, u, dst)
    ensures SameElsewhere(t, u, src, dst)
  {
  }

  lemma MovedIsCopy(t: Tree, u: Tree, src: Path, dst: Path)
    ensures Moved(t, u, src, dst) ==> IsCopy(t, u, src, dst)
  {
  }

  lemma OutsideTwice(t: Tree, u: Tree, v: Tree, base: Path)
    requires SameOutside(t, u, base) && SameOutside(u, v, base)
    ensures SameOutside(t, v, base)
  {
    OutsideJoin(t, u, v, base, base);
  }

  lemma SameAsBefore(t: Tree, base: Path)
    ensures SameOutside(t, t, base)
  {
  }

  lemma SameNames(t: Tree, u: Tree, src: Path, dst: Path)
    requires SameOutside(t, u, dst) && Apart(src, dst)
    ensures Names(u, src) == Names(t, src)
  {
    forall e: string
      ensures src + [e] in t <==> src + [e] in u
    {
      Disjoint(src, dst, src + [e]);
      assert SameAt(t, u, src + [e]);
    }
  }

  lemma NotYetThere(t: Tree, u: Tree, src: Path, dst: Path, rest: set<string>, e: string)
    requires SameOutside(t, u, dst) && Apart(src, dst) && Partly(t, u, src, dst, rest) && e in rest && e in Names(t, src)
    ensures src + [e] in u && dst + [e] !in u && dst + [e] != [] && Parent(dst + [e]) == dst
  {
    Disjoint(src, dst, src + [e]);
    assert SameAt(t, u, src + [e]);
    assert [e][0] == e && !Has(u, dst, [e]);
  }

  /** A copy of the entry as it is now is a copy of it as it was before. */
  lemma EntryFromBefore(t: Tree, u: Tree, v: Tree, src: Path, dst: Path, e: string)
    requires SameOutside(t, u, dst) && Apart(src, dst) && IsCopy(u, v, src + [e], dst + [e])
    ensures IsCopy(t, v, src + [e], dst + [e])
  {
    assert IsCopy(t, u, src + [e], src + [e]) by {
      forall s
        ensures (Has(u, src + [e], s) <==> Has(t, src + [e], s))
        ensures Has(u, src + [e], s) && Has(t, src + [e], s) ==> At(u, src + [e], s) == At(t, src + [e], s)
      {
        assert src <= src + [e] + s;
        Disjoint(src, dst, src + [e] + s);
        assert SameAt(t, u, src + [e] + s);
      }
    }
    CopyThrough(t, u, v, src + [e], src + [e], dst + [e]);
  }

  // ----- what a link at the destination does -----

  /** A file at ["a"], and a link of that name in the directory ["d"]. */
  function SampleTree(): Tree {
    map[[] := Dir, ["a"] := File([1]), ["d"] := Dir, ["d", "a"] := Link("gone")]
  }

  lemma SampleIsWellFormed()
    ensures WellFormed(SampleTree()) && OverLink(SampleTree(), ["a"], ["d"]) && Target(["a"], ["d"]) == ["d", "a"]
  {
    assert Target(["a"], ["d"]) == ["d", "a"];
    assert Parent(["a"]) == [] && Parent(["d"]) == [] && Parent(["d", "a"]) == ["d"];
  }

  /** Moving the file onto the link, whose end does not exist, succeeds and loses the link. */
  method LinkIsReplaced() returns (before: Tree, after: Tree, r: Result)
    ensures before == SampleTree() && r == Done
    ensures ["d", "a"] in after && after[["d", "a"]] == File([1]) && ["a"] !in after
    ensures !NothingLost(before, after, [["a"]], ["d"])
  {
    hide Renamed, NothingLost, WellFormed;
    SampleIsWellFormed();
    before := SampleTree();
    var fs := new FileSystem(before);
    var calls := Calls(Absent, Renames, None, Faults(_ => NoFault, _ => false));
    r := fs.TransferOne([], ["a"], ["d"], false, calls);
    after := fs.tree;
    ReplacesLink(before, ["a"], ["d", "a"]);
  }

  /** Copying the file onto the link, whose end does not exist, succeeds and leaves the link: the
      copy is where the link leads. */
  method CopyGoesWhereLinkLeads() returns (before: Tree, after: Tree, r: Result)
    ensures before == SampleTree() && r == Done
    ensures after == before[["b"] := File([1])] && !IsCopy(before, after, ["a"], ["d", "a"])
  {
    hide NothingLost, WellFormed;
    SampleIsWellFormed();
    before := SampleTree();
    var fs := new FileSystem(before);
    var calls := Calls(Absent, Refuses, Some(["b"]), Faults(_ => NoFault, _ => false));
    r := fs.TransferOne([], ["a"], ["d"], true, calls);
    after := fs.tree;
    assert ["b"][0] != "a" && ["b"][0] != "d" && Parent(["b"]) == [] && ["b"] !in before;
    assert CreatesAt(before, Some(["b"]));
    assert ["a"] + [] == ["a"] && ["d", "a"] + [] == ["d", "a"];
    assert Has(before, ["a"], []) && Has(after, ["d", "a"], []);
  }
}
