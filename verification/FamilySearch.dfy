/** drivers/189Cloud/family.go: the search for an item through a directory graph, in which folders may
    be shared and may contain each other. */
module FamilySearch {
  import opened FamilyIndex
  import opened Seqs

  datatype Found = Found(item: Item) | NotFound | ListFails

  /** What each folder lists; a folder that is not in the map cannot be listed. */
  type Graph = map<string, seq<Item>>

  ghost predicate ListsFolder(items: seq<Item>, c: string) {
    exists item :: item in items && item.isDir && item.id == c
  }

  ghost predicate Edge(dir: Graph, p: string, c: string) {
    p in dir && ListsFolder(dir[p], c)
  }

  /** A chain of folders from the root, each listed by the one before. */
  ghost predicate IsPath(dir: Graph, root: string, path: seq<string>) {
    |path| > 0 && path[0] == root && forall i :: 0 <= i < |path| - 1 ==> Edge(dir, path[i], path[i + 1])
  }

  ghost predicate Reachable(dir: Graph, root: string, p: string) {
    exists path :: IsPath(dir, root, path) && path[|path| - 1] == p
  }

  /** The folder lists an item with this id. */
  ghost predicate Lists(dir: Graph, p: string, id: string) {
    p in dir && exists item :: item in dir[p] && item.id == id
  }

  lemma RootIsReachable(dir: Graph, root: string)
    ensures Reachable(dir, root, root)
  {
    assert IsPath(dir, root, [root]);
  }

  lemma ChildIsReachable(dir: Graph, root: string, p: string, c: string)
    requires Reachable(dir, root, p) && Edge(dir, p, c)
    ensures Reachable(dir, root, c)
  {
    var path :| IsPath(dir, root, path) && path[|path| - 1] == p;
    assert IsPath(dir, root, path + [c]);
    assert (path + [c])[|path + [c]| - 1] == c;
  }

  /** A set that holds the root and all children of its folders holds everything reachable. */
  lemma {:induction false} ClosedHoldsAll(dir: Graph, root: string, visited: set<string>, path: seq<string>)
    requires root in visited && forall p, c :: p in visited && Edge(dir, p, c) ==> c in visited
    requires IsPath(dir, root, path)
    ensures path[|path| - 1] in visited
    decreases |path|
  {
    if |path| > 1 {
      var shorter := path[..|path| - 1];
      assert forall i :: 0 <= i < |shorter| ==> shorter[i] == path[i];
      assert IsPath(dir, root, shorter);
      ClosedHoldsAll(dir, root, visited, shorter);
      assert Edge(dir, path[|path| - 2], path[|path| - 1]);
    }
  }

  /** What the search knows: listed folders are reachable, do not list the item, and their children are
      listed or wait in the queue. */
  ghost predicate Searched(dir: Graph, root: string, id: string, visited: set<string>, queue: seq<string>) {
    && (root in visited || root in queue)
    && (forall q :: q in queue ==> Reachable(dir, root, q))
    && (forall p :: p in visited ==> p in dir && Reachable(dir, root, p) && !Lists(dir, p, id))
    && (forall p, c :: p in visited && Edge(dir, p, c) ==> c in visited || c in queue)
  }

  lemma StartAtRoot(dir: Graph, root: string, id: string)
    ensures Searched(dir, root, id, {}, [root]) && EachOnce([])
  {
    RootIsReachable(dir, root);
  }

  lemma QueueIsReachable(dir: Graph, root: string, id: string, visited: set<string>, queue: seq<string>)
    requires Searched(dir, root, id, visited, queue)
    ensures forall q :: q in queue ==> Reachable(dir, root, q)
    ensures forall p :: p in visited ==> Reachable(dir, root, p)
  {
  }

  lemma NothingLeft(dir: Graph, root: string, id: string, visited: set<string>)
    requires Searched(dir, root, id, visited, [])
    ensures forall p :: Reachable(dir, root, p) ==> p in dir && !Lists(dir, p, id)
  {
    forall p | Reachable(dir, root, p)
      ensures p in visited
    {
      var path :| IsPath(dir, root, path) && path[|path| - 1] == p;
      ClosedHoldsAll(dir, root, visited, path);
    }
  }

  lemma SkipVisited(dir: Graph, root: string, id: string, visited: set<string>, queue: seq<string>)
    requires |queue| > 0 && queue[0] in visited && Searched(dir, root, id, visited, queue)
    ensures Searched(dir, root, id, visited, queue[1..])
  {
    assert queue == [queue[0]] + queue[1..];
  }

  lemma VisitFirst(dir: Graph, root: string, id: string, visited: set<string>, queue: seq<string>,
                   children: seq<string>)
    requires |queue| > 0 && Searched(dir, root, id, visited, queue) && queue[0] in dir && !Lists(dir, queue[0], id)
    requires forall c :: c in children <==> Edge(dir, queue[0], c)
    ensures Searched(dir, root, id, visited + {queue[0]}, queue[1..] + children)
  {
    var p := queue[0];
    assert queue == [p] + queue[1..];
    assert Reachable(dir, root, p);
    forall c | c in children
      ensures Reachable(dir, root, c)
    {
      ChildIsReachable(dir, root, p, c);
    }
  }

  lemma ChildrenNext(items: seq<Item>, item: Item)
    ensures forall c :: ListsFolder(items + [item], c) <==> ListsFolder(items, c) || (item.isDir && item.id == c)
  {
    assert item in items + [item];
    assert forall x :: x in items ==> x in items + [item];
  }

  ghost predicate FirstWith(items: seq<Item>, k: nat, id: string)
    requires k < |items|
  {
    items[k].id == id && forall j :: 0 <= j < k ==> items[j].id != id
  }

  /** One folder's items, in order: the item with the id, or the sub-folders. */
  method ScanFolder(items: seq<Item>, id: string) returns (found: bool, item: Item, children: seq<string>)
    ensures found <==> exists x :: x in items && x.id == id
    ensures found ==> exists k: nat :: k < |items| && FirstWith(items, k, id) && item == items[k]
    ensures !found ==> forall c :: c in children <==> ListsFolder(items, c)
  {
    children, found, item := [], false, Item("", "", false);
    ghost var scanned: seq<Item> := [];
    for i := 0 to |items|
      invariant scanned == items[..i]
      invariant (forall x :: x in scanned ==> x.id != id) && forall k :: 0 <= k < i ==> items[k].id != id
      invariant forall c :: c in children <==> ListsFolder(scanned, c)
    {
      TakeNext(items, i);
      if items[i].id == id {
        assert FirstWith(items, i, id);
        return true, items[i], children;
      }
      if items[i].isDir {
        children := children + [items[i].id];
      }
      ChildrenNext(scanned, items[i]);
      scanned := scanned + [items[i]];
    }
    TakeAll(items);
  }

  // ----- the nearest folder -----

  /** There is a chain of n steps from the root to the folder. */
  ghost predicate Steps(dir: Graph, root: string, p: string, n: nat) {
    exists path :: IsPath(dir, root, path) && |path| == n + 1 && path[n] == p
  }

  /** The folder waits in the queue, at most n steps from the root. */
  ghost predicate Waits(queue: seq<string>, depths: seq<nat>, c: string, n: nat)
    requires |queue| == |depths|
  {
    exists i :: 0 <= i < |queue| && queue[i] == c && depths[i] <= n
  }

  ghost predicate Near(level: map<string, nat>, queue: seq<string>, depths: seq<nat>, c: string, n: nat)
    requires |queue| == |depths|
  {
    (c in level && level[c] <= n) || Waits(queue, depths, c, n)
  }

  /** The queue holds folders of one depth, and behind them some of the next. */
  ghost predicate Ordered(queue: seq<string>, depths: seq<nat>) {
    && |queue| == |depths| && (forall i, j :: 0 <= i < j < |depths| ==> depths[i] <= depths[j])
    && (|depths| > 0 ==> depths[|depths| - 1] <= depths[0] + 1)
  }

  /** What the search knows of depths: `level` is that of the listed folders, `depths` that of the queue. */
  ghost predicate Leveled(dir: Graph, root: string, level: map<string, nat>, queue: seq<string>, depths: seq<nat>) {
    && Ordered(queue, depths) && Near(level, queue, depths, root, 0)
    && (forall i :: 0 <= i < |queue| ==> Steps(dir, root, queue[i], depths[i]))
    && (|queue| > 0 ==> forall p :: p in level ==> level[p] <= depths[0])
    && (forall p, c :: p in level && Edge(dir, p, c) ==> Near(level, queue, depths, c, level[p] + 1))
  }

  lemma RootIsNear(dir: Graph, root: string)
    ensures Leveled(dir, root, map[], [root], [0])
  {
    assert IsPath(dir, root, [root]);
    assert [root][0] == root && [0 as nat][0] == 0;
  }

  lemma NearLater(level: map<string, nat>, later: map<string, nat>, queue: seq<string>, depths: seq<nat>,
                  queue1: seq<string>, depths1: seq<nat>, c: string, n: nat)
    requires |queue| == |depths| > 0 && |queue1| == |depths1| && queue[1..] <= queue1 && depths[1..] <= depths1
    requires Near(level, queue, depths, c, n) && queue[0] in later && later[queue[0]] <= depths[0]
    requires forall p :: p in level ==> p in later && later[p] == level[p]
    ensures Near(later, queue1, depths1, c, n)
  {
    if !(c in level && level[c] <= n) {
      var i :| 0 <= i < |queue| && queue[i] == c && depths[i] <= n;
      if i > 0 {
        assert queue[1..][i - 1] == c && depths[1..][i - 1] == depths[i];
        assert queue1[i - 1] == c && depths1[i - 1] == depths[i];
      }
    }
  }

  lemma SkipLevel(dir: Graph, root: string, level: map<string, nat>, queue: seq<string>, depths: seq<nat>)
    requires Leveled(dir, root, level, queue, depths) && |queue| > 0 && queue[0] in level
    ensures Leveled(dir, root, level, queue[1..], depths[1..])
  {
    hide Near, Steps, Edge;
    NearLater(level, level, queue, depths, queue[1..], depths[1..], root, 0);
    forall p, c | p in level && Edge(dir, p, c)
      ensures Near(level, queue[1..], depths[1..], c, level[p] + 1)
    {
      NearLater(level, level, queue, depths, queue[1..], depths[1..], c, level[p] + 1);
    }
  }

  lemma StepFurther(dir: Graph, root: string, p: string, c: string, n: nat)
    requires Steps(dir, root, p, n) && Edge(dir, p, c)
    ensures Steps(dir, root, c, n + 1)
  {
    var path :| IsPath(dir, root, path) && |path| == n + 1 && path[n] == p;
    assert IsPath(dir, root, path + [c]);
    assert (path + [c])[n + 1] == c;
  }

  lemma ChildrenSteps(dir: Graph, root: string, queue: seq<string>, depths: seq<nat>, children: seq<string>)
    requires |queue| == |depths| > 0 && forall i :: 0 <= i < |queue| ==> Steps(dir, root, queue[i], depths[i])
    requires forall c :: c in children ==> Edge(dir, queue[0], c)
    ensures var queue1, depths1 := queue[1..] + children, depths[1..] + seq(|children|, _ => depths[0] + 1);
            forall i :: 0 <= i < |queue1| ==> Steps(dir, root, queue1[i], depths1[i])
  {
    hide Steps, Edge;
    var queue1, depths1 := queue[1..] + children, depths[1..] + seq(|children|, _ => depths[0] + 1);
    forall i | 0 <= i < |queue1|
      ensures Steps(dir, root, queue1[i], depths1[i])
    {
      if i >= |queue| - 1 {
        assert queue1[i] == children[i - (|queue| - 1)] && queue1[i] in children;
        StepFurther(dir, root, queue[0], queue1[i], depths[0]);
      }
    }
  }

  lemma VisitLevel(dir: Graph, root: string, level: map<string, nat>, queue: seq<string>, depths: seq<nat>,
                   children: seq<string>)
    requires Leveled(dir, root, level, queue, depths) && |queue| > 0 && queue[0] !in level
    requires forall c :: c in children <==> Edge(dir, queue[0], c)
    ensures Leveled(dir, root, level[queue[0] := depths[0]], queue[1..] + children, depths[1..] + seq(|children|, _ => depths[0] + 1))
  {
    hide Near, Steps, Edge, Ordered;
    OrderedOn(queue, depths, children);
    var p0, d := queue[0], depths[0];
    var later, next := level[p0 := d], seq(|children|, _ => d + 1);
    var queue1, depths1 := queue[1..] + children, depths[1..] + next;
    NearLater(level, later, queue, depths, queue1, depths1, root, 0);
    forall p, c | p in later && Edge(dir, p, c)
      ensures Near(later, queue1, depths1, c, later[p] + 1)
    {
      if p == p0 {
        ChildWaits(later, queue[1..], depths[1..], children, next, c, d + 1);
      } else {
        NearLater(level, later, queue, depths, queue1, depths1, c, level[p] + 1);
      }
    }
    ChildrenSteps(dir, root, queue, depths, children);
    NoDeeper(level, queue, depths, children);
  }

  lemma NoDeeper(level: map<string, nat>, queue: seq<string>, depths: seq<nat>, children: seq<string>)
    requires |queue| > 0 && Ordered(queue, depths) && forall p :: p in level ==> level[p] <= depths[0]
    ensures var later, depths1 := level[queue[0] := depths[0]], depths[1..] + seq(|children|, _ => depths[0] + 1);
            |depths1| > 0 ==> forall p :: p in later ==> later[p] <= depths1[0]
  {
  }

  lemma OrderedOn(queue: seq<string>, depths: seq<nat>, children: seq<string>)
    requires |queue| > 0 && Ordered(queue, depths)
    ensures |queue| == |depths|
    ensures Ordered(queue[1..] + children, depths[1..] + seq(|children|, _ => depths[0] + 1))
  {
    var rest, all := depths[1..], depths[1..] + seq(|children|, _ => depths[0] + 1);
    assert forall i :: 0 <= i < |rest| ==> all[i] == depths[i + 1] && depths[i + 1] <= depths[|depths| - 1];
    assert forall i :: |rest| <= i < |all| ==> all[i] == depths[0] + 1;
  }

  lemma ChildWaits(level: map<string, nat>, queue: seq<string>, depths: seq<nat>, children: seq<string>, next: seq<nat>,
                   c: string, n: nat)
    requires |queue| == |depths| && |children| == |next| && c in children && forall k :: 0 <= k < |next| ==>
               next[k] == n
    ensures Near(level, queue + children, depths + next, c, n)
  {
    var k :| 0 <= k < |children| && children[k] == c;
    assert (queue + children)[|queue| + k] == c && (depths + next)[|queue| + k] == n;
  }

  /** A folder n steps away is listed, or some folder at most as far still waits. */
  lemma {:induction false} ListedOrWaits(dir: Graph, root: string, level: map<string, nat>, queue: seq<string>,
                                         depths: seq<nat>, path: seq<string>)
    requires Leveled(dir, root, level, queue, depths) && IsPath(dir, root, path)
    ensures var n := |path| - 1;
            (path[n] in level && level[path[n]] <= n) || (|queue| > 0 && depths[0] <= n)
    decreases |path|
  {
    var n := |path| - 1;
    if n > 0 {
      var shorter := path[..n];
      assert forall i :: 0 <= i < |shorter| ==> shorter[i] == path[i];
      assert IsPath(dir, root, shorter);
      ListedOrWaits(dir, root, level, queue, depths, shorter);
      assert Edge(dir, path[n - 1], path[n]);
    }
  }

  /** The folder is as near as any that lists the item. */
  ghost predicate Nearest(dir: Graph, root: string, p: string, id: string) {
    exists n: nat :: Steps(dir, root, p, n) && NoneNearer(dir, root, id, n)
  }

  ghost predicate NoneNearer(dir: Graph, root: string, id: string, n: nat) {
    forall q, m: nat :: Steps(dir, root, q, m) && Lists(dir, q, id) ==> n <= m
  }

  lemma FrontIsNearest(dir: Graph, root: string, level: map<string, nat>, queue: seq<string>, depths: seq<nat>,
                       id: string)
    requires Leveled(dir, root, level, queue, depths) && |queue| > 0 && forall p :: p in level ==> !Lists(dir, p, id)
    ensures Nearest(dir, root, queue[0], id)
  {
    assert Steps(dir, root, queue[0], depths[0]);
    forall q, m: nat | Steps(dir, root, q, m) && Lists(dir, q, id)
      ensures depths[0] <= m
    {
      var path :| IsPath(dir, root, path) && |path| == m + 1 && path[m] == q;
      ListedOrWaits(dir, root, level, queue, depths, path);
    }
    assert NoneNearer(dir, root, id, depths[0]);
  }

  lemma VisitedList(dir: Graph, root: string, id: string, visited: set<string>, queue: seq<string>)
    requires Searched(dir, root, id, visited, queue)
    ensures forall p :: p in visited ==> !Lists(dir, p, id)
  {
  }

  ghost predicate EachOnce(listed: seq<string>) {
    forall i, j :: 0 <= i < j < |listed| ==> listed[i] != listed[j]
  }

  lemma OnceMore(listed: seq<string>, p: string)
    requires EachOnce(listed) && p !in listed
    ensures EachOnce(listed + [p])
  {
  }

  /** `findFamilyItem`. `listed` are the folders it lists, in order. It ends on every graph. */
  method FindFamilyItem(dir: Graph, root: string, fileID: string) returns (r: Found, listed: seq<string>)
    ensures r.Found? ==> r.item.id == fileID && exists p :: Reachable(dir, root, p) && p in dir && r.item in dir[p]
    ensures r.Found? ==> exists p :: p in dir && r.item in dir[p] && Nearest(dir, root, p, fileID)
    ensures r.NotFound? ==> forall p :: Reachable(dir, root, p) ==> p in dir && !Lists(dir, p, fileID)
    ensures r.Found? ==> exists p :: Reachable(dir, root, p) && Lists(dir, p, fileID)
    ensures r.ListFails? ==> exists p :: Reachable(dir, root, p) && p !in dir
    ensures (forall p :: Reachable(dir, root, p) ==> p in dir) ==>
              (r.Found? <==> exists p :: Reachable(dir, root, p) && Lists(dir, p, fileID))
    ensures EachOnce(listed)
    ensures forall p :: p in listed ==> Reachable(dir, root, p)
  {
    hide Searched, Reachable, EachOnce, Leveled, Nearest;
    var queue := [root];
    var visited: set<string> := {};
    listed := [];
    ghost var level: map<string, nat>, depths := map[], [0];
    StartAtRoot(dir, root, fileID);
    RootIsNear(dir, root);
    while |queue| > 0
      invariant Searched(dir, root, fileID, visited, queue)
      invariant Leveled(dir, root, level, queue, depths) && level.Keys == visited && |depths| == |queue|
      invariant forall p :: p in listed <==> p in visited
      invariant forall p :: p in listed ==> Reachable(dir, root, p)
      invariant EachOnce(listed)
      decreases dir.Keys - visited, |queue|
    {
      var parent := queue[0];
      if parent in visited {
        SkipVisited(dir, root, fileID, visited, queue);
        SkipLevel(dir, root, level, queue, depths);
        queue, depths := queue[1..], depths[1..];
        continue;
      }
      OnceMore(listed, parent);
      listed := listed + [parent];
      QueueIsReachable(dir, root, fileID, visited, queue);
      assert Reachable(dir, root, parent);
      if parent !in dir {
        return ListFails, listed;
      }
      var found, item, children := ScanFolder(dir[parent], fileID);
      if found {
        assert Lists(dir, parent, fileID);
        VisitedList(dir, root, fileID, visited, queue);
        FrontIsNearest(dir, root, level, queue, depths, fileID);
        return Found(item), listed;
      }
      VisitFirst(dir, root, fileID, visited, queue, children);
      VisitLevel(dir, root, level, queue, depths, children);
      level, depths := level[parent := depths[0]], depths[1..] + seq(|children|, _ => depths[0] + 1);
      visited, queue := visited + {parent}, queue[1..] + children;
    }
    NothingLeft(dir, root, fileID, visited);
    r := NotFound;
  }
}
