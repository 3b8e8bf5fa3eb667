/** drivers/189Cloud/family.go: the index of items by id, bounded by a queue of ids. */
module FamilyIndex {
  import opened Seqs

  const LIMIT := 4096

  datatype Item = Item(id: string, name: string, isDir: bool)

  datatype Index = Index(cache: map<string, Item>, order: seq<string>)

  // ----- one call as a function -----

  /** An id that is not cached goes to the end of the queue; its item replaces the cached one. */
  function Put(x: Index, item: Item): Index {
    if item.id == "" then x
    else Index(x.cache[item.id := item], if item.id in x.cache then x.order else x.order + [item.id])
  }

  function PutAll(x: Index, items: seq<Item>): Index {
    if items == [] then x else Put(PutAll(x, items[..|items| - 1]), items[|items| - 1])
  }

  /** Ids leave from the front of the queue, and their items leave the cache. */
  function Evict(x: Index, limit: nat): (y: Index)
    ensures |y.order| <= limit
    decreases |x.order|
  {
    if |x.order| <= limit then x else Evict(Index(x.cache - {x.order[0]}, x.order[1..]), limit)
  }

  function Forget(x: Index, ids: seq<string>): Index {
    if ids == [] then x else Index(Forget(x, ids[..|ids| - 1]).cache - {ids[|ids| - 1]}, x.order)
  }

  // ----- what holds of the index -----

  /** Every cached id is in the queue. */
  ghost predicate Covered(x: Index) {
    forall id :: id in x.cache ==> id in x.order
  }

  /** No id twice in the queue, and every id of the queue is cached. */
  ghost predicate Exact(x: Index) {
    (forall i, j :: 0 <= i < j < |x.order| ==> x.order[i] != x.order[j]) && forall id :: id in x.order ==> id in x.cache
  }

  /** What each id was last remembered with. */
  function Latest(latest: map<string, Item>, items: seq<Item>): map<string, Item> {
    if items == [] then latest
    else
      var item := items[|items| - 1];
      var before := Latest(latest, items[..|items| - 1]);
      if item.id == "" then before else before[item.id := item]
  }

  ghost predicate Current(x: Index, latest: map<string, Item>) {
    forall id :: id in x.cache ==> id in latest && x.cache[id] == latest[id]
  }

  function Elements(order: seq<string>): (ids: set<string>)
    ensures forall id :: id in ids <==> id in order
    ensures |ids| <= |order|
  {
    if order == [] then {} else Elements(order[..|order| - 1]) + {order[|order| - 1]}
  }

  /** The cache is no larger than the queue, and as large exactly while no id is repeated or missing. */
  lemma CacheIsBounded(x: Index)
    requires Covered(x)
    ensures |x.cache| <= |x.order|
    ensures Exact(x) ==> |x.cache| == |x.order|
  {
    hide Elements, Exact;
    SubsetSize(x.cache.Keys, Elements(x.order));
    if Exact(x) {
      ExactMeans(x);
      AllDifferent(x.order);
      assert x.cache.Keys == Elements(x.order);
    }
  }

  lemma ExactMeans(x: Index)
    requires Exact(x)
    ensures forall i, j :: 0 <= i < j < |x.order| ==> x.order[i] != x.order[j]
    ensures forall id :: id in x.order ==> id in x.cache
  {
  }

  lemma {:induction false} AllDifferent(order: seq<string>)
    requires forall i, j :: 0 <= i < j < |order| ==> order[i] != order[j]
    ensures |Elements(order)| == |order|
  {
    if order != [] {
      var before := order[..|order| - 1];
      AllDifferent(before);
      assert order[|order| - 1] !in Elements(before);
    }
  }

  lemma PutKeeps(x: Index, item: Item, latest: map<string, Item>)
    requires Covered(x) && Current(x, latest)
    ensures Covered(Put(x, item)) && Current(Put(x, item), Latest(latest, [item]))
    ensures Exact(x) ==> Exact(Put(x, item))
    ensures x.order <= Put(x, item).order
  {
    assert [item][..0] == [];
    if item.id != "" && item.id !in x.cache {
      assert (x.order + [item.id])[|x.order|] == item.id;
      assert forall id :: id in x.order ==> id in x.order + [item.id];
    }
  }

  lemma {:induction false} PutAllKeeps(x: Index, items: seq<Item>, latest: map<string, Item>)
    requires Covered(x) && Current(x, latest)
    ensures Covered(PutAll(x, items)) && Current(PutAll(x, items), Latest(latest, items))
    ensures Exact(x) ==> Exact(PutAll(x, items))
    ensures x.order <= PutAll(x, items).order
  {
    if items != [] {
      var before, item := items[..|items| - 1], items[|items| - 1];
      PutAllKeeps(x, before, latest);
      PutKeeps(PutAll(x, before), item, Latest(latest, before));
      assert [item][..0] == [];
      assert Latest(Latest(latest, before), [item]) == Latest(latest, items);
    }
  }

  /** Eviction keeps the end of the queue, and nothing but evicted items goes. */
  lemma {:induction false} EvictKeeps(x: Index, limit: nat, latest: map<string, Item>)
    requires Covered(x) && Current(x, latest)
    ensures var y := Evict(x, limit);
            && Covered(y) && Current(y, latest) && (Exact(x) ==> Exact(y))
            && y.order == (if |x.order| <= limit then x.order else x.order[|x.order| - limit..])
    decreases |x.order|
  {
    if |x.order| > limit {
      var y := Index(x.cache - {x.order[0]}, x.order[1..]);
      assert Covered(y) by {
        forall id | id in y.cache
          ensures id in y.order
        {
          var i :| 0 <= i < |x.order| && x.order[i] == id;
          assert y.order[i - 1] == id;
        }
      }
      if Exact(x) {
        assert Exact(y) by {
          assert forall i :: 0 <= i < |y.order| ==> y.order[i] == x.order[i + 1];
        }
      }
      EvictKeeps(y, limit, latest);
    }
  }

  lemma {:induction false} ForgetKeeps(x: Index, ids: seq<string>, latest: map<string, Item>)
    requires Covered(x) && Current(x, latest)
    ensures var y := Forget(x, ids);
            && Covered(y) && Current(y, latest) && y.order == x.order
            && forall id :: id in y.cache <==> id in x.cache && id !in ids
  {
    if ids != [] {
      ForgetKeeps(x, ids[..|ids| - 1], latest);
      assert ids == ids[..|ids| - 1] + [ids[|ids| - 1]];
    }
  }

  // ----- exactly which items stay cached -----

  /** Eviction takes away exactly the items with some place among those that leave the queue, and
      leaves the others as they are. */
  lemma {:induction false} EvictExactly(x: Index, limit: nat, id: string)
    ensures var y := Evict(x, limit);
            && (id in y.cache <==> id in x.cache && (|x.order| <= limit || id !in x.order[..|x.order| - limit]))
            && (id in y.cache ==> y.cache[id] == x.cache[id])
    decreases |x.order|
  {
    if |x.order| > limit {
      var y := Index(x.cache - {x.order[0]}, x.order[1..]);
      EvictExactly(y, limit, id);
      var leave := x.order[..|x.order| - limit];
      assert leave == [x.order[0]] + y.order[..|y.order| - limit];
    }
  }

  /** Item i is the last one with its id. */
  ghost predicate LastWith(items: seq<Item>, i: nat)
    requires i < |items|
  {
    items[i].id != "" && forall j :: i < j < |items| ==> items[j].id != items[i].id
  }

  /** Of each id the last item given counts; what is not given again stays. */
  lemma {:induction false} LatestExactly(latest: map<string, Item>, items: seq<Item>)
    ensures forall i: nat :: i < |items| && LastWith(items, i) ==>
              items[i].id in Latest(latest, items) && Latest(latest, items)[items[i].id] == items[i]
    ensures forall id :: !Named(items, id) ==>
              (id in Latest(latest, items) <==> id in latest) && (id in latest ==> Latest(latest, items)[id] == latest[id])
  {
    if items != [] {
      var before, item := items[..|items| - 1], items[|items| - 1];
      LatestExactly(latest, before);
      assert items == before + [item];
      forall i: nat | i < |before| && LastWith(items, i)
        ensures LastWith(before, i) && before[i] == items[i] && items[i].id != item.id
      {
        assert items[|before|] == item;
      }
      forall id
        ensures Named(items, id) <==> Named(before, id) || (id != "" && item.id == id)
      {
        NamedSnoc(before, item, id);
      }
    }
  }

  /** Ids that are given later go behind those given before. */
  lemma {:induction false} LaterGoBehind(x: Index, items: seq<Item>, later: seq<Item>)
    ensures PutAll(x, items).order <= PutAll(x, items + later).order
  {
    if later == [] {
      assert items + later == items;
    } else {
      var init, item := later[..|later| - 1], later[|later| - 1];
      LaterGoBehind(x, items, init);
      assert (items + later)[..|items + later| - 1] == items + init;
    }
  }

  ghost predicate Named(items: seq<Item>, id: string) {
    id != "" && exists k :: 0 <= k < |items| && items[k].id == id
  }

  lemma NamedSnoc(items: seq<Item>, item: Item, id: string)
    ensures Named(items + [item], id) <==> Named(items, id) || (id != "" && item.id == id)
  {
    assert (items + [item])[|items|] == item;
    assert forall k :: 0 <= k < |items| ==> (items + [item])[k] == items[k];
  }

  lemma NothingNamed(id: string)
    ensures !Named([], id)
  {
  }

  lemma {:induction false} PutAllExactly(x: Index, items: seq<Item>, id: string)
    ensures id in PutAll(x, items).cache <==> id in x.cache || Named(items, id)
  {
    hide Named;
    if items == [] {
      NothingNamed(id);
    } else {
      var before, item := items[..|items| - 1], items[|items| - 1];
      PutAllExactly(x, before, id);
      assert items == before + [item];
      NamedSnoc(before, item, id);
    }
  }

  /** Which items are cached after a call of `rememberItems`: the cached and the given ones, but for
      those with some place among the ids that leave the queue, be it an older place. */
  lemma RememberExactly(x: Index, items: seq<Item>, id: string)
    ensures var full := PutAll(x, items).order;
            id in Evict(PutAll(x, items), 4096).cache <==>
            (id in x.cache || Named(items, id)) && (|full| <= 4096 || id !in full[..|full| - 4096])
  {
    PutAllExactly(x, items, id);
    EvictExactly(PutAll(x, items), 4096, id);
  }

  // ----- whole histories -----

  lemma {:induction false} EvictedOrder(x: Index, limit: nat)
    ensures Evict(x, limit).order == if |x.order| <= limit then x.order else x.order[|x.order| - limit..]
    decreases |x.order|
  {
    if |x.order| > limit {
      EvictedOrder(Index(x.cache - {x.order[0]}, x.order[1..]), limit);
    }
  }

  /** What happens to an id: it goes to the end of the queue, leaves at its front, or is forgotten. */
  datatype Event = Queued(id: string) | Left(id: string) | Forgotten(id: string)

  /** The last thing that happened to the id is that it was queued. */
  function LastQueued(log: seq<Event>, id: string): bool {
    log != [] &&
    var e := log[|log| - 1];
    if e.id == id then e.Queued? else LastQueued(log[..|log| - 1], id)
  }

  lemma {:induction false} LastQueuedJoin(log: seq<Event>, more: seq<Event>, id: string)
    ensures LastQueued(log + more, id) <==>
              if exists e :: e in more && e.id == id then LastQueued(more, id) else LastQueued(log, id)
  {
    if more == [] {
      assert log + more == log;
    } else {
      var init, last := more[..|more| - 1], more[|more| - 1];
      LastQueuedJoin(log, init, id);
      assert (log + more)[..|log + more| - 1] == log + init;
      assert more == init + [last];
    }
  }

  /** All ids that ever went into the queue, in that order. */
  function AllQueued(log: seq<Event>): seq<string> {
    if log == [] then []
    else
      var e := log[|log| - 1];
      AllQueued(log[..|log| - 1]) + (if e.Queued? then [e.id] else [])
  }

  function QueuedEvents(ids: seq<string>): seq<Event> {
    seq(|ids|, k requires 0 <= k < |ids| => Queued(ids[k]))
  }

  function LeftEvents(ids: seq<string>): seq<Event> {
    seq(|ids|, k requires 0 <= k < |ids| => Left(ids[k]))
  }

  function ForgottenEvents(ids: seq<string>): seq<Event> {
    seq(|ids|, k requires 0 <= k < |ids| => Forgotten(ids[k]))
  }

  lemma {:induction false} AllQueuedJoin(log: seq<Event>, more: seq<Event>)
    ensures AllQueued(log + more) == AllQueued(log) + AllQueued(more)
  {
    if more == [] {
      assert log + more == log;
    } else {
      AllQueuedJoin(log, more[..|more| - 1]);
      assert (log + more)[..|log + more| - 1] == log + more[..|more| - 1];
    }
  }

  lemma {:induction false} AllQueuedOf(ids: seq<string>)
    ensures AllQueued(QueuedEvents(ids)) == ids
    ensures AllQueued(LeftEvents(ids)) == AllQueued(ForgottenEvents(ids)) == []
  {
    if ids != [] {
      var init := ids[..|ids| - 1];
      AllQueuedOf(init);
      assert QueuedEvents(ids)[..|init|] == QueuedEvents(init);
      assert LeftEvents(ids)[..|init|] == LeftEvents(init);
      assert ForgottenEvents(ids)[..|init|] == ForgottenEvents(init);
    }
  }

  /** The queue is the end of all ids that were ever queued, as long as the bound lets it be. */
  ghost predicate IsEnd(order: seq<string>, queued: seq<string>) {
    order == (if |queued| <= 4096 then queued else queued[|queued| - 4096..])
  }

  /** The queue after new ids were added and old ones left is still the end of all ids that were queued. */
  lemma EndOfQueue(queued: seq<string>, order: seq<string>, full: seq<string>)
    requires order <= full && IsEnd(order, queued)
    ensures IsEnd(if |full| <= 4096 then full else full[|full| - 4096..], queued + full[|order|..])
  {
    var added := full[|order|..];
    assert full == order + added;
    var all := queued + added;
    if |queued| > 4096 {
      assert queued == queued[..|queued| - 4096] + order;
      assert all == queued[..|queued| - 4096] + full;
    }
  }

  /** The ids that a call adds to the queue, and those that leave it. */
  ghost function Added(x: Index, items: seq<Item>): seq<string> {
    if x.order <= PutAll(x, items).order then PutAll(x, items).order[|x.order|..] else []
  }

  ghost function Dropped(x: Index, items: seq<Item>): seq<string> {
    var full := PutAll(x, items).order;
    if |full| <= 4096 then [] else full[..|full| - 4096]
  }

  ghost function RememberEvents(x: Index, items: seq<Item>): seq<Event> {
    QueuedEvents(Added(x, items)) + LeftEvents(Dropped(x, items))
  }

  /** Exactly those ids are cached to which nothing happened since they were queued. */
  ghost predicate CachesQueued(x: Index, log: seq<Event>) {
    forall id :: id in x.cache <==> LastQueued(log, id)
  }

  ghost predicate Sound(x: Index, latest: map<string, Item>, log: seq<Event>) {
    Covered(x) && Current(x, latest) && IsEnd(x.order, AllQueued(log)) && CachesQueued(x, log)
  }

  lemma {:induction false} AddedExactly(x: Index, items: seq<Item>, id: string)
    requires Covered(x)
    ensures x.order <= PutAll(x, items).order
    ensures id in Added(x, items) <==> id !in x.cache && Named(items, id)
  {
    if items != [] {
      var before, item := items[..|items| - 1], items[|items| - 1];
      AddedExactly(x, before, id);
      PutAllExactly(x, before, item.id);
      assert items == before + [item];
      NamedSnoc(before, item, id);
      NamedSnoc(before, item, item.id);
      var order := PutAll(x, before).order;
      assert (order + [item.id])[|x.order|..] == order[|x.order|..] + [item.id];
    }
  }

  lemma {:induction false} LastOfQueued(ids: seq<string>, id: string)
    ensures LastQueued(QueuedEvents(ids), id) <==> id in ids
    ensures (exists e :: e in QueuedEvents(ids) && e.id == id) <==> id in ids
  {
    if ids != [] {
      var init, last := ids[..|ids| - 1], ids[|ids| - 1];
      LastOfQueued(init, id);
      assert QueuedEvents(ids)[..|init|] == QueuedEvents(init);
      assert ids == init + [last];
    }
    forall k | 0 <= k < |ids|
      ensures QueuedEvents(ids)[k] in QueuedEvents(ids) && QueuedEvents(ids)[k].id == ids[k]
    {
    }
  }

  lemma {:induction false} LastOfGone(ids: seq<string>, id: string)
    ensures !LastQueued(LeftEvents(ids), id) && !LastQueued(ForgottenEvents(ids), id)
    ensures (exists e :: e in LeftEvents(ids) && e.id == id) <==> id in ids
    ensures (exists e :: e in ForgottenEvents(ids) && e.id == id) <==> id in ids
  {
    if ids != [] {
      var init := ids[..|ids| - 1];
      LastOfGone(init, id);
      assert LeftEvents(ids)[..|init|] == LeftEvents(init);
      assert ForgottenEvents(ids)[..|init|] == ForgottenEvents(init);
    }
    forall k | 0 <= k < |ids|
      ensures LeftEvents(ids)[k] in LeftEvents(ids) && LeftEvents(ids)[k].id == ids[k]
      ensures ForgottenEvents(ids)[k] in ForgottenEvents(ids) && ForgottenEvents(ids)[k].id == ids[k]
    {
    }
  }

  lemma RememberCaches(x: Index, items: seq<Item>, log: seq<Event>)
    requires Covered(x) && CachesQueued(x, log)
    ensures CachesQueued(Evict(PutAll(x, items), 4096), log + RememberEvents(x, items))
  {
    hide PutAll, Evict, Covered, LastQueued, Added, Dropped, QueuedEvents, LeftEvents, Named;
    var added, dropped := Added(x, items), Dropped(x, items);
    assert log + RememberEvents(x, items) == (log + QueuedEvents(added)) + LeftEvents(dropped);
    forall id
      ensures id in Evict(PutAll(x, items), 4096).cache <==> LastQueued(log + RememberEvents(x, items), id)
    {
      RememberExactly(x, items, id);
      DroppedMeans(x, items, id);
      AddedExactly(x, items, id);
      LastOfQueued(added, id);
      LastOfGone(dropped, id);
      LastQueuedJoin(log, QueuedEvents(added), id);
      LastQueuedJoin(log + QueuedEvents(added), LeftEvents(dropped), id);
    }
  }

  lemma DroppedMeans(x: Index, items: seq<Item>, id: string)
    ensures var full := PutAll(x, items).order;
            id in Dropped(x, items) <==> !(|full| <= 4096 || id !in full[..|full| - 4096])
  {
  }

  lemma RememberKeepsEnd(x: Index, items: seq<Item>, log: seq<Event>)
    requires IsEnd(x.order, AllQueued(log)) && x.order <= PutAll(x, items).order
    ensures IsEnd(Evict(PutAll(x, items), 4096).order, AllQueued(log + RememberEvents(x, items)))
  {
    hide PutAll, Evict, IsEnd, AllQueued, Dropped, QueuedEvents, LeftEvents;
    var added, dropped := Added(x, items), Dropped(x, items);
    AllQueuedJoin(log, RememberEvents(x, items));
    AllQueuedJoin(QueuedEvents(added), LeftEvents(dropped));
    AllQueuedOf(added);
    AllQueuedOf(dropped);
    assert AllQueued(log + RememberEvents(x, items)) == AllQueued(log) + added;
    EndOfQueue(AllQueued(log), x.order, PutAll(x, items).order);
    EvictedOrder(PutAll(x, items), 4096);
  }

  /** What a call of `rememberItems` keeps. */
  lemma RememberKeeps(x: Index, items: seq<Item>, latest: map<string, Item>, log: seq<Event>)
    requires Sound(x, latest, log)
    ensures var y := Evict(PutAll(x, items), 4096);
            && Sound(y, Latest(latest, items), log + RememberEvents(x, items))
            && (Exact(x) ==> Exact(y)) && |y.cache| <= 4096
  {
    hide PutAll, Evict, Covered, Current, Exact, Latest, IsEnd, CachesQueued, AllQueued, RememberEvents;
    PutAllKeeps(x, items, latest);
    EvictKeeps(PutAll(x, items), 4096, Latest(latest, items));
    RememberCaches(x, items, log);
    RememberKeepsEnd(x, items, log);
    CacheIsBounded(Evict(PutAll(x, items), 4096));
  }

  lemma ForgetCaches(x: Index, ids: seq<string>, latest: map<string, Item>, log: seq<Event>)
    requires Sound(x, latest, log)
    ensures Sound(Forget(x, ids), latest, log + ForgottenEvents(ids))
  {
    ForgetKeeps(x, ids, latest);
    AllQueuedJoin(log, ForgottenEvents(ids));
    AllQueuedOf(ids);
    hide LastQueued, Covered, Current, IsEnd, AllQueued, Forget, ForgottenEvents;
    forall id
      ensures id in Forget(x, ids).cache <==> LastQueued(log + ForgottenEvents(ids), id)
    {
      LastOfGone(ids, id);
      LastQueuedJoin(log, ForgottenEvents(ids), id);
    }
  }

  lemma SoundIsBounded(x: Index, latest: map<string, Item>, log: seq<Event>)
    requires Sound(x, latest, log)
    ensures |x.cache| <= 4096 && (Exact(x) ==> |x.cache| == |x.order|)
  {
    CacheIsBounded(x);
  }

  lemma SoundIsKept(x: Index, latest: map<string, Item>, log: seq<Event>)
    requires Sound(x, latest, log)
    ensures Covered(x) && Current(x, latest)
  {
  }

  datatype Call = Remember(items: seq<Item>) | ForgetIDs(ids: seq<string>)

  class Family {
    var itemCache: map<string, Item>
    var itemOrder: seq<string>
    /** What each id was last remembered with. */
    ghost var latest: map<string, Item>
    /** What ever happened to any id. */
    ghost var log: seq<Event>

    function State(): Index
      reads this
    {
      Index(itemCache, itemOrder)
    }

    ghost predicate Valid()
      reads this
    {
      Sound(State(), latest, log)
    }

    constructor ()
      ensures Valid() && State() == Index(map[], []) && Exact(State())
    {
      itemCache, itemOrder, latest, log := map[], [], map[], [];
    }

    /** The first loop of `rememberItems`. */
    method Enqueue(items: seq<Item>)
      modifies this`itemCache, this`itemOrder
      ensures State() == PutAll(old(State()), items)
    {
      ghost var before := State();
      for i := 0 to |items|
        invariant State() == PutAll(before, items[..i])
      {
        var item := items[i];
        TakeNext(items, i);
        DropLast(items[..i], item);
        if item.id == "" {
          continue;
        }
        if item.id !in itemCache {
          itemOrder := itemOrder + [item.id];
        }
        itemCache := itemCache[item.id := item];
      }
      TakeAll(items);
    }

    /** The second loop of `rememberItems`. */
    method Shorten()
      modifies this`itemCache, this`itemOrder
      ensures State() == Evict(old(State()), 4096)
    {
      while |itemOrder| > LIMIT
        invariant Evict(State(), 4096) == Evict(old(State()), 4096)
        decreases |itemOrder|
      {
        var id := itemOrder[0];
        itemOrder, itemCache := itemOrder[1..], itemCache - {id};
      }
    }

    /** `rememberItems`. */
    method RememberItems(items: seq<Item>)
      requires Valid()
      modifies this
      ensures Valid() && |itemCache| <= 4096
      ensures State() == Evict(PutAll(old(State()), items), 4096) && latest == Latest(old(latest), items)
      ensures log == old(log) + RememberEvents(old(State()), items)
      ensures old(Exact(State())) ==> Exact(State())
    {
      hide PutAll, Evict, Sound, Exact, Latest, RememberEvents;
      RememberKeeps(State(), items, latest, log);
      log := log + RememberEvents(State(), items);
      latest := Latest(latest, items);
      Enqueue(items);
      Shorten();
    }

    /** `forgetItems`: the queue is left as it is. */
    method ForgetItems(ids: seq<string>)
      requires Valid()
      modifies this`itemCache, this`log
      ensures Valid() && State() == Forget(old(State()), ids) && |itemCache| <= 4096
      ensures log == old(log) + ForgottenEvents(ids)
      ensures forall id :: id in itemCache <==> id in old(itemCache) && id !in ids
    {
      hide Sound, ForgottenEvents, Covered, Current;
      ghost var before := State();
      for i := 0 to |ids|
        invariant State() == Forget(before, ids[..i]) && log == old(log)
      {
        TakeNext(ids, i);
        DropLast(ids[..i], ids[i]);
        itemCache := itemCache - {ids[i]};
      }
      TakeAll(ids);
      SoundIsKept(before, latest, log);
      ForgetKeeps(before, ids, latest);
      ForgetCaches(before, ids, latest, log);
      log := log + ForgottenEvents(ids);
      SoundIsBounded(State(), latest, log);
    }

    /** `cachedItem`: what it returns is what the id was last remembered with. */
    method CachedItem(id: string) returns (found: bool, item: Item)
      requires Valid()
      ensures found <==> id in itemCache
      ensures found ==> id in latest && item == latest[id]
    {
      found := id in itemCache;
      item := if found then itemCache[id] else Item("", "", false);
    }

    /** Any number of calls, starting from a new index. While nothing is forgotten the queue holds each
        cached id once. */
    method Run(calls: seq<Call>)
      requires Valid() && Exact(State()) && |itemCache| <= 4096
      modifies this
      ensures Valid() && |itemCache| <= 4096
      ensures (forall c :: c in calls ==> c.Remember?) ==> Exact(State()) && |itemCache| == |itemOrder|
    {
      hide Sound, Exact, Forget, PutAll, Evict, Latest;
      for i := 0 to |calls|
        invariant Valid() && |itemCache| <= 4096
        invariant (forall k :: 0 <= k < i ==> calls[k].Remember?) ==> Exact(State())
      {
        match calls[i]
        case Remember(items) =>
          RememberItems(items);
        case ForgetIDs(ids) =>
          ForgetItems(ids);
      }
      SoundIsBounded(State(), latest, log);
    }
  }

  // ----- a run that loses a new item early -----

  /** The ids "xx", "xxx" and so on. */
  function Others(n: nat): seq<Item> {
    seq(n, (k: nat) => Item(seq(k + 2, _ => 'x'), "", false))
  }

  function IdsOf(items: seq<Item>): seq<string> {
    seq(|items|, k requires 0 <= k < |items| => items[k].id)
  }

  lemma {:induction false} PutAllNew(x: Index, items: seq<Item>)
    requires forall k :: 0 <= k < |items| ==> items[k].id != "" && items[k].id !in x.cache
    requires forall j, k :: 0 <= j < k < |items| ==> items[j].id != items[k].id
    ensures PutAll(x, items).order == x.order + IdsOf(items)
  {
    if items == [] {
      assert x.order + [] == x.order;
    } else {
      var before, item := items[..|items| - 1], items[|items| - 1];
      PutAllNew(x, before);
      PutAllExactly(x, before, item.id);
      assert IdsOf(items) == IdsOf(before) + [item.id];
    }
  }

  /** A queue that holds "a" and then 4095 others is full and keeps "a"; with another, older place of
      "a" in front it is too long, and "a" goes. */
  lemma OthersFillQueue(x: Index, places: nat)
    requires x.cache.Keys == {"a"} && |x.order| == places && (forall k :: 0 <= k < places ==> x.order[k] == "a")
    requires 1 <= places <= 2
    ensures var y := Evict(PutAll(x, Others(4096 - 1)), 4096);
            ("a" in y.cache <==> places == 1) && |y.order| == 4096 && y.order[0] == "a"
  {
    hide Evict, Covered, Current;
    var items := Others(4096 - 1);
    var full := x.order + IdsOf(items);
    forall k | 0 <= k < |items|
      ensures |items[k].id| == k + 2
    {
    }
    PutAllNew(x, items);
    PutAllExactly(x, items, "a");
    EvictExactly(PutAll(x, items), 4096, "a");
    EvictedOrder(PutAll(x, items), 4096);
    if places == 2 {
      assert full[..1][0] == "a";
    }
  }

  /** An item that was forgotten and remembered again is in the queue twice, and its older place takes
      the newer item away: 4095 other ids evict it, although as many leave it cached if it was not
      forgotten in between. */
  method ForgottenPlaceEvicts(forgotten: bool) returns (family: Family, found: bool)
    ensures family.Valid() && fresh(family)
    ensures |family.itemOrder| == 4096 && family.itemOrder[0] == "a"
    ensures found <==> "a" in family.itemCache
    ensures found <==> !forgotten
  {
    hide Evict, Sound, Exact, Others, Forget, LastQueued, RememberEvents, ForgottenEvents;
    var a := Item("a", "", false);
    family := new Family();
    RememberOne(family.State(), a);
    family.RememberItems([a]);
    if forgotten {
      family.ForgetItems(["a"]);
      ForgetKeepsOrder(Index(map["a" := a], ["a"]), ["a"]);
    }
    RememberOne(family.State(), a);
    family.RememberItems([a]);
    OthersFillQueue(family.State(), if forgotten then 2 else 1);
    family.RememberItems(Others(4096 - 1));
    var item;
    found, item := family.CachedItem("a");
  }

  lemma ForgetKeepsOrder(x: Index, ids: seq<string>)
    ensures Forget(x, ids).order == x.order
  {
  }

  lemma RememberOne(x: Index, item: Item)
    requires item.id != "" && |x.order| < 4096
    ensures Evict(PutAll(x, [item]), 4096) ==
            Index(x.cache[item.id := item], if item.id in x.cache then x.order else x.order + [item.id])
  {
    assert [item][..0] == [];
  }
}
