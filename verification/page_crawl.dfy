/**
  What `crawl_data_from_page` promises: it reads the listing of the page now
  shown, then runs the per-item retry envelope over its rows in order. The
  first item that runs out of attempts raises and ends the page; what the
  earlier items wrote stays written.
 */
module PageSpec {
  import opened Wrappers
  import opened Types
  import opened ItemCrawl

  /** The product file that marks `item` complete. */
  function ItemKey(query: string, item: ItemRef): Key
  {
    ProductKey(query, item.itemNo)
  }

  /** One visit script of twenty attempts per listed item. */
  predicate Scripted(items: seq<ItemRef>, visits: seq<seq<Visit>>)
  {
    |visits| == |items| && forall i :: 0 <= i < |visits| ==> |visits[i]| == ItemBudget
  }

  /** Every listed item has its product file. */
  predicate AllDone(query: string, items: seq<ItemRef>, store: Store)
  {
    forall i :: 0 <= i < |items| ==> ItemKey(query, items[i]) in store
  }

  /** Every listed item either has its product file or has a visit that goes through. */
  ghost predicate Completable(query: string, items: seq<ItemRef>, visits: seq<seq<Visit>>, store: Store)
    requires Scripted(items, visits)
  {
    forall i :: 0 <= i < |items| ==>
      ItemKey(query, items[i]) in store || Reaches(visits[i])
  }

  /**
    The page stopped at item `f`: the items before it are complete, `f`
    itself is not, none of its visits goes through, and the error names it.
   */
  ghost predicate StoppedAt(query: string, items: seq<ItemRef>, visits: seq<seq<Visit>>, r: Ran, f: int)
    requires Scripted(items, visits)
  {
    && 0 <= f < |items|
    && r.error == Some(ItemExhausted(items[f].page, ReportedBudget))
    && (forall i :: 0 <= i < f ==> ItemKey(query, items[i]) in r.store)
    && ItemKey(query, items[f]) !in r.store
    && !Reaches(visits[f])
  }

  /** A run over the items either completes all of them or stops at one that could not be completed. */
  ghost predicate ItemsDone(query: string, items: seq<ItemRef>, visits: seq<seq<Visit>>, r: Ran)
    requires Scripted(items, visits)
  {
    && (r.error.None? ==> AllDone(query, items, r.store))
    && (r.error.Some? ==> exists f :: StoppedAt(query, items, visits, r, f))
  }

  /** Product files written at most once and never overwritten; every wait follows a `move_back`. */
  ghost predicate ItemsTrace(store: Store, r: Ran)
  {
    Segment(store, r.trace, r.store) && MoveBackBeforeWaits(r.trace) && (r.trace == [] || !r.trace[0].Sleep?)
  }

  /** `n` closing clicks. */
  function Closes(n: nat): (t: seq<Event>)
    ensures |t| == n && forall i :: 0 <= i < n ==> t[i] == MoveBack
    decreases n
  {
    if n == 0 then [] else [MoveBack] + Closes(n - 1)
  }

  /**
    The state of the loop over the items before item `i`: the trace so far is
    well-behaved, the items before `i` are complete, and over a listing
    whose every item had its file nothing has changed but the closing clicks.
   */
  ghost predicate Progress(query: string, items: seq<ItemRef>, store: Store, done: bool, i: nat, sofar: Ran)
  {
    && i <= |items|
    && ItemsTrace(store, sofar)
    && (forall k :: 0 <= k < i ==> ItemKey(query, items[k]) in sofar.store)
    && (done ==> sofar.store == store && sofar.trace == Closes(i))
  }

  lemma Started(query: string, items: seq<ItemRef>, store: Store, done: bool)
    ensures Progress(query, items, store, done, 0, Ran(None, store, []))
  {
    assert Segment(store, [], store);
  }

  /** An item that completes extends the progress of the loop by one. */
  lemma Advance(query: string, items: seq<ItemRef>, visits: seq<seq<Visit>>, store: Store, done: bool, i: nat, sofar: Ran, step: Ran)
    requires Scripted(items, visits) && i < |items|
    requires done == AllDone(query, items, store)
    requires Progress(query, items, store, done, i, sofar)
    requires ItemResult(query, items[i], visits[i], sofar.store, step) && ItemEffects(query, items[i], visits[i], sofar.store, step)
    requires step.error.None?
    ensures Progress(query, items, store, done, i + 1, Ran(None, step.store, sofar.trace + step.trace))
  {
    Extend(store, sofar.store, sofar.trace, step.store, step.trace);
    if done {
      StillClosed(query, items, visits, store, sofar.trace, i, step);
    }
  }

  /** Over a listing whose every item has its file, each item writes nothing and costs one `move_back`. */
  lemma StillClosed(query: string, items: seq<ItemRef>, visits: seq<seq<Visit>>, store: Store, trace: seq<Event>, i: nat, step: Ran)
    requires Scripted(items, visits) && i < |items| && AllDone(query, items, store)
    requires trace == Closes(i)
    requires ItemResult(query, items[i], visits[i], store, step)
    ensures step.store == store && trace + step.trace == Closes(i + 1)
  {
    assert ItemKey(query, items[i]) in store;
  }

  /** Having passed every item, the loop has completed them all. */
  lemma Finished(query: string, items: seq<ItemRef>, visits: seq<seq<Visit>>, store: Store, done: bool, r: Ran)
    requires Scripted(items, visits)
    requires done == AllDone(query, items, store)
    requires Progress(query, items, store, done, |items|, r) && r.error.None?
    ensures ItemsTrace(store, r)
    ensures ItemsDone(query, items, visits, r)
    ensures AllDone(query, items, store) ==> r == Ran(None, store, Closes(|items|))
  {
  }

  /** One more item's stretch of trace keeps the whole trace well-behaved. */
  lemma Extend(store: Store, cur: Store, trace: seq<Event>, after: Store, t: seq<Event>)
    requires ItemsTrace(store, Ran(None, cur, trace))
    requires Segment(cur, t, after) && MoveBackBeforeWaits(t)
    ensures ItemsTrace(store, Ran(None, after, trace + t))
  {
    SegmentCompose(store, trace, cur, t, after);
    MoveBackBeforeWaitsAppend(trace, t);
  }

  /** The item at `i` raised after the items before it completed: the page stops there. */
  lemma StopAt(query: string, items: seq<ItemRef>, visits: seq<seq<Visit>>, store: Store, i: nat, sofar: Ran, step: Ran, r: Ran)
    requires Scripted(items, visits) && i < |items|
    requires Progress(query, items, store, AllDone(query, items, store), i, sofar)
    requires ItemResult(query, items[i], visits[i], sofar.store, step) && ItemEffects(query, items[i], visits[i], sofar.store, step)
    requires step.error.Some? && r == Ran(step.error, step.store, sofar.trace + step.trace)
    ensures ItemsTrace(store, r)
    ensures ItemsDone(query, items, visits, r)
    ensures !Completable(query, items, visits, store) && !AllDone(query, items, store)
  {
    Extend(store, sofar.store, sofar.trace, step.store, step.trace);
    StoppedHere(query, items, visits, store, i, sofar.store, step, r);
  }

  lemma StoppedHere(query: string, items: seq<ItemRef>, visits: seq<seq<Visit>>, store: Store, i: nat, cur: Store, step: Ran, r: Ran)
    requires Scripted(items, visits) && i < |items|
    requires store.Keys <= cur.Keys
    requires forall k :: 0 <= k < i ==> ItemKey(query, items[k]) in cur
    requires ItemResult(query, items[i], visits[i], cur, step) && step.error.Some?
    requires r.error == step.error && r.store == step.store
    ensures ItemsDone(query, items, visits, r)
    ensures !Completable(query, items, visits, store) && !AllDone(query, items, store)
  {
    assert StoppedAt(query, items, visits, r, i);
  }

  /** The listing of a page as `retrieve_data` reads it (`None` where it raises or reports no data), and the visit scripts of its items. */
  datatype PageScript = PageScript(listing: Option<seq<ItemRef>>, visits: seq<seq<Visit>>)

  predicate PageScripted(p: PageScript)
  {
    p.listing.Some? ==> Scripted(p.listing.value, p.visits)
  }

  /** A run over the items ends without error exactly when every listed item has its product file. */
  lemma DoneOnlyWithoutError(query: string, items: seq<ItemRef>, visits: seq<seq<Visit>>, r: Ran)
    requires Scripted(items, visits) && ItemsDone(query, items, visits, r)
    ensures r.error.None? <==> AllDone(query, items, r.store)
  {
    if r.error.Some? {
      var f :| StoppedAt(query, items, visits, r, f);
    }
  }
}

/** `crawl_data_from_page` and its loop over the listed items. */
module PageCrawl {
  import opened Wrappers
  import opened Types
  import opened ItemCrawl
  import opened PageSpec

  /**
    The loop over the listed items, in listing order, leaving at the first
    item that raises. It completes every item when each has its product
    file or a visit that goes through; otherwise it stops at the first item
    with neither. Over a listing whose every item has its file it writes
    nothing and costs one `move_back` per item.
   */
  method CrawlItems(query: string, roman: string, items: seq<ItemRef>, visits: seq<seq<Visit>>, store: Store) returns (r: Ran)
    requires Scripted(items, visits)
    ensures ItemsTrace(store, r)
    ensures ItemsDone(query, items, visits, r)
    ensures Completable(query, items, visits, store) ==> r.error.None?
    ensures AllDone(query, items, store) ==> r == Ran(None, store, Closes(|items|))
  {
    var cur, trace, i := store, [], 0;
    ghost var done := AllDone(query, items, store);
    Started(query, items, store, done);
    while i < |items|
      invariant i <= |items|
      invariant Progress(query, items, store, done, i, Ran(None, cur, trace))
    {
      var step := CrawlItem(query, roman, items[i], visits[i], cur);
      if step.error.Some? {
        r := Ran(step.error, step.store, trace + step.trace);
        StopAt(query, items, visits, store, i, Ran(None, cur, trace), step, r);
        return;
      }
      Advance(query, items, visits, store, done, i, Ran(None, cur, trace), step);
      cur, trace, i := step.store, trace + step.trace, i + 1;
    }
    r := Ran(None, cur, trace);
    Finished(query, items, visits, store, done, r);
  }

  /**
    `crawl_data_from_page` for the page `p` describes. It succeeds exactly
    when the listing is read and every listed item ends with its product
    file; it succeeds whenever every item either has its file or a visit
    that goes through; when every item has its file already it writes
    nothing; otherwise it stops at the first item none of whose visits goes
    through.
   */
  method CrawlPage(query: string, roman: string, p: PageScript, store: Store) returns (r: Ran)
    requires PageScripted(p)
    ensures r.error.None? <==> p.listing.Some? && AllDone(query, p.listing.value, r.store)
    ensures p.listing.None? ==> r == Ran(Some(ListingUnreadable), store, [])
    ensures p.listing.Some? ==> ItemsDone(query, p.listing.value, p.visits, r)
    ensures p.listing.Some? && Completable(query, p.listing.value, p.visits, store) ==> r.error.None?
    ensures p.listing.Some? && AllDone(query, p.listing.value, store) ==> r == Ran(None, store, Closes(|p.listing.value|))
    ensures ItemsTrace(store, r)
  {
    match p.listing
    case None =>
      assert Segment(store, [], store);
      r := Ran(Some(ListingUnreadable), store, []);
    case Some(items) =>
      r := CrawlItems(query, roman, items, p.visits, store);
      DoneOnlyWithoutError(query, items, p.visits, r);
  }

}
