/**
  Shared vocabulary of the crawl model: the record store that stands in for the
  output directory tree, the observable effects a crawl performs, the errors a
  step can raise, and the crawler's timing constants.
 */
module Types {
  import opened Wrappers

  /** Seconds of the crawler's `short_sleep`, `long_sleep` and `fail_sleep`. */
  const ShortSleep: nat := 3
  const LongSleep: nat := 20
  const FailSleep: nat := 5
  /** Pagination waits a literal five seconds after a failed click. */
  const PaginationFailSleep: nat := 5

  /** Field name to text: one JSON record, or one header/cell row merge. */
  type Fields = map<string, string>

  /** A parsed HTML table: its header texts and its data rows. */
  datatype Table = Table(header: seq<string>, rows: seq<seq<string>>)

  /**
    One row of the search-result listing: the id of the item's link, its
    item report number, and its running number (`None` when that cell does
    not read as an integer).
   */
  datatype ItemRef = ItemRef(page: string, itemNo: string, number: Option<int>)

  /** The output sub-directories under the collection root. */
  datatype Dir =
    | Product | Authorize | Collection | Ingredient
    | Company | AuthorizeCompany | EnforceCompany | ProductCompany
    | Consolidated

  /** A file of the output tree: its directory and its base name without extension. */
  datatype Key = Key(dir: Dir, name: string)

  /** File contents: a JSON record, one parquet table, or the consolidated listing. */
  datatype Doc = Json(fields: Fields) | Parquet(table: Table) | Listing(rows: seq<ItemRef>)

  /** The output tree; a key's presence is what `os.path.exists` observes. */
  type Store = map<Key, Doc>

  /** The completion marker of an item: `product/{query}_{item_no}.json`, named with the raw query. */
  function ProductKey(query: string, itemNo: string): Key
  {
    Key(Product, query + "_" + itemNo)
  }

  /** What the crawl does to the browser, the store and the clock, in order. */
  datatype Event =
    | NavigateItem(itemPage: string)   // move_to_item
    | NavigateCompany                  // move_to_company
    | Write(key: Key)                  // a file written to the output tree
    | MoveBack                         // move_back: click the close button, errors swallowed
    | Sleep(seconds: nat)              // a back-off wait after a failure
    | ClickPageLink(slot: int)         // pagination click on page-link slot li[slot]
    | ClickPageSize                    // the "50 per page" selection

  /** What a step can raise. */
  datatype Error =
    | ItemUnreachable
    | CompanyUnreachable
    | TableCount(table: string, found: nat)
    | MissingCompanyLink
    | MissingCompanyAddress
    | OnclickNoMatch
    | OnclickArity(found: nat)
    | KeyCollision
    | MissingField(name: string)
    | ListingUnreadable
    | ItemExhausted(itemPage: string, reportedAttempts: nat)
    | NothingToConcatenate

  /** Writes `docs` into the store in order, later writes replacing earlier ones. */
  function Put(store: Store, docs: seq<(Key, Doc)>): Store
    decreases |docs|
  {
    if docs == [] then store else Put(store[docs[0].0 := docs[0].1], docs[1..])
  }

  /** The events that record writing `docs`. */
  function WriteEvents(docs: seq<(Key, Doc)>): seq<Event>
    decreases |docs|
  {
    if docs == [] then [] else [Write(docs[0].0)] + WriteEvents(docs[1..])
  }

  /** Keys written into the product directory, in trace order. */
  function ProductWrites(t: seq<Event>): seq<Key>
    decreases |t|
  {
    if t == [] then []
    else (if t[0].Write? && t[0].key.dir == Product then [t[0].key] else []) + ProductWrites(t[1..])
  }

  /** The back-off waits of a trace, in order. */
  function Waits(t: seq<Event>): seq<nat>
    decreases |t|
  {
    if t == [] then [] else (if t[0].Sleep? then [t[0].seconds] else []) + Waits(t[1..])
  }

  /** The page-link slots clicked in a trace, in order. */
  function PageClicks(t: seq<Event>): seq<int>
    decreases |t|
  {
    if t == [] then [] else (if t[0].ClickPageLink? then [t[0].slot] else []) + PageClicks(t[1..])
  }

  lemma {:induction false} ProductWritesAppend(a: seq<Event>, b: seq<Event>)
    ensures ProductWrites(a + b) == ProductWrites(a) + ProductWrites(b)
    decreases |a|
  {
    if a == [] {
      assert a + b == b;
    } else {
      assert (a + b)[0] == a[0] && (a + b)[1..] == a[1..] + b;
      ProductWritesAppend(a[1..], b);
    }
  }

  lemma {:induction false} WaitsAppend(a: seq<Event>, b: seq<Event>)
    ensures Waits(a + b) == Waits(a) + Waits(b)
    decreases |a|
  {
    if a == [] {
      assert a + b == b;
    } else {
      assert (a + b)[0] == a[0] && (a + b)[1..] == a[1..] + b;
      WaitsAppend(a[1..], b);
    }
  }

  lemma {:induction false} PageClicksAppend(a: seq<Event>, b: seq<Event>)
    ensures PageClicks(a + b) == PageClicks(a) + PageClicks(b)
    decreases |a|
  {
    if a == [] {
      assert a + b == b;
    } else {
      assert (a + b)[0] == a[0] && (a + b)[1..] == a[1..] + b;
      PageClicksAppend(a[1..], b);
    }
  }

  lemma {:induction false} PutAppend(store: Store, a: seq<(Key, Doc)>, b: seq<(Key, Doc)>)
    ensures Put(store, a + b) == Put(Put(store, a), b)
    decreases |a|
  {
    if a == [] {
      assert a + b == b;
    } else {
      assert (a + b)[0] == a[0] && (a + b)[1..] == a[1..] + b;
      PutAppend(store[a[0].0 := a[0].1], a[1..], b);
    }
  }

  /** What the trace filters see of a single event. */
  lemma SingleEvent(e: Event)
    ensures ProductWrites([e]) == (if e.Write? && e.key.dir == Product then [e.key] else [])
    ensures Waits([e]) == (if e.Sleep? then [e.seconds] else [])
    ensures PageClicks([e]) == (if e.ClickPageLink? then [e.slot] else [])
  {
    assert [e][1..] == [];
  }

  /** The trace `t` ends with the events `tail`. */
  predicate EndsWith(t: seq<Event>, tail: seq<Event>)
  {
    |tail| <= |t| && t[|t| - |tail|..] == tail
  }

  /** Events put before a trace leave its ending as it was. */
  lemma EndsWithAppend(a: seq<Event>, b: seq<Event>, tail: seq<Event>)
    ensures EndsWith(b, tail) ==> EndsWith(a + b, tail)
  {
    if EndsWith(b, tail) {
      assert (a + b)[|a + b| - |tail|..] == b[|b| - |tail|..];
    }
  }

  /** A trace ending with `d`, followed by `e`, ends with `d` and then `e`. */
  lemma EndsWithExtend(a: seq<Event>, d: Event, e: Event)
    ensures EndsWith(a, [d]) ==> EndsWith(a + [e], [d, e])
  {
    if EndsWith(a, [d]) {
      assert (a + [e])[|a + [e]| - 2..] == [d, e];
    }
  }

  /** What the trace filters see of two events. */
  lemma TwoEvents(e: Event, f: Event)
    ensures ProductWrites([e, f]) == ProductWrites([e]) + ProductWrites([f])
    ensures Waits([e, f]) == Waits([e]) + Waits([f])
    ensures PageClicks([e, f]) == PageClicks([e]) + PageClicks([f])
  {
    assert [e, f] == [e] + [f];
    ProductWritesAppend([e], [f]);
    WaitsAppend([e], [f]);
    PageClicksAppend([e], [f]);
  }

  /** The product directory of the store. */
  function Products(store: Store): map<Key, Doc>
  {
    map k | k in store && k.dir == Product :: store[k]
  }

  /** None of `docs` goes to the product directory. */
  predicate OutsideProducts(docs: seq<(Key, Doc)>)
  {
    forall i :: 0 <= i < |docs| ==> docs[i].0.dir != Product
  }

  /** Writes that never touch the product directory leave the product directory as it was. */
  lemma {:induction false} PutOutsideProducts(store: Store, docs: seq<(Key, Doc)>)
    requires OutsideProducts(docs)
    ensures Products(Put(store, docs)) == Products(store)
    ensures store.Keys <= Put(store, docs).Keys
    ensures ProductWrites(WriteEvents(docs)) == []
    ensures Waits(WriteEvents(docs)) == []
    decreases |docs|
  {
    if docs != [] {
      var s := store[docs[0].0 := docs[0].1];
      assert Products(s) == Products(store);
      PutOutsideProducts(s, docs[1..]);
      ProductWritesAppend([Write(docs[0].0)], WriteEvents(docs[1..]));
      WaitsAppend([Write(docs[0].0)], WriteEvents(docs[1..]));
    }
  }

  /** Writing a product file changes the product directory at that file only. */
  lemma ProductsUpdate(store: Store, key: Key, doc: Doc)
    requires key.dir == Product
    ensures Products(store[key := doc]) == Products(store)[key := doc]
  {
  }

  predicate NoDup<T(==)>(s: seq<T>)
  {
    forall i, j :: 0 <= i < j < |s| ==> s[i] != s[j]
  }

  /** Every product file the store held is still there, with the same contents. */
  ghost predicate KeepsProducts(before: Store, after: Store)
  {
    && before.Keys <= after.Keys
    && forall k :: k in before && k.dir == Product ==> after[k] == before[k]
  }

  /**
    A stretch of crawling that took the store from `before` to `after` while
    writing `t`: each product file it writes is written once, was absent
    before, is present after, and no product file that existed was changed.
   */
  ghost predicate Segment(before: Store, t: seq<Event>, after: Store)
  {
    && NoDup(ProductWrites(t))
    && (forall k :: k in ProductWrites(t) ==> k !in before && k in after)
    && KeepsProducts(before, after)
  }

  /** Two well-behaved stretches run one after the other form one well-behaved stretch. */
  lemma SegmentCompose(s0: Store, t1: seq<Event>, s1: Store, t2: seq<Event>, s2: Store)
    requires Segment(s0, t1, s1) && Segment(s1, t2, s2)
    ensures Segment(s0, t1 + t2, s2)
  {
    ProductWritesAppend(t1, t2);
    var w, w1, w2 := ProductWrites(t1 + t2), ProductWrites(t1), ProductWrites(t2);
    forall i, j | 0 <= i < j < |w| ensures w[i] != w[j] {
      if j < |w1| {
        assert w[i] == w1[i] && w[j] == w1[j];
      } else if |w1| <= i {
        assert w[i] == w2[i - |w1|] && w[j] == w2[j - |w1|];
      } else {
        assert w[i] == w1[i] && w[i] in s1;
        assert w[j] == w2[j - |w1|] && w[j] !in s1;
      }
    }
    forall k | k in w ensures k !in s0 && k in s2 {
      if k in w1 {
        assert k in s1;
      } else {
        assert k in w2;
      }
    }
  }

  /** A stretch that writes no product file and leaves the product directory alone is well-behaved. */
  lemma SegmentWithoutProductWrite(before: Store, t: seq<Event>, after: Store)
    requires ProductWrites(t) == []
    requires Products(after) == Products(before) && before.Keys <= after.Keys
    ensures Segment(before, t, after)
  {
    forall k | k in before && k.dir == Product ensures after[k] == before[k] {
      assert Products(before)[k] == before[k] && Products(after)[k] == after[k];
    }
  }

  /** A stretch that writes the one product file `key`, absent before, and changes nothing else there is well-behaved. */
  lemma SegmentWithProductWrite(before: Store, t: seq<Event>, after: Store, key: Key, doc: Doc)
    requires key.dir == Product && key !in before
    requires ProductWrites(t) == [key]
    requires Products(after) == Products(before)[key := doc] && before.Keys <= after.Keys
    ensures Segment(before, t, after)
    ensures key in after && after[key] == doc
  {
    assert key in Products(after) && Products(after)[key] == after[key];
    forall k | k in before && k.dir == Product ensures after[k] == before[k] {
      assert k != key;
      assert Products(before)[k] == before[k] && Products(after)[k] == after[k];
    }
  }

  /** A trace without back-off waits holds no `Sleep`. */
  lemma {:induction false} NoWaitsNoSleep(t: seq<Event>)
    requires Waits(t) == []
    ensures forall p :: 0 <= p < |t| ==> !t[p].Sleep?
    decreases |t|
  {
    if t != [] {
      WaitsAppend([t[0]], t[1..]);
      assert [t[0]] + t[1..] == t;
      SingleEvent(t[0]);
      NoWaitsNoSleep(t[1..]);
      forall p | 0 < p < |t| ensures !t[p].Sleep? {
        assert t[p] == t[1..][p - 1];
      }
    }
  }

  /**
    Every back-off wait comes straight after a `MoveBack`: the trace does not
    open with one, and whatever precedes one is a `MoveBack`.
   */
  ghost predicate MoveBackBeforeWaits(t: seq<Event>)
  {
    && (t == [] || !t[0].Sleep?)
    && forall q, p {:trigger t[q], t[p]} :: 0 <= q < p < |t| && p == q + 1 && t[p].Sleep? ==> t[q] == MoveBack
  }

  lemma MoveBackBeforeWaitsAppend(a: seq<Event>, b: seq<Event>)
    requires MoveBackBeforeWaits(a) && MoveBackBeforeWaits(b)
    requires b == [] || !b[0].Sleep?
    ensures MoveBackBeforeWaits(a + b)
  {
    var t := a + b;
    forall p | 0 <= p < |t| && t[p].Sleep? ensures 0 < p && t[p - 1] == MoveBack {
      if p < |a| {
        assert t[p] == a[p];
      } else {
        assert t[p] == b[p - |a|];
      }
    }
  }
}
