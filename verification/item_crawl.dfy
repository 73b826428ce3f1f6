/**
  The per-item retry envelope of `crawl_data_from_page`. Each listed item
  gets up to twenty attempts. An attempt first checks whether the item's
  product file exists; if not, it opens the item, reads the product page,
  opens the company page, reads it, and writes the product file last. A
  failed attempt closes the overlay and backs off. The browser is replaced
  by one scripted `Visit` per attempt.
 */
module ItemCrawl {
  import opened Wrappers
  import opened Types
  import opened Records

  /** Attempts per item. */
  const ItemBudget: nat := 20
  /** Failed attempts followed by the short back-off; later ones wait long. */
  const ShortWaitAttempts: nat := 5
  /** The attempt count the exhaustion message reports, which is not the budget. */
  const ReportedBudget: nat := 10

  /** What the browser shows during one attempt; an item's script holds one per possible attempt. */
  datatype Visit = Visit(
    reachesItem: bool,      // move_to_item finds and clicks the item's link
    prodPage: ProdPage,     // the product page then shown
    reachesCompany: bool,   // move_to_company finds and clicks the company link
    compPage: CompPage)     // the company page then shown

  /** The steps of the `try` body that can raise: reach the item, read it, reach its company, read that. */
  const AttemptSteps: nat := 4

  /** Step `i` of an attempt goes through, stated over the pages rather than over the parsers. */
  ghost predicate StepGoesThrough(v: Visit, i: nat)
  {
    if i == 0 then v.reachesItem
    else if i == 1 then ProdPageReadable(v.prodPage)
    else if i == 2 then v.reachesCompany
    else CompPageReadable(v.compPage)
  }

  /** Steps `i` onwards of an attempt all go through. */
  ghost predicate StepsFrom(v: Visit, i: nat)
    decreases AttemptSteps - i
  {
    i >= AttemptSteps || (StepGoesThrough(v, i) && StepsFrom(v, i + 1))
  }

  /** Every step of an attempt goes through. */
  ghost predicate VisitSucceeds(v: Visit)
  {
    StepsFrom(v, 0)
  }

  /** The steps of a successful visit, spelled out. */
  lemma VisitSteps(v: Visit)
    ensures VisitSucceeds(v) <==> v.reachesItem && ProdPageReadable(v.prodPage) && v.reachesCompany && CompPageReadable(v.compPage)
  {
    assert StepsFrom(v, 0) <==> v.reachesItem && StepsFrom(v, 1);
    assert StepsFrom(v, 1) <==> ProdPageReadable(v.prodPage) && StepsFrom(v, 2);
    assert StepsFrom(v, 2) <==> v.reachesCompany && StepsFrom(v, 3);
    assert StepsFrom(v, 3) <==> CompPageReadable(v.compPage) && StepsFrom(v, 4);
  }

  /** The back-off after failed attempt `i`, counted from 0. */
  function Backoff(i: nat): nat
  {
    if i < ShortWaitAttempts then FailSleep else LongSleep
  }

  /** The product file's record: the product page's record with the company's licence number added. */
  function ProductRecord(p: ProdInfo, c: CompInfo): Fields
  {
    p.fields[CompanyLicenseField := c.license]
  }

  /** The body of the `try`: how far it got, the store after its writes, and its events. */
  datatype Tried = Tried(ok: bool, store: Store, trace: seq<Event>)

  /**
    Navigating, then writing files outside the product directory, then
    possibly one product file: the product directory gains that file only.
   */
  lemma StepWrites(nav: Event, docs: seq<(Key, Doc)>, last: seq<(Key, Doc)>, store: Store)
    requires !nav.Write? && !nav.Sleep?
    requires OutsideProducts(docs)
    requires |last| <= 1 && forall i :: 0 <= i < |last| ==> last[i].0.dir == Product
    ensures var t := [nav] + WriteEvents(docs) + WriteEvents(last);
      && ProductWrites(t) == (if last == [] then [] else [last[0].0])
      && Waits(t) == []
    ensures Products(Put(store, docs + last)) == (if last == [] then Products(store) else Products(store)[last[0].0 := last[0].1])
    ensures store.Keys <= Put(store, docs + last).Keys
  {
    SingleEvent(nav);
    PutOutsideProducts(store, docs);
    ProductWritesAppend([nav], WriteEvents(docs));
    WaitsAppend([nav], WriteEvents(docs));
    ProductWritesAppend([nav] + WriteEvents(docs), WriteEvents(last));
    WaitsAppend([nav] + WriteEvents(docs), WriteEvents(last));
    PutAppend(store, docs, last);
    if last != [] {
      assert WriteEvents(last) == [Write(last[0].0)] by { assert last[1..] == []; }
      SingleEvent(Write(last[0].0));
      assert Put(Put(store, docs), last) == Put(store, docs)[last[0].0 := last[0].1] by { assert last[1..] == []; }
      ProductsUpdate(Put(store, docs), last[0].0, last[0].1);
    }
  }

  /** The files the product page parser writes lie outside the product directory. */
  lemma ProdDocsOutside(roman: string, prod: ProdPage)
    requires CrawlProdInfo(roman, prod).Success?
    ensures OutsideProducts(CrawlProdInfo(roman, prod).value.docs)
  {
    var p := CrawlProdInfo(roman, prod).value;
    assert p.docs == SectionDocs(roman + "_" + p.itemNo, prod.sections);
  }

  /** The steps after the product page is read: company page, its files, then the product file. */
  function TryCompany(key: Key, roman: string, p: ProdInfo, v: Visit, store: Store): (r: Tried)
    requires key.dir == Product
    ensures r.ok <==> v.reachesCompany && CompPageReadable(v.compPage)
    ensures r.ok ==> Products(r.store) == Products(store)[key := Json(ProductRecord(p, ParseCompInfo(roman, p.itemNo, v.compPage).value))]
    ensures !r.ok ==> Products(r.store) == Products(store)
    ensures store.Keys <= r.store.Keys
    ensures ProductWrites(r.trace) == (if r.ok then [key] else [])
    ensures Waits(r.trace) == []
    ensures r.ok ==> EndsWith(r.trace, [Write(key)])
  {
    if !v.reachesCompany then Tried(false, store, [])
    else match ParseCompInfo(roman, p.itemNo, v.compPage)
      case Failure(_) =>
        SingleEvent(NavigateCompany);
        Tried(false, store, [NavigateCompany])
      case Success(c) => CompanyWrites(key, p, c, store)
  }

  /** After the company page is read: its files, then the product file with the licence number added. */
  function CompanyWrites(key: Key, p: ProdInfo, c: CompInfo, store: Store): (r: Tried)
    requires key.dir == Product && OutsideProducts(c.docs)
    ensures r.ok
    ensures Products(r.store) == Products(store)[key := Json(ProductRecord(p, c))]
    ensures store.Keys <= r.store.Keys
    ensures ProductWrites(r.trace) == [key] && Waits(r.trace) == []
    ensures EndsWith(r.trace, [Write(key)])
  {
    var last := [(key, Json(ProductRecord(p, c)))];
    StepWrites(NavigateCompany, c.docs, last, store);
    assert WriteEvents(last) == [Write(key)] by { assert last[1..] == []; }
    EndsWithAppend([NavigateCompany] + WriteEvents(c.docs), WriteEvents(last), [Write(key)]);
    Tried(true, Put(store, c.docs + last), [NavigateCompany] + WriteEvents(c.docs) + WriteEvents(last))
  }

  /** One pass through the `try` body for the item listed as `item` whose product file is `key`. */
  function TryVisit(key: Key, roman: string, item: ItemRef, v: Visit, store: Store): (r: Tried)
    requires key.dir == Product
    ensures r.ok <==> VisitSucceeds(v)
    ensures r.ok ==> Products(r.store) == Products(store)[key := Json(VisitRecord(roman, v))]
    ensures !r.ok ==> Products(r.store) == Products(store)
    ensures store.Keys <= r.store.Keys
    ensures ProductWrites(r.trace) == (if r.ok then [key] else [])
    ensures Waits(r.trace) == []
    ensures r.ok ==> EndsWith(r.trace, [Write(key)])
  {
    VisitSteps(v);
    if !v.reachesItem then Tried(false, store, [])
    else match CrawlProdInfo(roman, v.prodPage)
      case Failure(_) =>
        SingleEvent(NavigateItem(item.page));
        Tried(false, store, [NavigateItem(item.page)])
      case Success(p) =>
        ProdDocsOutside(roman, v.prodPage);
        StepWrites(NavigateItem(item.page), p.docs, [], store);
        assert p.docs + [] == p.docs;
        var t := [NavigateItem(item.page)] + WriteEvents(p.docs) + WriteEvents([]);
        var rest := TryCompany(key, roman, p, v, Put(store, p.docs));
        ProductWritesAppend(t, rest.trace);
        WaitsAppend(t, rest.trace);
        EndsWithAppend(t, rest.trace, [Write(key)]);
        Tried(rest.ok, rest.store, t + rest.trace)
  }

  /** The product record a successful visit writes. */
  ghost function VisitRecord(roman: string, v: Visit): Fields
    requires VisitSucceeds(v)
  {
    VisitSteps(v);
    var p := CrawlProdInfo(roman, v.prodPage).value;
    ProductRecord(p, ParseCompInfo(roman, p.itemNo, v.compPage).value)
  }

  /** How one attempt ended. */
  datatype Attempted =
    | Skipped                                       // the product file already exists
    | Completed(store: Store, trace: seq<Event>)    // written, overlay closed
    | Failed(store: Store, trace: seq<Event>)       // something raised: overlay closed, then a back-off

  /** Closing the overlay after a successful `try` body. */
  lemma CloseAfterSuccess(store: Store, body: seq<Event>, after: Store, key: Key, doc: Doc)
    requires key.dir == Product && key !in store
    requires ProductWrites(body) == [key] && Waits(body) == []
    requires Products(after) == Products(store)[key := doc] && store.Keys <= after.Keys
    ensures var t := body + [MoveBack];
      && Segment(store, t, after) && ProductWrites(t) == [key] && Waits(t) == []
      && MoveBackBeforeWaits(t) && t != [] && !t[0].Sleep?
    ensures key in after && after[key] == doc
  {
    var tail := [MoveBack];
    var t := body + tail;
    SingleEvent(MoveBack);
    ProductWritesAppend(body, tail);
    WaitsAppend(body, tail);
    SegmentWithProductWrite(store, t, after, key, doc);
    NoWaitsNoSleep(t);
  }

  /** The events of closing the overlay and backing off, after a `try` body that neither wrote a product file nor waited. */
  lemma FailureTail(body: seq<Event>, wait: nat)
    requires ProductWrites(body) == [] && Waits(body) == []
    ensures var t := body + [MoveBack, Sleep(wait)];
      && ProductWrites(t) == [] && Waits(t) == [wait]
      && MoveBackBeforeWaits(t) && t != [] && !t[0].Sleep?
  {
    var tail := [MoveBack, Sleep(wait)];
    var t := body + tail;
    TwoEvents(MoveBack, Sleep(wait));
    SingleEvent(MoveBack);
    SingleEvent(Sleep(wait));
    ProductWritesAppend(body, tail);
    WaitsAppend(body, tail);
    NoWaitsNoSleep(body);
    assert MoveBackBeforeWaits(tail) by {
      assert tail[0] == MoveBack;
    }
    MoveBackBeforeWaitsAppend(body, tail);
    assert t[0] == (if body == [] then MoveBack else body[0]);
  }

  /** Closing the overlay and backing off after a failed `try` body. */
  lemma CloseAfterFailure(store: Store, body: seq<Event>, after: Store, wait: nat)
    requires ProductWrites(body) == [] && Waits(body) == []
    requires Products(after) == Products(store) && store.Keys <= after.Keys
    ensures var t := body + [MoveBack, Sleep(wait)];
      && Segment(store, t, after) && ProductWrites(t) == [] && Waits(t) == [wait]
      && MoveBackBeforeWaits(t) && t != [] && !t[0].Sleep?
  {
    FailureTail(body, wait);
    SegmentWithoutProductWrite(store, body + [MoveBack, Sleep(wait)], after);
  }

  /**
    How attempt `i` at writing the product file `key` can end, given the
    store it starts from: it skips exactly when the file exists; otherwise
    it completes exactly when every step of the visit goes through, writing
    that file once as the visit's record; otherwise it leaves the file
    absent and the product directory as it was, and backs off once. Either
    way every wait comes right after a `move_back`.
   */
  ghost predicate AttemptEnds(key: Key, roman: string, v: Visit, store: Store, i: nat, r: Attempted)
  {
    && (r.Skipped? <==> key in store)
    && (r.Completed? <==> key !in store && VisitSucceeds(v))
    && (!r.Skipped? ==> Segment(store, r.trace, r.store))
    && (r.Completed? ==>
         && ProductWrites(r.trace) == [key]
         && key in r.store
         && r.store[key] == Json(VisitRecord(roman, v))
         && Waits(r.trace) == [])
    && (r.Failed? ==>
         && ProductWrites(r.trace) == []
         && Products(r.store) == Products(store)
         && key !in r.store
         && Waits(r.trace) == [Backoff(i)])
    && (!r.Skipped? ==> MoveBackBeforeWaits(r.trace) && r.trace != [] && !r.trace[0].Sleep?)
  }

  /**
    Attempt `i` for `item`: the existence check, the `try` body, and on
    success the closing `move_back`; on failure the `move_back` of the
    `except` branch and the back-off for attempt `i`.
   */
  function Attempt(key: Key, roman: string, item: ItemRef, v: Visit, store: Store, i: nat): (r: Attempted)
    requires key.dir == Product
    ensures AttemptEnds(key, roman, v, store, i, r)
    ensures r.Completed? ==> EndsWith(r.trace, [Write(key), MoveBack])
  {
    if key in store then Skipped
    else
      var body := TryVisit(key, roman, item, v, store);
      if body.ok then
        CloseAfterSuccess(store, body.trace, body.store, key, Json(VisitRecord(roman, v)));
        EndsWithExtend(body.trace, Write(key), MoveBack);
        Completed(body.store, body.trace + [MoveBack])
      else
        CloseAfterFailure(store, body.trace, body.store, Backoff(i));
        assert key !in Products(store);
        Failed(body.store, body.trace + [MoveBack, Sleep(Backoff(i))])
  }

  /** Attempts `k` onwards for one item: whether the item ended complete, how many attempts failed first, and the effects. */
  datatype ItemRun = ItemRun(ok: bool, failures: nat, store: Store, trace: seq<Event>)

  /** The back-off schedule of `n` failed attempts starting at attempt `k`. */
  function Schedule(k: nat, n: nat): (s: seq<nat>)
    ensures |s| == n
    decreases n
  {
    if n == 0 then [] else [Backoff(k)] + Schedule(k + 1, n - 1)
  }

  /** The schedule waits five seconds after each of the first five failed attempts of an item and twenty after each later one. */
  lemma {:induction false} ScheduleValues(k: nat, n: nat)
    ensures forall i :: 0 <= i < n ==> Schedule(k, n)[i] == (if k + i < ShortWaitAttempts then FailSleep else LongSleep)
    decreases n
  {
    if n > 0 {
      ScheduleValues(k + 1, n - 1);
      forall i | 0 < i < n ensures Schedule(k, n)[i] == Schedule(k + 1, n - 1)[i - 1] {
      }
    }
  }

  /** For each of the first `n` attempts, whether its visit would go through. */
  ghost function Successes(visits: seq<Visit>, n: nat): (ok: seq<bool>)
    requires n <= |visits|
    ensures |ok| == n
    decreases n
  {
    if n == 0 then [] else Successes(visits, n - 1) + [VisitSucceeds(visits[n - 1])]
  }

  lemma {:induction false} SuccessAt(visits: seq<Visit>, n: nat, j: nat)
    requires j < n <= |visits|
    ensures Successes(visits, n)[j] == VisitSucceeds(visits[j])
    decreases n
  {
    if j < n - 1 {
      SuccessAt(visits, n - 1, j);
    }
  }

  /** The first index from `j` on that holds `true`, or `|ok|` when none does. */
  function FirstTrue(ok: seq<bool>, j: nat): (f: nat)
    requires j <= |ok|
    ensures j <= f <= |ok|
    decreases |ok| - j
  {
    if j == |ok| then |ok| else if ok[j] then j else FirstTrue(ok, j + 1)
  }

  /** `FirstTrue` finds the earliest `true`, and runs off the end only when there is none. */
  lemma {:induction false} FirstTrueIsFirst(ok: seq<bool>, j: nat)
    requires j <= |ok|
    ensures var f := FirstTrue(ok, j);
      && (forall i :: j <= i < f ==> !ok[i])
      && (f < |ok| <==> exists i :: j <= i < |ok| && ok[i])
      && (f < |ok| ==> ok[f])
    decreases |ok| - j
  {
    if j < |ok| && !ok[j] {
      FirstTrueIsFirst(ok, j + 1);
    }
  }

  /** The first attempt from `j` on whose visit goes through, or the budget when none does. */
  ghost function FirstSuccess(visits: seq<Visit>, j: nat): (f: nat)
    requires |visits| == ItemBudget && j <= ItemBudget
  {
    FirstTrue(Successes(visits, ItemBudget), j)
  }

  lemma FirstSuccessIsFirst(visits: seq<Visit>, j: nat)
    requires |visits| == ItemBudget && j <= ItemBudget
    ensures var f := FirstSuccess(visits, j);
      && j <= f <= ItemBudget
      && (forall i :: j <= i < f ==> !VisitSucceeds(visits[i]))
      && (f < ItemBudget <==> exists i :: j <= i < ItemBudget && VisitSucceeds(visits[i]))
      && (f < ItemBudget ==> VisitSucceeds(visits[f]))
  {
    var ok := Successes(visits, ItemBudget);
    FirstTrueIsFirst(ok, j);
    forall i | 0 <= i < ItemBudget ensures ok[i] == VisitSucceeds(visits[i]) {
      SuccessAt(visits, ItemBudget, i);
    }
  }

  /** One step of the search for the first success. */
  lemma FirstSuccessStep(visits: seq<Visit>, k: nat)
    requires |visits| == ItemBudget && k < ItemBudget
    ensures FirstSuccess(visits, k) == if Successes(visits, ItemBudget)[k] then k else FirstSuccess(visits, k + 1)
  {
  }

  /**
    How the attempts from `k` on can end for the product file `key`: a file
    that already exists ends the loop at once, untouched; otherwise the loop
    fails exactly the attempts before the first visit that goes through, and
    ends with the file written exactly when such a visit comes within the
    budget.
   */
  ghost predicate RunOutcome(key: Key, visits: seq<Visit>, store: Store, k: nat, r: ItemRun)
    requires |visits| == ItemBudget && k <= ItemBudget
  {
    && (key in store ==> r == ItemRun(true, 0, store, []))
    && k + r.failures <= ItemBudget
    && (r.ok <==> key in r.store)
    && (key !in store ==>
         && k + r.failures == FirstSuccess(visits, k)
         && (r.ok <==> FirstSuccess(visits, k) < ItemBudget))
  }

  /**
    What the attempts from `k` on leave behind: the product file is written
    at most once, and only when it was missing and the loop succeeded; the
    waits follow the back-off schedule, each right after a `move_back`.
   */
  ghost predicate RunEffects(key: Key, store: Store, k: nat, r: ItemRun)
  {
    && ProductWrites(r.trace) == (if r.ok && key !in store then [key] else [])
    && Segment(store, r.trace, r.store)
    && Waits(r.trace) == Schedule(k, r.failures)
    && MoveBackBeforeWaits(r.trace) && (r.trace == [] || !r.trace[0].Sleep?)
  }

  /** A loop that writes the product file writes the record of the visit it ended on. */
  ghost predicate RunRecord(key: Key, roman: string, visits: seq<Visit>, store: Store, k: nat, r: ItemRun)
    requires |visits| == ItemBudget && k <= ItemBudget
  {
    r.ok && key !in store ==>
      && k + r.failures < ItemBudget
      && VisitSucceeds(visits[k + r.failures])
      && key in r.store
      && r.store[key] == Json(VisitRecord(roman, visits[k + r.failures]))
  }

  /** The retry loop of one item from attempt `k`, leaving at the first attempt that skips or completes. */
  function AttemptsFrom(key: Key, roman: string, item: ItemRef, visits: seq<Visit>, store: Store, k: nat): (r: ItemRun)
    requires key.dir == Product && |visits| == ItemBudget
    requires k <= ItemBudget && (k < ItemBudget || key !in store)
    ensures RunOutcome(key, visits, store, k, r) && RunEffects(key, store, k, r)
    ensures RunRecord(key, roman, visits, store, k, r)
    decreases ItemBudget - k
  {
    if k == ItemBudget then
      Exhausted(key, visits, store);
      ItemRun(false, 0, store, [])
    else
      SuccessAt(visits, ItemBudget, k);
      match Attempt(key, roman, item, visits[k], store, k)
      case Skipped =>
        Untouched(key, visits, store, k);
        ItemRun(true, 0, store, [])
      case Completed(s, t) =>
        CompletedStep(key, visits, store, k, s, t);
        CompletedRecord(key, roman, visits, store, k, s, t);
        ItemRun(true, 0, s, t)
      case Failed(s, t) =>
        var rest := AttemptsFrom(key, roman, item, visits, s, k + 1);
        FailedOutcome(key, visits, store, k, s, rest);
        FailedEffects(key, store, k, s, t, rest);
        FailedRecord(key, roman, visits, store, k, s, rest, t + rest.trace);
        ItemRun(rest.ok, rest.failures + 1, rest.store, t + rest.trace)
  }

  /** Running out of attempts leaves everything as it was. */
  lemma Exhausted(key: Key, visits: seq<Visit>, store: Store)
    requires |visits| == ItemBudget && key !in store
    ensures RunOutcome(key, visits, store, ItemBudget, ItemRun(false, 0, store, [])) && RunEffects(key, store, ItemBudget, ItemRun(false, 0, store, []))
  {
    assert Segment(store, [], store);
  }

  /** A product file that already exists ends the loop with nothing done. */
  lemma Untouched(key: Key, visits: seq<Visit>, store: Store, k: nat)
    requires |visits| == ItemBudget && k <= ItemBudget && key in store
    ensures RunOutcome(key, visits, store, k, ItemRun(true, 0, store, [])) && RunEffects(key, store, k, ItemRun(true, 0, store, []))
  {
    assert Segment(store, [], store);
  }

  /** An attempt that completes ends the loop. */
  lemma CompletedStep(key: Key, visits: seq<Visit>, store: Store, k: nat, s: Store, t: seq<Event>)
    requires |visits| == ItemBudget && k < ItemBudget && key !in store
    requires Successes(visits, ItemBudget)[k]
    requires Segment(store, t, s) && ProductWrites(t) == [key] && key in s && Waits(t) == []
    requires MoveBackBeforeWaits(t) && t != [] && !t[0].Sleep?
    ensures RunOutcome(key, visits, store, k, ItemRun(true, 0, s, t)) && RunEffects(key, store, k, ItemRun(true, 0, s, t))
  {
    FirstSuccessStep(visits, k);
  }

  /** A failed attempt followed by the rest of the loop: which attempt it ends on. */
  lemma FailedOutcome(key: Key, visits: seq<Visit>, store: Store, k: nat, s: Store, rest: ItemRun)
    requires |visits| == ItemBudget && k < ItemBudget && key !in store && key !in s
    requires !Successes(visits, ItemBudget)[k]
    requires RunOutcome(key, visits, s, k + 1, rest)
    ensures RunOutcome(key, visits, store, k, ItemRun(rest.ok, rest.failures + 1, rest.store, []))
  {
    FirstSuccessStep(visits, k);
  }

  /** A failed attempt followed by the rest of the loop: what they leave behind together. */
  lemma FailedEffects(key: Key, store: Store, k: nat, s: Store, t: seq<Event>, rest: ItemRun)
    requires key !in store && key !in s && (rest.ok <==> key in rest.store)
    requires Segment(store, t, s) && ProductWrites(t) == [] && Waits(t) == [Backoff(k)]
    requires MoveBackBeforeWaits(t) && t != [] && !t[0].Sleep?
    requires RunEffects(key, s, k + 1, rest)
    ensures RunEffects(key, store, k, ItemRun(rest.ok, rest.failures + 1, rest.store, t + rest.trace))
  {
    FailedThenRest(key, store, t, s, Backoff(k), rest, Schedule(k + 1, rest.failures));
  }

  /** A failed attempt that left the item incomplete, followed by the rest of the loop. */
  lemma FailedThenRest(key: Key, s0: Store, t: seq<Event>, s1: Store, wait: nat, rest: ItemRun, waits: seq<nat>)
    requires key !in s0 && key !in s1
    requires Segment(s0, t, s1) && ProductWrites(t) == [] && Waits(t) == [wait]
    requires MoveBackBeforeWaits(t) && t != [] && !t[0].Sleep?
    requires Segment(s1, rest.trace, rest.store) && (rest.ok <==> key in rest.store)
    requires ProductWrites(rest.trace) == (if rest.ok then [key] else [])
    requires Waits(rest.trace) == waits
    requires MoveBackBeforeWaits(rest.trace) && (rest.trace == [] || !rest.trace[0].Sleep?)
    ensures var trace := t + rest.trace;
      && Segment(s0, trace, rest.store)
      && ProductWrites(trace) == (if rest.ok then [key] else [])
      && Waits(trace) == [wait] + waits
      && MoveBackBeforeWaits(trace) && !trace[0].Sleep?
  {
    SegmentCompose(s0, t, s1, rest.trace, rest.store);
    ProductWritesAppend(t, rest.trace);
    WaitsAppend(t, rest.trace);
    MoveBackBeforeWaitsAppend(t, rest.trace);
  }

  lemma CompletedRecord(key: Key, roman: string, visits: seq<Visit>, store: Store, k: nat, s: Store, t: seq<Event>)
    requires |visits| == ItemBudget && k < ItemBudget && VisitSucceeds(visits[k])
    requires key in s && s[key] == Json(VisitRecord(roman, visits[k]))
    ensures RunRecord(key, roman, visits, store, k, ItemRun(true, 0, s, t))
  {
  }

  lemma FailedRecord(key: Key, roman: string, visits: seq<Visit>, store: Store, k: nat, s: Store, rest: ItemRun, t: seq<Event>)
    requires |visits| == ItemBudget && k < ItemBudget && key !in s
    requires RunRecord(key, roman, visits, s, k + 1, rest)
    ensures RunRecord(key, roman, visits, store, k, ItemRun(rest.ok, rest.failures + 1, rest.store, t))
  {
  }

  /** What a step that may raise did: the error it raised, if any, and its effects, which persist either way. */
  datatype Ran = Ran(error: Option<Error>, store: Store, trace: seq<Event>)

  /** Some visit from attempt `j` on goes through, read one attempt at a time. */
  ghost predicate ReachesFrom(visits: seq<Visit>, j: nat)
    requires j <= |visits|
    decreases |visits| - j
  {
    j < |visits| && (VisitSucceeds(visits[j]) || ReachesFrom(visits, j + 1))
  }

  /** Some visit of the item's script goes through (`SomeVisitSucceeds` states it over the visits). */
  ghost predicate Reaches(visits: seq<Visit>)
    requires |visits| == ItemBudget
  {
    ReachesFrom(visits, 0)
  }

  /** A visit from attempt `j` on goes through exactly when the search for the first success stops inside the budget. */
  lemma {:induction false} ReachesFromFirst(visits: seq<Visit>, j: nat)
    requires |visits| == ItemBudget && j <= ItemBudget
    ensures ReachesFrom(visits, j) <==> FirstSuccess(visits, j) < ItemBudget
    decreases ItemBudget - j
  {
    if j < ItemBudget {
      FirstSuccessStep(visits, j);
      SuccessAt(visits, ItemBudget, j);
      ReachesFromFirst(visits, j + 1);
    }
  }

  lemma SomeVisitSucceeds(visits: seq<Visit>)
    requires |visits| == ItemBudget
    ensures Reaches(visits) <==> exists j :: 0 <= j < ItemBudget && VisitSucceeds(visits[j])
  {
    ReachesFromFirst(visits, 0);
    FirstSuccessIsFirst(visits, 0);
  }

  /**
    What one listed item decides: it completes exactly when its product file
    existed already or one of its visits goes through, and otherwise raises
    the exhaustion error naming the item; an existing file costs one
    `move_back` and nothing else.
   */
  ghost predicate ItemResult(query: string, item: ItemRef, visits: seq<Visit>, store: Store, r: Ran)
    requires |visits| == ItemBudget
  {
    var key := ProductKey(query, item.itemNo);
    && (r.error.None? <==> key in r.store)
    && (r.error.None? <==> key in store || Reaches(visits))
    && (r.error.Some? ==> r.error.value == ItemExhausted(item.page, ReportedBudget))
    && (key in store ==> r == Ran(None, store, [MoveBack]))
    && store.Keys <= r.store.Keys
  }

  /**
    What one listed item leaves in the trace: the product file is written at
    most once and only when it was missing and the item completed; the waits
    of a missing file follow the back-off schedule up to its first good
    visit; every wait follows a `move_back`, and the final `move_back`
    always comes.
   */
  ghost predicate ItemEffects(query: string, item: ItemRef, visits: seq<Visit>, store: Store, r: Ran)
    requires |visits| == ItemBudget
  {
    var key := ProductKey(query, item.itemNo);
    && Segment(store, r.trace, r.store)
    && ProductWrites(r.trace) == (if r.error.None? && key !in store then [key] else [])
    && (key !in store ==> Waits(r.trace) == Schedule(0, FirstSuccess(visits, 0)))
    && MoveBackBeforeWaits(r.trace) && r.trace != []
    && r.trace[|r.trace| - 1] == MoveBack
  }

  /** The `for` loop of one item: its attempts from the first. */
  method RetryItem(key: Key, roman: string, item: ItemRef, visits: seq<Visit>, store: Store) returns (run: ItemRun)
    requires key.dir == Product && |visits| == ItemBudget
    ensures RunOutcome(key, visits, store, 0, run) && RunEffects(key, store, 0, run)
    ensures RunRecord(key, roman, visits, store, 0, run)
  {
    run := AttemptsFrom(key, roman, item, visits, store, 0);
  }

  /** One iteration of the loop over listed items: the retry loop, the unconditional `move_back`, and the raise on exhaustion. */
  method CrawlItem(query: string, roman: string, item: ItemRef, visits: seq<Visit>, store: Store) returns (r: Ran)
    requires |visits| == ItemBudget
    ensures ItemResult(query, item, visits, store, r)
    ensures ItemEffects(query, item, visits, store, r)
  {
    var key := ProductKey(query, item.itemNo);
    var run := RetryItem(key, roman, item, visits, store);
    r := Ran(if run.ok then None else Some(ItemExhausted(item.page, ReportedBudget)), run.store, run.trace + [MoveBack]);
    CloseRun(query, item, visits, store, run, r);
  }

  /** The unconditional `move_back` and the raise turn the loop's outcome into the item's. */
  lemma CloseRun(query: string, item: ItemRef, visits: seq<Visit>, store: Store, run: ItemRun, r: Ran)
    requires |visits| == ItemBudget
    requires var key := ProductKey(query, item.itemNo);
      RunOutcome(key, visits, store, 0, run) && RunEffects(key, store, 0, run)
    requires r == Ran(if run.ok then None else Some(ItemExhausted(item.page, ReportedBudget)), run.store, run.trace + [MoveBack])
    ensures ItemResult(query, item, visits, store, r)
    ensures ItemEffects(query, item, visits, store, r)
  {
    ItemOutcome(query, item, visits, store, run, r);
    ItemTrace(query, item, visits, store, run, r);
  }

  lemma ItemOutcome(query: string, item: ItemRef, visits: seq<Visit>, store: Store, run: ItemRun, r: Ran)
    requires |visits| == ItemBudget
    requires var key := ProductKey(query, item.itemNo);
      RunOutcome(key, visits, store, 0, run) && store.Keys <= run.store.Keys
    requires r == Ran(if run.ok then None else Some(ItemExhausted(item.page, ReportedBudget)), run.store, run.trace + [MoveBack])
    ensures ItemResult(query, item, visits, store, r)
  {
    ReachesFromFirst(visits, 0);
  }

  lemma ItemTrace(query: string, item: ItemRef, visits: seq<Visit>, store: Store, run: ItemRun, r: Ran)
    requires |visits| == ItemBudget
    requires var key := ProductKey(query, item.itemNo);
      RunEffects(key, store, 0, run) && (run.ok <==> key in run.store)
      && (key !in store ==> run.failures == FirstSuccess(visits, 0))
    requires r == Ran(if run.ok then None else Some(ItemExhausted(item.page, ReportedBudget)), run.store, run.trace + [MoveBack])
    ensures ItemEffects(query, item, visits, store, r)
  {
    CloseItem(store, run.trace, run.store);
  }

  /** The closing `move_back` adds no write and no wait to a trace. */
  lemma CloseItem(before: Store, t: seq<Event>, after: Store)
    requires Segment(before, t, after)
    requires MoveBackBeforeWaits(t) && (t == [] || !t[0].Sleep?)
    ensures var c := t + [MoveBack];
      && Segment(before, c, after)
      && ProductWrites(c) == ProductWrites(t) && Waits(c) == Waits(t)
      && MoveBackBeforeWaits(c) && !c[0].Sleep? && c[|c| - 1] == MoveBack
  {
    SingleEvent(MoveBack);
    assert Segment(after, [MoveBack], after);
    SegmentCompose(before, t, after, [MoveBack], after);
    ProductWritesAppend(t, [MoveBack]);
    WaitsAppend(t, [MoveBack]);
    MoveBackBeforeWaitsAppend(t, [MoveBack]);
  }
}
