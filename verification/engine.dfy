/**
  What `execute` promises: after the page size is widened, the first page is
  crawled up to five times until its item count reads; then the `while`
  loop alternates `pagination` and one crawl of the current page until
  `is_last_page` holds after a page that went through; finally every
  listing read in full is concatenated into the one consolidated file.
 */
module EngineSpec {
  import opened Wrappers
  import opened Types
  import opened Pager
  import opened ItemCrawl
  import opened PageSpec

  /** Tries of the first page. */
  const FirstPageBudget: nat := 5

  /** One pass of the `while` loop as the browser answers it: the pagination clicks, the page crawled, and the page-link bar afterwards. */
  datatype Round = Round(clicks: seq<bool>, page: PageScript, window: seq<Control>)

  /**
    Everything the browser answers during one `execute`: the page-size
    clicks, the five tries of the first page, the page-link bar after the
    first page, and the passes of the `while` loop.
   */
  datatype Script = Script(expand: seq<bool>, first: seq<PageScript>, window: seq<Control>, rounds: seq<Round>)

  predicate ScriptReadable(sc: Script)
  {
    && |sc.first| == FirstPageBudget
    && (forall i :: 0 <= i < |sc.first| ==> PageScripted(sc.first[i]))
    && (forall i :: 0 <= i < |sc.rounds| ==> PageScripted(sc.rounds[i].page))
  }

  /**
    The crawler between steps: `cur_page`, `cur_page_crawled`, the loop's
    `is_crawl_end`, `total_count` (`None` while never read), `df_list`, the
    output tree and the events so far.
   */
  datatype State = State(page: int, crawled: bool, ended: bool, total: Option<int>, store: Store, frames: seq<seq<ItemRef>>, trace: seq<Event>)

  /** `df["번호"].astype(int)` reads: the listing has rows, each with a number (`TotalCount` is defined exactly then). */
  predicate CountReads(items: seq<ItemRef>)
  {
    items != [] && forall i :: 0 <= i < |items| ==> items[i].number.Some?
  }

  /** `df["번호"].astype(int).max()`, `None` where it raises: on an empty listing, which has no such column, or a number that does not read as an integer. */
  function TotalCount(items: seq<ItemRef>): (r: Option<int>)
    ensures r.Some? <==> CountReads(items)
    ensures r.Some? ==> forall i :: 0 <= i < |items| ==> items[i].number.value <= r.value
    ensures r.Some? ==> exists i :: 0 <= i < |items| && items[i].number == r
    decreases |items|
  {
    if items == [] || items[0].number.None? then None
    else if |items| == 1 then items[0].number
    else
      var rest := TotalCount(items[1..]);
      assert forall i :: 1 <= i < |items| ==> items[i] == items[1..][i - 1];
      if rest.None? then None
      else
        var m := rest.value;
        var j :| 0 <= j < |items[1..]| && items[1..][j].number == rest;
        assert items[j + 1].number == rest;
        if items[0].number.value >= m then items[0].number else rest
  }

  /** The listings of `df_list` one after the other, as `pd.concat` stacks them. */
  function Concat(frames: seq<seq<ItemRef>>): seq<ItemRef>
    decreases |frames|
  {
    if frames == [] then [] else frames[0] + Concat(frames[1..])
  }

  /** A row is in the concatenation exactly when it is in one of the listings. */
  lemma {:induction false} ConcatRows(frames: seq<seq<ItemRef>>, x: ItemRef)
    ensures x in Concat(frames) <==> exists f :: 0 <= f < |frames| && x in frames[f]
    decreases |frames|
  {
    if frames != [] {
      ConcatRows(frames[1..], x);
      assert forall f :: 1 <= f < |frames| ==> frames[f] == frames[1..][f - 1];
      if x in Concat(frames[1..]) {
        var f :| 0 <= f < |frames[1..]| && x in frames[1..][f];
        assert x in frames[f + 1];
      }
    }
  }

  /** The consolidated file of the run, `{query_roman}.parquet`. */
  function ConsolidatedKey(roman: string): (k: Key)
    ensures k.dir != Product
  {
    Key(Consolidated, roman)
  }

  /** Every row of every listing kept in `df_list` has its product file. */
  ghost predicate Framed(query: string, frames: seq<seq<ItemRef>>, store: Store)
  {
    forall f :: 0 <= f < |frames| ==> AllDone(query, frames[f], store)
  }

  /**
    What holds between the steps of `execute` started on the output tree
    `store0`: the page is a real page and stays the first while the count
    was never read; the loop is never stopped while the current page is
    marked uncrawled (after the first page the mark is set whether or not
    one of its tries went through, so the run can stop with no listing
    kept); product files are written at most once and never changed; and
    every listing kept has all its product files.
   */
  ghost predicate Sound(query: string, store0: Store, s: State)
  {
    && 1 <= s.page
    && (s.total.None? ==> s.page == 1)
    && (s.ended ==> s.crawled)
    && Segment(store0, s.trace, s.store)
    && Framed(query, s.frames, s.store)
  }

  /** A try whose listing reads and whose every item has its product file or a visit that goes through. */
  ghost predicate Completes(query: string, p: PageScript, store: Store)
  {
    && PageScripted(p) && p.listing.Some?
    && Completable(query, p.listing.value, p.visits, store)
  }

  /** The state after one crawl of a page: its output tree and events, its listing kept when it went through, and the `tail` that follows. */
  function Crawled(s: State, r: Ran, listing: Option<seq<ItemRef>>, tail: seq<Event>): State
    requires r.error.None? ==> listing.Some?
  {
    s.(store := r.store, frames := s.frames + (if r.error.None? then [listing.value] else []), trace := s.trace + r.trace + tail)
  }

  /** A try of the first page that completes against `store` and whose item count reads. */
  ghost predicate Settles(query: string, p: PageScript, store: Store)
  {
    Completes(query, p, store) && CountReads(p.listing.value)
  }

  /** None of tries `lo` to `k - 1` settles against `store`. */
  ghost predicate NoneSettles(query: string, tries: seq<PageScript>, lo: nat, k: nat, store: Store)
    requires lo <= k <= |tries|
    decreases k
  {
    k == lo || (NoneSettles(query, tries, lo, k - 1, store) && !Settles(query, tries[k - 1], store))
  }

  lemma {:induction false} NoneSettlesEach(query: string, tries: seq<PageScript>, lo: nat, k: nat, store: Store, j: nat)
    requires lo <= j < k <= |tries| && NoneSettles(query, tries, lo, k, store)
    ensures !Settles(query, tries[j], store)
    decreases k
  {
    if j < k - 1 {
      NoneSettlesEach(query, tries, lo, k - 1, store, j);
    }
  }

  /** `x` is the listing of one of tries `lo` to `k - 1`. */
  ghost predicate ListedBy(tries: seq<PageScript>, lo: nat, k: nat, x: seq<ItemRef>)
    requires lo <= k <= |tries|
    decreases k
  {
    lo < k && (tries[k - 1].listing == Some(x) || ListedBy(tries, lo, k - 1, x))
  }

  lemma {:induction false} ListedWiden(tries: seq<PageScript>, lo: nat, k: nat, m: nat, x: seq<ItemRef>)
    requires lo <= k <= m <= |tries| && ListedBy(tries, lo, k, x)
    ensures ListedBy(tries, lo, m, x)
    decreases m
  {
    if k < m {
      ListedWiden(tries, lo, k, m - 1, x);
    }
  }

  /** After try `k`, which kept its listing or nothing, every listing kept from `from` on is one of tries `lo` to `m - 1`. */
  lemma ListedAfterTry(tries: seq<PageScript>, lo: nat, k: nat, m: nat, from: nat, before: seq<seq<ItemRef>>, after: seq<seq<ItemRef>>)
    requires lo <= k < m <= |tries| && from <= |before|
    requires forall i :: from <= i < |before| ==> ListedBy(tries, lo, k, before[i])
    requires after == before || (tries[k].listing.Some? && after == before + [tries[k].listing.value])
    ensures forall i :: from <= i < |after| ==> ListedBy(tries, lo, m, after[i])
  {
    forall i | from <= i < |after| ensures ListedBy(tries, lo, m, after[i]) {
      if i < |before| {
        assert after[i] == before[i];
        ListedWiden(tries, lo, k, m, after[i]);
      } else {
        ListedWiden(tries, lo, k + 1, m, after[i]);
      }
    }
  }

  lemma {:induction false} ListedByWitness(tries: seq<PageScript>, lo: nat, k: nat, x: seq<ItemRef>)
    requires lo <= k <= |tries| && ListedBy(tries, lo, k, x)
    ensures exists j :: lo <= j < k && tries[j].listing == Some(x)
    decreases k
  {
    if tries[k - 1].listing != Some(x) {
      ListedByWitness(tries, lo, k - 1, x);
    }
  }

  /** Completing a try needs only files that are there: it stays complete as files are added. */
  lemma CompletesLater(query: string, p: PageScript, store: Store, later: Store)
    requires Completes(query, p, store) && store.Keys <= later.Keys
    ensures Completes(query, p, later)
  {
  }

  /** A stretch that writes no product file and leaves the output tree alone. */
  lemma Quiet(store: Store, t: seq<Event>)
    requires ProductWrites(t) == []
    ensures Segment(store, t, store)
  {
    SegmentWithoutProductWrite(store, t, store);
  }

  lemma SleepQuiet(store: Store)
    ensures Segment(store, [Sleep(FailSleep)], store)
  {
    SingleEvent(Sleep(FailSleep));
    Quiet(store, [Sleep(FailSleep)]);
  }

  /** A crawl of a page, and the waits that follow it, keep the run sound; a page that went through adds its listing with all its product files. */
  lemma AfterCrawl(query: string, store0: Store, s: State, r: Ran, listing: Option<seq<ItemRef>>, tail: seq<Event>)
    requires Sound(query, store0, s)
    requires ItemsTrace(s.store, r)
    requires r.error.None? ==> listing.Some? && AllDone(query, listing.value, r.store)
    requires Segment(r.store, tail, r.store)
    ensures Sound(query, store0, Crawled(s, r, listing, tail))
  {
    var t := Crawled(s, r, listing, tail);
    SegmentCompose(store0, s.trace, s.store, r.trace, r.store);
    SegmentCompose(store0, s.trace + r.trace, r.store, tail, r.store);
    assert s.trace + r.trace + tail == t.trace;
    forall f | 0 <= f < |t.frames| ensures AllDone(query, t.frames[f], t.store) {
      if f < |s.frames| {
        assert t.frames[f] == s.frames[f];
        assert AllDone(query, s.frames[f], s.store);
      }
    }
  }

  /** A run stays sound through `pagination`, which writes nothing and leaves the first page only once the count was read. */
  lemma AfterPaginate(query: string, store0: Store, s: State, p: Paged)
    requires Sound(query, store0, s) && !s.ended
    requires p.page == s.page || (s.total.Some? && p.page == s.page + 1)
    requires ProductWrites(p.trace) == []
    ensures Sound(query, store0, s.(page := p.page, crawled := false, trace := s.trace + p.trace))
  {
    Quiet(s.store, p.trace);
    SegmentCompose(store0, s.trace, s.store, p.trace, s.store);
  }

  /** The consolidated write keeps the run sound and puts every kept row in the consolidated file, each with its product file. */
  lemma AfterConsolidate(query: string, roman: string, store0: Store, s: State)
    requires Sound(query, store0, s)
    ensures var k := ConsolidatedKey(roman);
      var t := s.(store := s.store[k := Listing(Concat(s.frames))], trace := s.trace + [Write(k)]);
      && Sound(query, store0, t)
      && forall x :: x in Concat(s.frames) ==> ProductKey(query, x.itemNo) in t.store
  {
    var k := ConsolidatedKey(roman);
    var docs := [(k, Listing(Concat(s.frames)))];
    var after := s.store[k := Listing(Concat(s.frames))];
    assert Put(s.store, docs) == after by { assert docs[1..] == []; }
    PutOutsideProducts(s.store, docs);
    assert WriteEvents(docs) == [Write(k)] by { assert docs[1..] == []; }
    SegmentWithoutProductWrite(s.store, [Write(k)], after);
    SegmentCompose(store0, s.trace, s.store, [Write(k)], after);
    forall x | x in Concat(s.frames) ensures ProductKey(query, x.itemNo) in after {
      ConcatRows(s.frames, x);
      var f :| 0 <= f < |s.frames| && x in s.frames[f];
      var i :| 0 <= i < |s.frames[f]| && s.frames[f][i] == x;
      assert AllDone(query, s.frames[f], s.store);
      assert ItemKey(query, s.frames[f][i]) in s.store;
    }
  }
}

/** `execute`: the first page, the `while` loop over the later pages, and `to_parquet_df_list`. */
module Engine {
  import opened Wrappers
  import opened Types
  import opened Pager
  import opened ItemCrawl
  import opened PageSpec
  import opened PageCrawl
  import opened EngineSpec

  /**
    One call of `crawl_data_from_page` on the current page: a page that
    goes through keeps its listing in `df_list`. It goes through whenever
    its listing reads and every listed item has its product file or a visit
    that goes through.
   */
  method CrawlOnce(query: string, roman: string, ghost store0: Store, p: PageScript, s: State) returns (t: State, ok: bool)
    requires PageScripted(p) && Sound(query, store0, s) && !s.ended
    ensures Sound(query, store0, t)
    ensures t.page == s.page && t.total == s.total && t.crawled == s.crawled && !t.ended
    ensures ok ==> p.listing.Some? && t.frames == s.frames + [p.listing.value]
    ensures !ok ==> t.frames == s.frames
    ensures Completes(query, p, s.store) ==> ok
    ensures s.store.Keys <= t.store.Keys
  {
    var r := CrawlPage(query, roman, p, s.store);
    Quiet(r.store, []);
    AfterCrawl(query, store0, s, r, p.listing, []);
    t, ok := Crawled(s, r, p.listing, []), r.error.None?;
  }

  /** The `fail_sleep` wait after a failed try. */
  method Wait(query: string, ghost store0: Store, s: State) returns (t: State)
    requires Sound(query, store0, s)
    ensures Sound(query, store0, t)
    ensures t == s.(trace := s.trace + [Sleep(FailSleep)])
  {
    SleepQuiet(s.store);
    SegmentCompose(store0, s.trace, s.store, [Sleep(FailSleep)], s.store);
    t := s.(trace := s.trace + [Sleep(FailSleep)]);
  }

  /**
    One try of the first page: the page is crawled, its listing kept when
    it went through, and the try is done when the item count of that
    listing also reads; otherwise it waits `fail_sleep`.
   */
  method FirstTry(query: string, roman: string, ghost store0: Store, p: PageScript, s: State) returns (t: State, done: bool)
    requires PageScripted(p) && Sound(query, store0, s) && s.total.None? && !s.ended
    ensures Sound(query, store0, t)
    ensures t.page == s.page && t.crawled == s.crawled && t.ended == s.ended
    ensures s.store.Keys <= t.store.Keys
    ensures done <==> t.total.Some?
    ensures done ==> p.listing.Some? && t.frames == s.frames + [p.listing.value] && t.total == TotalCount(p.listing.value)
    ensures !done ==> t.frames == s.frames || (p.listing.Some? && t.frames == s.frames + [p.listing.value])
    ensures Settles(query, p, s.store) ==> done
  {
    var next, ok := CrawlOnce(query, roman, store0, p, s);
    var total := if ok then TotalCount(p.listing.value) else None;
    if total.Some? {
      t, done := next.(total := total), true;
    } else {
      t := Wait(query, store0, next);
      done := false;
    }
  }

  /**
    Tries `lo` onward of the first page, after earlier tries that took the
    output tree on from `base`: the loop ends at the first try whose
    listing and item count read, and a try that settles against `base` is
    never passed over.
   */
  method TriesFrom(query: string, roman: string, ghost store0: Store, ghost base: Store, tries: seq<PageScript>, lo: nat, s: State) returns (t: State)
    requires lo <= |tries| && forall i :: 0 <= i < |tries| ==> PageScripted(tries[i])
    requires Sound(query, store0, s) && s.total.None? && !s.ended && base.Keys <= s.store.Keys
    ensures Sound(query, store0, t)
    ensures t.page == s.page && t.crawled == s.crawled && t.ended == s.ended
    ensures |s.frames| <= |t.frames| && t.frames[..|s.frames|] == s.frames
    ensures t.total.Some? ==> |s.frames| < |t.frames| && t.total == TotalCount(t.frames[|t.frames| - 1])
    ensures lo < |tries| && Settles(query, tries[lo], base) ==>
      t.total == TotalCount(tries[lo].listing.value) && t.frames == s.frames + [tries[lo].listing.value]
    ensures t.total.None? ==> NoneSettles(query, tries, lo, |tries|, base)
    ensures forall i :: |s.frames| <= i < |t.frames| ==> ListedBy(tries, lo, |tries|, t.frames[i])
  {
    t := s;
    var k := lo;
    while k < |tries|
      invariant lo <= k <= |tries|
      invariant Sound(query, store0, t) && t.total.None?
      invariant t.page == s.page && t.crawled == s.crawled && t.ended == s.ended
      invariant |s.frames| <= |t.frames| && t.frames[..|s.frames|] == s.frames
      invariant k == lo ==> t.frames == s.frames
      invariant base.Keys <= t.store.Keys
      invariant NoneSettles(query, tries, lo, k, base)
      invariant lo < k ==> !Settles(query, tries[lo], base)
      invariant forall i :: |s.frames| <= i < |t.frames| ==> ListedBy(tries, lo, k, t.frames[i])
    {
      if Settles(query, tries[k], base) {
        CompletesLater(query, tries[k], base, t.store);
      }
      var next, done := FirstTry(query, roman, store0, tries[k], t);
      assert next.frames[..|s.frames|] == s.frames by {
        assert next.frames[..|t.frames|] == t.frames;
      }
      ListedAfterTry(tries, lo, k, if done then |tries| else k + 1, |s.frames|, t.frames, next.frames);
      t := next;
      if done {
        return;
      }
      k := k + 1;
    }
  }

  /**
    The five tries of the first page: a try that reads the page in full
    keeps its listing, and the loop ends at the first try whose item count
    also reads; every other try waits `fail_sleep`. The raise after the
    loop is unreachable, so running out of tries is silent and leaves the
    count unread.
   */
  method FirstPage(query: string, roman: string, ghost store0: Store, tries: seq<PageScript>, s: State) returns (t: State)
    requires |tries| == FirstPageBudget && forall i :: 0 <= i < |tries| ==> PageScripted(tries[i])
    requires Sound(query, store0, s) && s.total.None? && !s.ended
    ensures Sound(query, store0, t)
    ensures t.page == s.page && t.crawled == s.crawled && t.ended == s.ended
    ensures |s.frames| <= |t.frames| && t.frames[..|s.frames|] == s.frames
    ensures t.total.Some? ==> |s.frames| < |t.frames| && t.total == TotalCount(t.frames[|t.frames| - 1])
    ensures Settles(query, tries[0], s.store) ==>
      t.total == TotalCount(tries[0].listing.value) && t.frames == s.frames + [tries[0].listing.value]
    ensures (exists k :: 0 <= k < |tries| && Settles(query, tries[k], s.store)) ==> t.total.Some?
    ensures forall i :: |s.frames| <= i < |t.frames| ==> exists k :: 0 <= k < |tries| && tries[k].listing == Some(t.frames[i])
  {
    t := TriesFrom(query, roman, store0, s.store, tries, 0, s);
    if t.total.None? {
      forall j | 0 <= j < |tries| ensures !Settles(query, tries[j], s.store) {
        NoneSettlesEach(query, tries, 0, |tries|, s.store, j);
      }
    }
    forall i | |s.frames| <= i < |t.frames|
      ensures exists k :: 0 <= k < |tries| && tries[k].listing == Some(t.frames[i])
    {
      ListedByWitness(tries, 0, |tries|, t.frames[i]);
    }
  }

  /** `pagination`: the page moves on by one exactly when the count was read and one of its three clicks went through. */
  method Turn(query: string, ghost store0: Store, clicks: seq<bool>, s: State) returns (t: State)
    requires Sound(query, store0, s) && !s.ended
    ensures Sound(query, store0, t)
    ensures t.total == s.total && t.frames == s.frames && !t.crawled && !t.ended
    ensures t.store == s.store
    ensures t.page == s.page || t.page == s.page + 1
    ensures t.page == s.page + 1 <==> s.total.Some? && exists j :: 0 <= j < PaginationBudget && OkAt(clicks, j)
  {
    var paged := Paginate(s.total, s.page, clicks);
    AfterPaginate(query, store0, s, paged);
    t := s.(page := paged.page, crawled := false, trace := s.trace + paged.trace);
  }

  /**
    One pass of the `while` loop: after a page that went through,
    `pagination` first; then one crawl of the current page, which on
    success marks the page crawled, keeps its listing and asks
    `is_last_page`, and on failure waits `fail_sleep`. When `pagination`
    fails the same page is crawled again and its listing kept once more.
   */
  method Pass(query: string, roman: string, ghost store0: Store, rd: Round, s: State) returns (t: State)
    requires PageScripted(rd.page) && Sound(query, store0, s) && !s.ended
    ensures Sound(query, store0, t)
    ensures t.total == s.total
    ensures t.page == s.page || t.page == s.page + 1
    ensures t.page == s.page + 1 <==> s.crawled && s.total.Some? && exists j :: 0 <= j < PaginationBudget && OkAt(rd.clicks, j)
    ensures t.crawled ==> rd.page.listing.Some? && t.frames == s.frames + [rd.page.listing.value]
    ensures !t.crawled ==> t.frames == s.frames
    ensures Completes(query, rd.page, s.store) ==> t.crawled
    ensures t.ended <==> t.crawled && IsLastPage(t.page, rd.window)
  {
    t := s;
    if t.crawled {
      t := Turn(query, store0, rd.clicks, t);
    }
    var ok;
    t, ok := CrawlOnce(query, roman, store0, rd.page, t);
    if ok {
      t := t.(crawled := true, ended := IsLastPage(t.page, rd.window));
    } else {
      t := Wait(query, store0, t);
    }
  }

  /**
    The `while` loop, for as many passes as `rounds` scripts: it stops once
    the crawl has ended, or when the script runs out (`n == |rounds|`)
    with the crawl still going, where the program would go on looping.
   */
  method Passes(query: string, roman: string, ghost store0: Store, rounds: seq<Round>, s: State) returns (t: State, n: nat)
    requires forall i :: 0 <= i < |rounds| ==> PageScripted(rounds[i].page)
    requires Sound(query, store0, s)
    ensures Sound(query, store0, t)
    ensures n <= |rounds| && (t.ended || n == |rounds|)
    ensures s.ended ==> n == 0 && t == s
    ensures t.total == s.total && s.page <= t.page
    ensures |s.frames| <= |t.frames| && t.frames[..|s.frames|] == s.frames
    ensures t.ended && !s.ended ==> 0 < n && t.crawled && IsLastPage(t.page, rounds[n - 1].window)
  {
    t, n := s, 0;
    while !t.ended && n < |rounds|
      invariant n <= |rounds| && Sound(query, store0, t)
      invariant s.ended ==> n == 0 && t == s
      invariant t.total == s.total && s.page <= t.page
      invariant |s.frames| <= |t.frames| && t.frames[..|s.frames|] == s.frames
      invariant t.ended && !s.ended ==> 0 < n && t.crawled && IsLastPage(t.page, rounds[n - 1].window)
    {
      var next := Pass(query, roman, store0, rounds[n], t);
      assert next.frames[..|s.frames|] == s.frames by {
        assert next.frames[..|t.frames|] == t.frames;
      }
      t, n := next, n + 1;
    }
  }

  /** What `execute` leaves: whether the loop ended within the script, the error of `to_parquet_df_list`, and the crawler's state. */
  datatype Outcome = Outcome(finished: bool, error: Option<Error>, state: State)

  /**
    `execute` over the output tree `store` a previous run may have left. It
    keeps every product file that was there and writes each missing one at
    most once; it never leaves the first page unless the item count was
    read; and once the loop ends it writes the consolidated file of every
    listing read in full, each of whose rows then has its product file, or
    raises when there is no such listing.
   */
  method Execute(query: string, roman: string, sc: Script, store: Store) returns (o: Outcome)
    requires ScriptReadable(sc)
    ensures Sound(query, store, o.state)
    ensures o.finished <==> o.state.ended
    ensures o.finished ==> (o.error.None? <==> o.state.frames != [])
    ensures o.finished && o.error.None? ==>
      && ConsolidatedKey(roman) in o.state.store
      && o.state.store[ConsolidatedKey(roman)] == Listing(Concat(o.state.frames))
      && forall x :: x in Concat(o.state.frames) ==> ProductKey(query, x.itemNo) in o.state.store
    ensures !o.finished ==> o.error.None?
    ensures o.finished ==>
      && o.state.crawled
      && (IsLastPage(o.state.page, sc.window) || exists i :: 0 <= i < |sc.rounds| && IsLastPage(o.state.page, sc.rounds[i].window))
  {
    var expanded := ExpandPageSize(sc.expand);
    Quiet(store, expanded.trace);
    var s := State(1, false, false, None, store, [], expanded.trace);
    s := FirstPage(query, roman, store, sc.first, s);
    s := s.(crawled := true, ended := IsLastPage(s.page, sc.window));
    var n;
    s, n := Passes(query, roman, store, sc.rounds, s);
    if !s.ended {
      o := Outcome(false, None, s);
    } else if s.frames == [] {
      o := Outcome(true, Some(NothingToConcatenate), s);
    } else {
      AfterConsolidate(query, roman, store, s);
      var k := ConsolidatedKey(roman);
      o := Outcome(true, None, s.(store := s.store[k := Listing(Concat(s.frames))], trace := s.trace + [Write(k)]));
    }
  }
}
