/**
  Moving through the search-result pages: which page-link slot `pagination`
  clicks, which slot `is_last_page` probes, and the bounded click retries of
  `pagination` and `expand_50_items`. The page-link bar is given as a window
  of controls, position `p` (the `li[p]` of the bar, counted from 1) being
  `window[p - 1]`; a browser click is a scripted outcome.
 */
module Pager {
  import opened Wrappers
  import opened Types

  /** What sits at one position of the page-link bar: a clickable link, or a plain label (a `span`). */
  datatype Control = PageLink | PageLabel

  /** Attempts of `pagination`. */
  const PaginationBudget: nat := 3
  /** Attempts of `expand_50_items`. */
  const ExpandBudget: nat := 5
  /** The "next" slot, clicked at the two hard-coded boundary bands. */
  const NextSlot: int := 7

  /** The boundary bands: 201 to 250 items on page 4, or 251 to 300 items on page 5. */
  predicate InBand(total: int, cur: int)
  {
    || (200 < total <= 250 && cur == 4)
    || (250 < total <= 300 && cur == 5)
  }

  /** The page-link slot `pagination` clicks to leave page `cur` when the listing reports `total` items. */
  function PaginationSlot(total: int, cur: int): (slot: int)
    ensures slot == NextSlot <==> InBand(total, cur)
    ensures !InBand(total, cur) && cur < 4 ==> slot == cur + 2
    ensures !InBand(total, cur) && 4 <= cur ==> slot == 5
    ensures 1 <= cur ==> 3 <= slot <= NextSlot
  {
    if 200 < total <= 250 && cur == 4 then NextSlot
    else if 250 < total <= 300 && cur == 5 then NextSlot
    else if cur < 4 then cur + 2
    else 5
  }

  /** The position `is_last_page` inspects on page `cur`. */
  function ProbePosition(cur: int): (p: int)
    ensures cur <= 5 ==> p == cur + 2
    ensures 5 < cur ==> p == 6
    ensures p <= 7
  {
    if cur <= 5 then cur + 2 else 6
  }

  /** Position `p` of the bar exists and is a label rather than a link. */
  predicate LabelAt(window: seq<Control>, p: int)
  {
    1 <= p <= |window| && window[p - 1] == PageLabel
  }

  /**
    `is_last_page`: the probed position exists and is a label rather than a
    link; a missing position reads as "not last". Measured against the link
    `pagination` would click next: on pages 1 to 3 the page is last exactly
    when that link is a label; on page 5 exactly when the "next" slot is; on
    page 4 and past page 5 (outside the boundary bands) exactly when the
    position just after it is.
   */
  function IsLastPage(cur: int, window: seq<Control>): (last: bool)
    ensures 1 <= cur <= 3 ==> forall total :: last <==> LabelAt(window, PaginationSlot(total, cur))
    ensures cur == 5 ==> (last <==> LabelAt(window, NextSlot))
    ensures 4 <= cur && cur != 5 ==>
      forall total :: !InBand(total, cur) ==> (last <==> LabelAt(window, PaginationSlot(total, cur) + 1))
  {
    LabelAt(window, ProbePosition(cur))
  }

  /**
    Whether the link `pagination` clicks is the very position `is_last_page`
    inspects: so on the first three pages, where a label in that position
    ends the crawl, and on page 5 of a 251-300 item listing; never on page 4,
    nor past page 5, where the bar has shifted.
   */
  lemma SlotMeetsProbe(total: int, cur: int)
    requires 1 <= cur
    ensures PaginationSlot(total, cur) == ProbePosition(cur) <==> cur <= 3 || (cur == 5 && InBand(total, cur))
  {
  }

  /** The outcome of attempt `j` of a scripted retry; a missing entry is a failure. */
  predicate OkAt(ok: seq<bool>, j: int)
  {
    0 <= j < |ok| && ok[j]
  }

  /** `n` back-off waits of `seconds` each. */
  function Sleeps(seconds: nat, n: nat): (t: seq<Event>)
    ensures |t| == n
    ensures forall i :: 0 <= i < n ==> t[i] == Sleep(seconds)
    decreases n
  {
    if n == 0 then [] else [Sleep(seconds)] + Sleeps(seconds, n - 1)
  }

  lemma {:induction false} SleepsWaits(seconds: nat, n: nat)
    ensures Waits(Sleeps(seconds, n)) == seq(n, _ => seconds)
    ensures PageClicks(Sleeps(seconds, n)) == []
    ensures ProductWrites(Sleeps(seconds, n)) == []
    decreases n
  {
    if n > 0 {
      SleepsWaits(seconds, n - 1);
      var t := Sleeps(seconds, n);
      assert t[1..] == Sleeps(seconds, n - 1);
    }
  }

  /** What a bounded retry did: whether an attempt succeeded, how many failed first, and the events. */
  datatype Retried = Retried(succeeded: bool, failures: nat, trace: seq<Event>)

  /**
    Attempts `k` to `budget - 1` of a loop that performs `done` on the first
    successful attempt and otherwise waits `wait` seconds, falling out of the
    loop silently when the budget is spent.
   */
  function RetryFrom(ok: seq<bool>, budget: nat, wait: nat, done: Event, k: nat): (r: Retried)
    requires k <= budget
    ensures r.succeeded <==> exists j :: k <= j < budget && OkAt(ok, j)
    ensures r.succeeded ==> k + r.failures < budget && OkAt(ok, k + r.failures)
    ensures !r.succeeded ==> r.failures == budget - k
    ensures forall j :: k <= j < k + r.failures ==> !OkAt(ok, j)
    ensures r.trace == Sleeps(wait, r.failures) + (if r.succeeded then [done] else [])
    decreases budget - k
  {
    if k == budget then Retried(false, 0, [])
    else if OkAt(ok, k) then Retried(true, 0, [done])
    else
      var rest := RetryFrom(ok, budget, wait, done, k + 1);
      Retried(rest.succeeded, rest.failures + 1, [Sleep(wait)] + rest.trace)
  }

  /** The retry loop from its first attempt. */
  function Retry(ok: seq<bool>, budget: nat, wait: nat, done: Event): (r: Retried)
    ensures r.succeeded <==> exists j :: 0 <= j < budget && OkAt(ok, j)
    ensures r.succeeded ==> r.failures < budget && OkAt(ok, r.failures)
    ensures !r.succeeded ==> r.failures == budget
    ensures forall j :: 0 <= j < r.failures ==> !OkAt(ok, j)
    ensures r.trace == Sleeps(wait, r.failures) + (if r.succeeded then [done] else [])
  {
    RetryFrom(ok, budget, wait, done, 0)
  }

  /** The waits and clicks of a retry: one wait per failed attempt, then at most the one action. */
  lemma RetryObservations(r: Retried, wait: nat, done: Event)
    requires r.trace == Sleeps(wait, r.failures) + (if r.succeeded then [done] else [])
    requires !done.Sleep? && !done.Write?
    ensures Waits(r.trace) == seq(r.failures, _ => wait)
    ensures PageClicks(r.trace) == (if r.succeeded && done.ClickPageLink? then [done.slot] else [])
    ensures ProductWrites(r.trace) == []
  {
    var tail: seq<Event> := if r.succeeded then [done] else [];
    SleepsWaits(wait, r.failures);
    WaitsAppend(Sleeps(wait, r.failures), tail);
    PageClicksAppend(Sleeps(wait, r.failures), tail);
    ProductWritesAppend(Sleeps(wait, r.failures), tail);
    if r.succeeded {
      assert Waits(tail) == Waits([]) + [] by { assert tail[1..] == []; }
      assert PageClicks(tail) == (if done.ClickPageLink? then [done.slot] else []) by { assert tail[1..] == []; }
      assert ProductWrites(tail) == [] by { assert tail[1..] == []; }
    }
  }

  /** What `pagination` leaves behind: the page now current and the events. */
  datatype Paged = Paged(page: int, trace: seq<Event>)

  /**
    `pagination` on page `cur`, `total` being the item count read from the
    first page (`None` while it was never read, in which case every attempt
    raises on the missing attribute before any click). `clicks[j]` says
    whether attempt `j` found and clicked the link.
   */
  function Paginate(total: Option<int>, cur: int, clicks: seq<bool>): (r: Paged)
    ensures r.page == cur || r.page == cur + 1
    ensures r.page == cur + 1 <==> total.Some? && exists j :: 0 <= j < PaginationBudget && OkAt(clicks, j)
    ensures r.page == cur + 1 ==> PageClicks(r.trace) == [PaginationSlot(total.value, cur)]
    ensures r.page == cur ==> PageClicks(r.trace) == [] && Waits(r.trace) == seq(PaginationBudget, _ => PaginationFailSleep)
    ensures r.page == cur + 1 ==>
      var n := |Waits(r.trace)|;
      && n < PaginationBudget && OkAt(clicks, n)
      && Waits(r.trace) == seq(n, _ => PaginationFailSleep)
      && (forall j :: 0 <= j < n ==> !OkAt(clicks, j))
    ensures ProductWrites(r.trace) == []
  {
    var ok := if total.Some? then clicks else [];
    var slot := if total.Some? then PaginationSlot(total.value, cur) else 0;
    var tried := Retry(ok, PaginationBudget, PaginationFailSleep, ClickPageLink(slot));
    RetryObservations(tried, PaginationFailSleep, ClickPageLink(slot));
    Paged(if tried.succeeded then cur + 1 else cur, tried.trace)
  }

  /**
    `expand_50_items`: up to five tries at switching the listing to fifty
    items per page, `attempts[j]` saying whether try `j` went through. The
    raise after the loop is unreachable, so running out of tries is silent
    and the crawl goes on with the default page size.
   */
  function ExpandPageSize(attempts: seq<bool>): (r: Retried)
    ensures r.succeeded <==> exists j :: 0 <= j < ExpandBudget && OkAt(attempts, j)
    ensures r.succeeded ==> r.failures < ExpandBudget && OkAt(attempts, r.failures)
    ensures forall j :: 0 <= j < r.failures ==> !OkAt(attempts, j)
    ensures Waits(r.trace) == seq(r.failures, _ => FailSleep)
    ensures r.succeeded <==> ClickPageSize in r.trace
    ensures PageClicks(r.trace) == [] && ProductWrites(r.trace) == []
  {
    var tried := Retry(attempts, ExpandBudget, FailSleep, ClickPageSize);
    RetryObservations(tried, FailSleep, ClickPageSize);
    assert ClickPageSize !in Sleeps(FailSleep, tried.failures);
    if tried.succeeded then assert tried.trace[|tried.trace| - 1] == ClickPageSize; tried
    else tried
  }
}
