/**
 The refund loop's walk of the candidate queue: keyset pages of 500 rows, at
 most 20 pages a tick, resumed next tick and wrapped at the end. The order of
 ids is a parameter; the queue is strictly ascending in it.
 */
module RefundCursor {
  import opened Collections
  import opened Words

  type Id = string

  const REFUND_PAGE: nat := 500
  const MAX_REFUND_PAGES: nat := 20
  /** The rows of a full tick: 20 pages of 500. */
  const TICK_ROWS: nat := 10000

  /** The rows of `n` pages, and of `n` full ticks. */
  function PageRows(n: nat): nat {
    n * 500
  }

  function TickRowCount(n: nat): nat {
    n * 10000
  }

  /** The full ticks in `rows` rows, and the ticks that cover them. */
  function FullTicks(rows: nat): nat {
    rows / 10000
  }

  function CeilTicks(rows: nat): nat {
    (rows + 9999) / 10000
  }

  type Order = (Id, Id) -> bool

  ghost predicate StrictOrder(less: Order) {
    && (forall a, b :: !(less(a, b) && less(b, a)))
    && (forall a, b, c :: less(a, b) && less(b, c) ==> less(a, c))
    && (forall a, b :: less(a, b) || less(b, a) || a == b)
  }

  ghost predicate Ascending(queue: seq<Id>, less: Order) {
    forall i, j :: 0 <= i < j < |queue| ==> less(queue[i], queue[j])
  }

  // ----- one page -----

  function Take<T>(s: seq<T>, n: nat): seq<T> {
    if |s| <= n then s else s[..n]
  }

  function Beyond(after: Option<Id>, less: Order): Id -> bool {
    (id: Id) => after.None? || less(after.value, id)
  }

  /** The rows after `after`, at most `limit` of them. */
  function Page(queue: seq<Id>, limit: nat, after: Option<Id>, less: Order): seq<Id> {
    Take(Filter(queue, Beyond(after, less)), limit)
  }

  function NotAfter(less: Order): (Id, Id) -> bool {
    (a: Id, b: Id) => !less(b, a)
  }

  /** The file-mode queue, and its page after whatever spelling of a cursor. */
  function FileQueue(stored: seq<Id>, fold: Id -> Id, less: Order): seq<Id> {
    Sort(Map(stored, fold), NotAfter(less))
  }

  function FilePage(stored: seq<Id>, fold: Id -> Id, limit: nat, after: Option<Id>, less: Order): seq<Id> {
    Page(FileQueue(stored, fold, less), limit, if after.Some? then Some(fold(after.value)) else None, less)
  }

  /** The file-mode page over whatever order the directory lists: lower-cased, sorted, filtered, cut. */
  method RefundCandidates(stored: seq<Id>, fold: Id -> Id, limit: nat, after: Option<Id>, less: Order)
    returns (page: seq<Id>)
    ensures page == FilePage(stored, fold, limit, after, less)
  {
    var all := Map(stored, fold);
    all := Sort(all, NotAfter(less));
    var start := if after.Some? then Some(fold(after.value)) else None;
    all := Filter(all, Beyond(start, less));
    page := Take(all, limit);
  }

  /** The cursor that stands after the first `p` rows. */
  function CursorAt(queue: seq<Id>, p: nat): Option<Id>
    requires p <= |queue|
  {
    if p == 0 then None else Some(queue[p - 1])
  }

  /** On a strictly ascending queue a keyset page is the next slice. */
  lemma PageIsSlice(queue: seq<Id>, limit: nat, p: nat, less: Order)
    requires StrictOrder(less) && Ascending(queue, less) && p <= |queue|
    ensures Page(queue, limit, CursorAt(queue, p), less) == Take(queue[p..], limit)
  {
    if p == 0 {
      FilterIsSuffix(queue, 0, Beyond(None, less));
    } else {
      forall i | 0 <= i < |queue| ensures less(queue[p - 1], queue[i]) <==> i >= p {
        assert i < p - 1 ==> less(queue[i], queue[p - 1]);
      }
      FilterIsSuffix(queue, p, Beyond(Some(queue[p - 1]), less));
    }
  }

  lemma {:induction false} AscendingCounts(q: seq<Id>, less: Order, id: Id)
    requires StrictOrder(less) && Ascending(q, less)
    ensures multiset(q)[id] <= 1
  {
    if q != [] {
      var n := |q| - 1;
      AscendingCounts(q[..n], less, id);
      assert q == q[..n] + [q[n]];
      assert q[n] !in q[..n] by {
        forall i | 0 <= i < n ensures q[..n][i] != q[n] {
          assert less(q[i], q[n]);
        }
      }
    }
  }

  /** The file-mode queue is strictly ascending exactly when no two stored ids fold to the same text. */
  lemma FileQueueAscendsIff(stored: seq<Id>, fold: Id -> Id, less: Order)
    requires StrictOrder(less)
    ensures Ascending(FileQueue(stored, fold, less), less)
            <==> forall id :: multiset(Map(stored, fold))[id] <= 1
  {
    var q := Sort(Map(stored, fold), NotAfter(less));
    SortIsSortedPermutation(Map(stored, fold), NotAfter(less));
    if Ascending(q, less) {
      forall id ensures multiset(q)[id] <= 1 {
        AscendingCounts(q, less, id);
      }
    } else {
      var i, j :| 0 <= i < j < |q| && !less(q[i], q[j]);
      assert NotAfter(less)(q[i], q[j]);
      TwiceCounts(q, i, j);
    }
  }

  // ----- one tick -----

  /** `fetch(k, after)` is the answer to the tick's page `k`; `None` is an error. */
  type Fetch = (nat, Option<Id>) -> Option<seq<Id>>

  datatype Walked = Failed | Walked(candidates: seq<Id>, truncated: bool)

  /** The cursor and the result of a tick from its page `k` on, with the rows gathered so far. */
  function WalkFrom(fetch: Fetch, k: nat, after: Option<Id>, gathered: seq<Id>): (Option<Id>, Walked)
    requires k <= MAX_REFUND_PAGES
    decreases MAX_REFUND_PAGES - k, gathered, fetch
  {
    if k == MAX_REFUND_PAGES then (after, Walked(gathered, true))
    else match fetch(k, after)
      case None => (after, Failed)
      case Some(page) =>
        if |page| < REFUND_PAGE then (None, Walked(gathered + page, false))
        else WalkFrom(fetch, k + 1, Some(page[|page| - 1]), gathered + page)
  }

  class Cursor {
    var after: Option<Id>

    constructor ()
      ensures after == None
    {
      after := None;
    }

    method Walk(fetch: Fetch) returns (r: Walked)
      modifies this
      ensures (after, r) == WalkFrom(fetch, 0, old(after), [])
    {
      var candidates: seq<Id> := [];
      var k := 0;
      while k < MAX_REFUND_PAGES
        invariant k <= MAX_REFUND_PAGES
        invariant WalkFrom(fetch, k, after, candidates) == WalkFrom(fetch, 0, old(after), [])
      {
        var answer := fetch(k, after);
        if answer.None? {
          return Failed;
        }
        var page := answer.value;
        var short := |page| < REFUND_PAGE;
        if page != [] {
          after := Some(page[|page| - 1]);
        }
        candidates := candidates + page;
        if short {
          after := None;
          return Walked(candidates, false);
        }
        k := k + 1;
      }
      return Walked(candidates, true);
    }
  }

  /** Page `k` asked at position `q` is the page of `queue` there. */
  predicate ServesPage(fetch: Fetch, queue: seq<Id>, less: Order, k: nat, q: nat)
    requires q <= |queue|
  {
    fetch(k, CursorAt(queue, q)) == Some(Page(queue, REFUND_PAGE, CursorAt(queue, q), less))
  }

  /** Every page asked with the cursor at a row of the queue, or at its head, is served. */
  ghost predicate Serves(fetch: Fetch, queue: seq<Id>, less: Order) {
    forall k: nat, q: nat {:trigger ServesPage(fetch, queue, less, k, q)} ::
      q <= |queue| ==> ServesPage(fetch, queue, less, k, q)
  }

  predicate FailsAt(fetch: Fetch, queue: seq<Id>, k: nat, q: nat)
    requires q <= |queue|
  {
    fetch(k, CursorAt(queue, q)).None?
  }

  /** Every page but page `bad` is served. */
  ghost predicate ServesExcept(fetch: Fetch, queue: seq<Id>, less: Order, bad: nat) {
    && (forall q: nat {:trigger FailsAt(fetch, queue, bad, q)} :: q <= |queue| ==> FailsAt(fetch, queue, bad, q))
    && forall k: nat, q: nat {:trigger ServesPage(fetch, queue, less, k, q)} ::
         k != bad && q <= |queue| ==> ServesPage(fetch, queue, less, k, q)
  }

  function FileFetch(stored: seq<Id>, fold: Id -> Id, less: Order): Fetch {
    (k: nat, after: Option<Id>) => Some(FilePage(stored, fold, REFUND_PAGE, after, less))
  }

  /**
   The file-mode pages serve the file-mode queue, although they fold the cursor
   again: whatever the walk has reached is folded already.
   */
  lemma FilePagesServe(stored: seq<Id>, fold: Id -> Id, less: Order)
    requires StrictOrder(less) && forall i :: 0 <= i < |stored| ==> fold(fold(stored[i])) == fold(stored[i])
    ensures Serves(FileFetch(stored, fold, less), FileQueue(stored, fold, less), less)
  {
    var queue, fetch := FileQueue(stored, fold, less), FileFetch(stored, fold, less);
    forall k: nat, q: nat | q <= |queue| ensures ServesPage(fetch, queue, less, k, q) {
      if q > 0 {
        QueueIsFolded(stored, fold, less, q - 1);
      }
    }
  }

  lemma QueueIsFolded(stored: seq<Id>, fold: Id -> Id, less: Order, i: nat)
    requires StrictOrder(less) && i < |FileQueue(stored, fold, less)|
    requires forall i :: 0 <= i < |stored| ==> fold(fold(stored[i])) == fold(stored[i])
    ensures fold(FileQueue(stored, fold, less)[i]) == FileQueue(stored, fold, less)[i]
  {
    var folded, queue := Map(stored, fold), FileQueue(stored, fold, less);
    SortIsSortedPermutation(folded, NotAfter(less));
    assert queue[i] in multiset(queue);
    assert queue[i] in folded;
  }

  /** The rows of one tick from position `p`, and the position after it. */
  function TickRows(queue: seq<Id>, p: nat): seq<Id>
    requires p <= |queue|
  {
    Take(queue[p..], TICK_ROWS)
  }

  function NextPosition(length: nat, p: nat): (q: nat)
    requires p <= length
    ensures q <= length
  {
    if length - p < TICK_ROWS then 0 else p + TICK_ROWS
  }

  /** A walk with `rows` rows to go from `p`: the rest of the queue and a wrap, or exactly that many rows. */
  function SliceWalk(queue: seq<Id>, p: nat, rows: nat, gathered: seq<Id>): (Option<Id>, Walked)
    requires p <= |queue|
  {
    if |queue| - p < rows then (None, Walked(gathered + queue[p..], false))
    else (CursorAt(queue, p + rows), Walked(gathered + queue[p..p + rows], true))
  }

  lemma SliceWalkStep(queue: seq<Id>, p: nat, q: nat, rows: nat, gathered: seq<Id>)
    requires p <= q <= |queue|
    ensures SliceWalk(queue, q, rows, gathered + queue[p..q]) == SliceWalk(queue, p, q - p + rows, gathered)
  {
    if |queue| - q >= rows {
      assert gathered + queue[p..q] + queue[q..q + rows] == gathered + queue[p..q + rows];
    } else {
      assert gathered + queue[p..q] + queue[q..] == gathered + queue[p..];
    }
  }

  /** One good page from `p`: the end of the queue, or 500 rows and on. */
  lemma WalkStep(fetch: Fetch, queue: seq<Id>, less: Order, k: nat, p: nat, gathered: seq<Id>)
    requires StrictOrder(less) && Ascending(queue, less) && p <= |queue| && k < MAX_REFUND_PAGES
    requires ServesPage(fetch, queue, less, k, p)
    ensures WalkFrom(fetch, k, CursorAt(queue, p), gathered)
            == if |queue| < p + 500 then (None, Walked(gathered + queue[p..], false))
               else WalkFrom(fetch, k + 1, CursorAt(queue, p + 500), gathered + queue[p..p + 500])
  {
    PageIsSlice(queue, REFUND_PAGE, p, less);
    if |queue| >= p + 500 {
      var page := Take(queue[p..], REFUND_PAGE);
      assert page == queue[p..p + 500] && Some(page[|page| - 1]) == CursorAt(queue, p + 500);
    }
  }

  /** The walk of pages `k..` from `p` returns the slice those pages cover. */
  lemma {:induction false} WalkFromIsSlice(fetch: Fetch, queue: seq<Id>, less: Order, k: nat, p: nat, gathered: seq<Id>)
    requires StrictOrder(less) && Ascending(queue, less) && Serves(fetch, queue, less)
    requires p <= |queue| && k <= MAX_REFUND_PAGES
    ensures WalkFrom(fetch, k, CursorAt(queue, p), gathered)
            == SliceWalk(queue, p, PageRows(MAX_REFUND_PAGES - k), gathered)
    decreases MAX_REFUND_PAGES - k
  {
    if k == MAX_REFUND_PAGES {
      assert gathered + queue[p..p] == gathered;
    } else {
      assert ServesPage(fetch, queue, less, k, p);
      WalkStep(fetch, queue, less, k, p, gathered);
      if |queue| >= p + 500 {
        WalkFromIsSlice(fetch, queue, less, k + 1, p + 500, gathered + queue[p..p + 500]);
        SliceWalkStep(queue, p, p + 500, PageRows(MAX_REFUND_PAGES - (k + 1)), gathered);
      }
    }
  }

  /** An error-free tick over an unchanging queue takes the next 10000 rows, or all that are left and wraps. */
  lemma TickIsSlice(fetch: Fetch, queue: seq<Id>, less: Order, p: nat)
    requires StrictOrder(less) && Ascending(queue, less) && Serves(fetch, queue, less) && p <= |queue|
    ensures WalkFrom(fetch, 0, CursorAt(queue, p), [])
            == (CursorAt(queue, NextPosition(|queue|, p)), Walked(TickRows(queue, p), |queue| - p >= TICK_ROWS))
  {
    WalkFromIsSlice(fetch, queue, less, 0, p, []);
    assert [] + queue[p..] == queue[p..];
    if |queue| - p >= TICK_ROWS {
      assert [] + queue[p..p + TICK_ROWS] == TickRows(queue, p);
    }
  }

  /**
   When a page fails, the tick's rows are dropped, and the cursor is where the
   tick found it exactly when the first page was the one that failed: a later
   failure leaves it behind the pages that were dropped.
   */
  lemma ErrorKeepsCursorIff(fetch: Fetch, queue: seq<Id>, less: Order, p: nat, bad: nat)
    requires StrictOrder(less) && Ascending(queue, less) && bad < MAX_REFUND_PAGES
    requires p + PageRows(bad) <= |queue|
    requires ServesExcept(fetch, queue, less, bad)
    ensures WalkFrom(fetch, 0, CursorAt(queue, p), []) == (CursorAt(queue, p + PageRows(bad)), Failed)
    ensures CursorAt(queue, p + PageRows(bad)) == CursorAt(queue, p) <==> bad == 0
  {
    ErrorAdvances(fetch, queue, less, p, 0, bad, []);
    if bad > 0 && p > 0 {
      assert less(queue[p - 1], queue[p + PageRows(bad) - 1]);
    }
  }

  lemma {:induction false} ErrorAdvances(fetch: Fetch, queue: seq<Id>, less: Order, p: nat, k: nat, bad: nat,
                                         gathered: seq<Id>)
    requires StrictOrder(less) && Ascending(queue, less) && k <= bad < MAX_REFUND_PAGES
    requires p + PageRows(bad - k) <= |queue|
    requires ServesExcept(fetch, queue, less, bad)
    ensures WalkFrom(fetch, k, CursorAt(queue, p), gathered) == (CursorAt(queue, p + PageRows(bad - k)), Failed)
    decreases bad - k
  {
    if k == bad {
      assert FailsAt(fetch, queue, bad, p);
    } else {
      assert ServesPage(fetch, queue, less, k, p);
      WalkStep(fetch, queue, less, k, p, gathered);
      ErrorAdvances(fetch, queue, less, p + 500, k + 1, bad, gathered + queue[p..p + 500]);
    }
  }

  // ----- many ticks -----

  /** The position after `n` ticks, and all rows they return. */
  function PositionAfter(queue: seq<Id>, p: nat, n: nat): (q: nat)
    requires p <= |queue|
    ensures q <= |queue|
    decreases n, queue
  {
    if n == 0 then p else PositionAfter(queue, NextPosition(|queue|, p), n - 1)
  }

  function RowsOfTicks(queue: seq<Id>, p: nat, n: nat): seq<Id>
    requires p <= |queue|
    decreases n, queue
  {
    if n == 0 then [] else TickRows(queue, p) + RowsOfTicks(queue, NextPosition(|queue|, p), n - 1)
  }

  lemma {:induction false} TicksConcat(queue: seq<Id>, p: nat, m: nat, n: nat)
    requires p <= |queue|
    ensures RowsOfTicks(queue, p, m + n)
            == RowsOfTicks(queue, p, m) + RowsOfTicks(queue, PositionAfter(queue, p, m), n)
    decreases m
  {
    if m > 0 {
      TicksConcat(queue, NextPosition(|queue|, p), m - 1, n);
    }
  }

  /** Until the end is reached, `n` ticks return the next `n * 10000` rows. */
  lemma {:induction false} TicksAreSlice(queue: seq<Id>, p: nat, n: nat)
    requires p <= |queue| && n <= FullTicks(|queue| - p)
    ensures p + TickRowCount(n) <= |queue|
    ensures RowsOfTicks(queue, p, n) == queue[p..p + TickRowCount(n)]
    ensures PositionAfter(queue, p, n) == p + TickRowCount(n)
    decreases n
  {
    if n > 0 {
      OneTickMore(p, n);
      TicksAreSlice(queue, p + TICK_ROWS, n - 1);
      OneFullTick(queue, p, n - 1);
      SlicesJoin(queue, p, p + TICK_ROWS, p + TickRowCount(n));
    }
  }

  /** The ticks from `p` until the cursor is back at the head. */
  function TicksToWrap(length: nat, p: nat): nat
    requires p <= length
  {
    FullTicks(length - p) + 1
  }

  lemma {:induction false} DrainsFrom(queue: seq<Id>, p: nat, n: nat)
    requires p + TickRowCount(n) <= |queue| < p + TickRowCount(n) + TICK_ROWS
    ensures RowsOfTicks(queue, p, n + 1) == queue[p..] && PositionAfter(queue, p, n + 1) == 0
    decreases n
  {
    if n == 0 {
      LastTick(queue, p);
    } else {
      OneTickMore(p, n);
      DrainsFrom(queue, p + TICK_ROWS, n - 1);
      OneFullTick(queue, p, n);
      PrefixAndRest(queue, p, p + TICK_ROWS);
    }
  }

  lemma OneTickMore(p: nat, n: nat)
    requires n > 0
    ensures p + TickRowCount(n) == (p + TICK_ROWS) + TickRowCount(n - 1)
  {
  }

  lemma OneFullTick(queue: seq<Id>, p: nat, n: nat)
    requires p + TICK_ROWS <= |queue|
    ensures RowsOfTicks(queue, p, n + 1) == queue[p..p + TICK_ROWS] + RowsOfTicks(queue, p + TICK_ROWS, n)
    ensures PositionAfter(queue, p, n + 1) == PositionAfter(queue, p + TICK_ROWS, n)
  {
  }

  lemma SlicesJoin(queue: seq<Id>, p: nat, q: nat, r: nat)
    requires p <= q <= r <= |queue|
    ensures queue[p..q] + queue[q..r] == queue[p..r]
  {
  }

  lemma PrefixAndRest(queue: seq<Id>, p: nat, q: nat)
    requires p <= q <= |queue|
    ensures queue[p..q] + queue[q..] == queue[p..]
  {
  }

  /** From any position, `floor(T / 10000) + 1` ticks return the `T` rows left, once each and in order, and wrap. */
  lemma DrainsAndWraps(queue: seq<Id>, p: nat)
    requires p <= |queue|
    ensures RowsOfTicks(queue, p, TicksToWrap(|queue|, p)) == queue[p..]
    ensures PositionAfter(queue, p, TicksToWrap(|queue|, p)) == 0
  {
    var n, wrap := FullTicks(|queue| - p), TicksToWrap(|queue|, p);
    WrapBound(|queue|, p, n);
    DrainsWithin(queue, p, n, wrap);
  }

  lemma DrainsWithin(queue: seq<Id>, p: nat, n: nat, wrap: nat)
    requires p + TickRowCount(n) <= |queue| < p + TickRowCount(n) + TICK_ROWS && wrap == n + 1
    ensures RowsOfTicks(queue, p, wrap) == queue[p..] && PositionAfter(queue, p, wrap) == 0
  {
    DrainsFrom(queue, p, n);
  }

  lemma WrapBound(length: nat, p: nat, n: nat)
    requires p <= length && n == FullTicks(length - p)
    ensures p + TickRowCount(n) <= length < p + TickRowCount(n) + TICK_ROWS
  {
  }

  lemma LastTick(queue: seq<Id>, q: nat)
    requires q <= |queue| < q + TICK_ROWS
    ensures RowsOfTicks(queue, q, 1) == queue[q..] && PositionAfter(queue, q, 1) == 0
  {
    assert RowsOfTicks(queue, q, 1) == TickRows(queue, q) + RowsOfTicks(queue, 0, 0);
    assert PositionAfter(queue, q, 1) == PositionAfter(queue, 0, 0);
  }

  /** From the head, `n` ticks return the first `n * 10000` rows, or the whole queue once they reach its end. */
  lemma FromHead(queue: seq<Id>, n: nat)
    requires n <= CeilTicks(|queue|)
    ensures RowsOfTicks(queue, 0, n) == Take(queue, TickRowCount(n))
  {
    if n <= FullTicks(|queue|) {
      TicksAreSlice(queue, 0, n);
    } else {
      DrainsAndWraps(queue, 0);
      PastTheEnd(|queue|, n);
    }
  }

  lemma PastTheEnd(length: nat, n: nat)
    requires FullTicks(length) < n <= CeilTicks(length)
    ensures n == TicksToWrap(length, 0) && TickRowCount(n) >= length
  {
  }

  lemma LapRows(queue: seq<Id>)
    ensures RowsOfTicks(queue, 0, CeilTicks(|queue|)) == queue
    ensures RowsOfTicks(queue, 0, TicksToWrap(|queue|, 0)) == queue
    ensures PositionAfter(queue, 0, TicksToWrap(|queue|, 0)) == 0
  {
    FromHead(queue, CeilTicks(|queue|));
    DrainsAndWraps(queue, 0);
  }

  lemma RestAndLapRows(queue: seq<Id>, p: nat, n: nat)
    requires p <= |queue| && n == TicksToWrap(|queue|, p) + CeilTicks(|queue|)
    ensures RowsOfTicks(queue, p, n) == queue[p..] + queue
  {
    var wrap, lap := TicksToWrap(|queue|, p), CeilTicks(|queue|);
    DrainsAndWraps(queue, p);
    LapRows(queue);
    LapAfterRest(queue, p, wrap, lap);
  }

  lemma LapAfterRest(queue: seq<Id>, p: nat, wrap: nat, lap: nat)
    requires p <= |queue| && RowsOfTicks(queue, p, wrap) == queue[p..] && PositionAfter(queue, p, wrap) == 0
    requires RowsOfTicks(queue, 0, lap) == queue
    ensures RowsOfTicks(queue, p, wrap + lap) == queue[p..] + queue
  {
    TicksConcat(queue, p, wrap, lap);
  }

  /** The number of ticks from `p` after which every row has been returned. */
  function TicksNeeded(length: nat, p: nat): nat
    requires p <= length
  {
    if p == 0 then CeilTicks(length) else TicksToWrap(length, p) + CeilTicks(p)
  }

  ghost predicate AllReturned(queue: seq<Id>, p: nat, n: nat)
    requires p <= |queue|
  {
    forall id :: id in queue ==> id in RowsOfTicks(queue, p, n)
  }

  lemma DistinctRows(queue: seq<Id>, less: Order, i: nat, lo: nat, hi: nat)
    requires StrictOrder(less) && Ascending(queue, less) && lo <= hi <= |queue| && i < |queue|
    ensures queue[i] in queue[lo..hi] <==> lo <= i < hi
  {
    if queue[i] in queue[lo..hi] {
      var k :| 0 <= k < hi - lo && queue[lo..hi][k] == queue[i];
      assert queue[lo + k] == queue[i];
      assert lo + k == i;
    }
    if lo <= i < hi {
      assert queue[lo..hi][i - lo] == queue[i];
    }
  }

  /** After the wrap, `m` more ticks. */
  lemma AcrossTheWrap(queue: seq<Id>, p: nat, m: nat)
    requires p <= |queue| && m <= CeilTicks(|queue|)
    ensures RowsOfTicks(queue, p, TicksToWrap(|queue|, p) + m) == queue[p..] + Take(queue, TickRowCount(m))
  {
    DrainsAndWraps(queue, p);
    FromHead(queue, m);
    TicksConcat(queue, p, TicksToWrap(|queue|, p), m);
  }

  lemma {:induction false} MoreTicksReturnMore(queue: seq<Id>, p: nat, m: nat, n: nat)
    requires p <= |queue| && m <= n
    ensures RowsOfTicks(queue, p, m) <= RowsOfTicks(queue, p, n)
  {
    TicksConcat(queue, p, m, n - m);
  }

  lemma CeilTicksCover(a: nat)
    ensures TickRowCount(CeilTicks(a)) >= a
    ensures forall n: nat :: n < CeilTicks(a) ==> TickRowCount(n) < a
  {
  }

  lemma CeilTicksMonotone(a: nat, b: nat)
    requires a <= b
    ensures CeilTicks(a) <= CeilTicks(b)
  {
  }

  lemma EnoughTicks(queue: seq<Id>, p: nat, n: nat)
    requires p <= |queue| && n >= TicksNeeded(|queue|, p)
    ensures AllReturned(queue, p, n)
  {
    var needed := TicksNeeded(|queue|, p);
    MoreTicksReturnMore(queue, p, needed, n);
    if p == 0 {
      LapRows(queue);
    } else {
      CeilTicksMonotone(p, |queue|);
      CeilTicksCover(p);
      AcrossTheWrap(queue, p, CeilTicks(p));
      var head := Take(queue, TickRowCount(CeilTicks(p)));
      forall id | id in queue ensures id in queue[p..] + head {
        var i :| 0 <= i < |queue| && queue[i] == id;
        if i >= p {
          assert queue[p..][i - p] == id;
        } else {
          assert head[i] == id;
        }
      }
    }
  }

  lemma TooFewTicks(queue: seq<Id>, less: Order, p: nat, n: nat)
    requires StrictOrder(less) && Ascending(queue, less) && p <= |queue| && queue != []
    requires n < TicksNeeded(|queue|, p)
    ensures !AllReturned(queue, p, n)
  {
    if p == 0 {
      CeilTicksCover(|queue|);
      FromHead(queue, n);
      DistinctRows(queue, less, |queue| - 1, 0, TickRowCount(n));
    } else if n < TicksToWrap(|queue|, p) {
      TicksAreSlice(queue, p, n);
      DistinctRows(queue, less, 0, p, p + TickRowCount(n));
    } else {
      TooFewAfterWrap(queue, less, p, n - TicksToWrap(|queue|, p));
    }
  }

  lemma TooFewAfterWrap(queue: seq<Id>, less: Order, p: nat, m: nat)
    requires StrictOrder(less) && Ascending(queue, less) && 0 < p <= |queue| && m < CeilTicks(p)
    ensures !AllReturned(queue, p, TicksToWrap(|queue|, p) + m)
  {
    CeilTicksMonotone(p, |queue|);
    CeilTicksCover(p);
    AcrossTheWrap(queue, p, m);
    DistinctRows(queue, less, p - 1, p, |queue|);
    DistinctRows(queue, less, p - 1, 0, TickRowCount(m));
    assert queue[p..|queue|] == queue[p..] && Take(queue, TickRowCount(m)) == queue[0..TickRowCount(m)];
    assert queue[p - 1] !in RowsOfTicks(queue, p, TicksToWrap(|queue|, p) + m);
  }

  // ----- successive walks -----

  function RowsOf(w: Walked): seq<Id> {
    match w
    case Failed => []
    case Walked(candidates, _) => candidates
  }

  /** The cursor after successive ticks, and all rows they return. */
  function RunWalks(fetches: seq<Fetch>, after: Option<Id>): (Option<Id>, seq<Id>) {
    if fetches == [] then (after, [])
    else
      var (next, walked) := WalkFrom(fetches[0], 0, after, []);
      var (end, rows) := RunWalks(fetches[1..], next);
      (end, RowsOf(walked) + rows)
  }

  ghost predicate AllServe(fetches: seq<Fetch>, queue: seq<Id>, less: Order) {
    forall i :: 0 <= i < |fetches| ==> Serves(fetches[i], queue, less)
  }

  /** Error-free ticks over an unchanging queue walk the positions and return the rows of `RowsOfTicks`. */
  lemma {:induction false} WalksAreTicks(fetches: seq<Fetch>, queue: seq<Id>, less: Order, p: nat)
    requires StrictOrder(less) && Ascending(queue, less) && AllServe(fetches, queue, less) && p <= |queue|
    ensures RunWalks(fetches, CursorAt(queue, p))
            == (CursorAt(queue, PositionAfter(queue, p, |fetches|)), RowsOfTicks(queue, p, |fetches|))
    decreases |fetches|
  {
    if fetches != [] {
      TickIsSlice(fetches[0], queue, less, p);
      WalksAreTicks(fetches[1..], queue, less, NextPosition(|queue|, p));
    }
  }

  lemma WalksReturn(fetches: seq<Fetch>, queue: seq<Id>, less: Order, p: nat, rows: seq<Id>)
    requires StrictOrder(less) && Ascending(queue, less) && AllServe(fetches, queue, less) && p <= |queue|
    requires RowsOfTicks(queue, p, |fetches|) == rows
    ensures RunWalks(fetches, CursorAt(queue, p)).1 == rows
  {
    WalksAreTicks(fetches, queue, less, p);
  }

  /** A lap from the head returns every row exactly once, in order, within `ceil(L / 10000)` ticks, then wraps. */
  lemma LapIsTheQueue(fetches: seq<Fetch>, queue: seq<Id>, less: Order)
    requires StrictOrder(less) && Ascending(queue, less) && AllServe(fetches, queue, less)
    ensures |fetches| == CeilTicks(|queue|) ==> RunWalks(fetches, None).1 == queue
    ensures |fetches| == TicksToWrap(|queue|, 0) ==> RunWalks(fetches, None) == (None, queue)
  {
    WalksAreTicks(fetches, queue, less, 0);
    LapRows(queue);
  }

  /** From any position, that many ticks return the rest of the queue and then the whole of it. */
  lemma EveryRowWithin(fetches: seq<Fetch>, queue: seq<Id>, less: Order, p: nat)
    requires StrictOrder(less) && Ascending(queue, less) && AllServe(fetches, queue, less) && p <= |queue|
    requires |fetches| == TicksToWrap(|queue|, p) + CeilTicks(|queue|)
    ensures RunWalks(fetches, CursorAt(queue, p)).1 == queue[p..] + queue
  {
    RestAndLapRows(queue, p, |fetches|);
    WalksReturn(fetches, queue, less, p, queue[p..] + queue);
  }

  /**
   Every row has been returned after `n` ticks from `p` if and only if `n` is at
   least `TicksNeeded`: `ceil(L / 10000)` from the head, and
   `floor(T / 10000) + 1 + ceil(p / 10000)` with `p > 0` rows passed and `T` left.
   */
  lemma AllReturnedIff(fetches: seq<Fetch>, queue: seq<Id>, less: Order, p: nat)
    requires StrictOrder(less) && Ascending(queue, less) && AllServe(fetches, queue, less)
    requires p <= |queue| && queue != []
    ensures (forall id :: id in queue ==> id in RunWalks(fetches, CursorAt(queue, p)).1)
            <==> |fetches| >= TicksNeeded(|queue|, p)
  {
    var n := |fetches|;
    WalksAreTicks(fetches, queue, less, p);
    if n >= TicksNeeded(|queue|, p) {
      EnoughTicks(queue, p, n);
    } else {
      TooFewTicks(queue, less, p, n);
    }
  }

  /**
   The bound `ceil(L / 10000)` that the cursor's documentation gives for every
   position is missed by a queue of exactly one full tick: having returned it,
   the next tick finds nothing.
   */
  lemma FullTickThenEmpty(first: Fetch, second: Fetch, queue: seq<Id>, less: Order)
    requires StrictOrder(less) && Ascending(queue, less) && |queue| == TICK_ROWS
    requires Serves(first, queue, less) && Serves(second, queue, less)
    ensures CeilTicks(|queue|) == 1
    ensures WalkFrom(first, 0, None, []) == (Some(queue[|queue| - 1]), Walked(queue, true))
    ensures WalkFrom(second, 0, Some(queue[|queue| - 1]), []) == (None, Walked([], false))
  {
    TickIsSlice(first, queue, less, 0);
    TickIsSlice(second, queue, less, |queue|);
  }
}
