/**
 The swap pool's token list: a replay of `TokenListed` and `TokenDelisted` events,
 built chunk by chunk, with a bounded number of chunks per call, and two queries
 per chunk of which either may fail. It must agree with one fold over the log.
 */
module TokenList {
  import opened Collections
  import opened Words

  const MAX_CHUNKS_PER_CALL: nat := 20

  datatype Event = Event(block: nat, index: nat, listed: bool, token: Address)

  /** First-seen order, the current flag per token, and the highest block applied. */
  datatype State = State(order: seq<Address>, live: map<Address, bool>, scannedTo: Option<nat>)

  const NOTHING_SCANNED: State := State([], map[], None)

  predicate IsLive(s: State, token: Address) {
    token in s.live && s.live[token]
  }

  /** The listed tokens, in first-seen order. */
  function Listed(s: State): seq<Address> {
    Filter(s.order, (t: Address) => IsLive(s, t))
  }

  // ----- the replay -----

  function ApplyEvent(s: State, e: Event): State {
    if e.listed then
      s.(order := if !IsLive(s, e.token) && e.token !in s.order then s.order + [e.token] else s.order,
         live := s.live[e.token := true])
    else s.(live := s.live[e.token := false])
  }

  function ApplyAll(s: State, events: seq<Event>): State {
    if events == [] then s else ApplyEvent(ApplyAll(s, events[..|events| - 1]), events[|events| - 1])
  }

  // ----- one step of the scan -----

  /** The answers to one chunk's two queries; `None` is an error. */
  datatype Chunk = Chunk(listed: Option<seq<Event>>, delisted: Option<seq<Event>>)

  /** The endpoint during one step: what it answers for a block range. */
  type Endpoint = (nat, nat) -> Chunk

  /** The events a step gathered, the first block it did not finish, and whether an error stopped it. */
  datatype Collected = Collected(events: seq<Event>, next: nat, failed: bool)

  function ChunkEnd(start: nat, maxRange: nat, tip: nat): nat
    requires maxRange > 0
  {
    if start + maxRange - 1 < tip then start + maxRange - 1 else tip
  }

  function Collect(serve: Endpoint, start: nat, maxRange: nat, tip: nat, budget: nat): Collected
    requires maxRange > 0
    decreases budget, tip
  {
    if start > tip || budget == 0 then Collected([], start, false)
    else
      var end := ChunkEnd(start, maxRange, tip);
      var chunk := serve(start, end);
      if chunk.listed.None? then Collected([], start, true)
      else if chunk.delisted.None? then Collected(chunk.listed.value, start, true)
      else
        var rest := Collect(serve, end + 1, maxRange, tip, budget - 1);
        Prepend(chunk.listed.value + chunk.delisted.value, rest)
  }

  predicate EventOrder(a: Event, b: Event) {
    a.block < b.block || (a.block == b.block && a.index <= b.index)
  }

  function StartOf(s: State, from: nat): nat {
    if s.scannedTo.Some? then s.scannedTo.value + 1 else from
  }

  /** The cursor after a step from block `start` that finished every block before `next`. */
  function Advanced(s: State, start: nat, next: nat): State {
    if next > start then s.(scannedTo := Some(next - 1)) else s
  }

  function ScanEffect(serve: Endpoint, from: nat, maxRange: nat, tip: nat, s: State): State
    requires maxRange > 0
  {
    var start := StartOf(s, from);
    var c := Collect(serve, start, maxRange, tip, MAX_CHUNKS_PER_CALL);
    Advanced(ApplyAll(s, Sort(c.events, EventOrder)), start, c.next)
  }

  class TokenLists {
    var cache: map<nat, State>

    constructor ()
      ensures cache == map[]
    {
      cache := map[];
    }

    /** Keeps the state already there when it is further along. */
    method StoreState(chain: nat, state: State)
      modifies this
      ensures cache == old(cache)[chain := Stored(if chain in old(cache) then Some(old(cache)[chain]) else None, state)]
      ensures forall c :: c in old(cache) ==>
                c in cache && !CursorBefore(cache[c].scannedTo, old(cache)[c].scannedTo)
      ensures chain in cache && cache[chain].scannedTo
              == if chain in old(cache) then Furthest(old(cache)[chain].scannedTo, state.scannedTo) else state.scannedTo
    {
      var newer := true;
      if chain in cache {
        newer := !CursorBefore(state.scannedTo, cache[chain].scannedTo);
      }
      if newer {
        cache := cache[chain := state];
      }
    }
  }

  /** What a chain's cache holds after a scan's result is written back. */
  function Stored(current: Option<State>, state: State): State {
    if current.Some? && CursorBefore(state.scannedTo, current.value.scannedTo) then current.value else state
  }

  function Furthest(a: Option<nat>, b: Option<nat>): Option<nat> {
    if a.None? || (b.Some? && b.value >= a.value) then b else a
  }

  predicate CursorBefore(a: Option<nat>, b: Option<nat>) {
    b.Some? && (a.None? || a.value < b.value)
  }

  method ScanStep(serve: Endpoint, from: nat, maxRange: nat, tip: nat, s: State) returns (r: State, failed: bool)
    requires maxRange > 0
    ensures r == ScanEffect(serve, from, maxRange, tip, s)
    ensures failed == Collect(serve, StartOf(s, from), maxRange, tip, MAX_CHUNKS_PER_CALL).failed
  {
    var start := if s.scannedTo.Some? then s.scannedTo.value + 1 else from;
    var events, reached;
    events, reached, failed := CollectChunks(serve, start, maxRange, tip, s.scannedTo);
    events := Sort(events, EventOrder);
    r := ApplyEvents(s, events);
    ScannedToIsInert(s, events, s.scannedTo);
    r := r.(scannedTo := reached);
  }

  /** The chunk loop: at most `MAX_CHUNKS_PER_CALL` chunks, up to the first error. */
  method CollectChunks(serve: Endpoint, first: nat, maxRange: nat, tip: nat, scannedTo: Option<nat>)
    returns (events: seq<Event>, reached: Option<nat>, failed: bool)
    requires maxRange > 0
    ensures var c := Collect(serve, first, maxRange, tip, MAX_CHUNKS_PER_CALL);
            && events == c.events && failed == c.failed
            && reached == if c.next > first then Some(c.next - 1) else scannedTo
  {
    var start, chunks := first, 0;
    events, reached, failed := [], scannedTo, false;
    ghost var whole := Collect(serve, first, maxRange, tip, MAX_CHUNKS_PER_CALL);
    ghost var rest := whole;
    PrependNothing(rest);
    while start <= tip && chunks < MAX_CHUNKS_PER_CALL
      invariant chunks <= MAX_CHUNKS_PER_CALL && start >= first
      invariant reached == if start > first then Some(start - 1) else scannedTo
      invariant rest == Collect(serve, start, maxRange, tip, MAX_CHUNKS_PER_CALL - chunks)
      invariant whole == Prepend(events, rest)
    {
      chunks := chunks + 1;
      var end := ChunkEnd(start, maxRange, tip);
      var chunk := serve(start, end);
      if chunk.listed.None? {
        assert rest == Collected([], start, true);
        return events, reached, true;
      }
      if chunk.delisted.None? {
        assert rest == Collected(chunk.listed.value, start, true);
        return events + chunk.listed.value, reached, true;
      }
      ghost var later := Collect(serve, end + 1, maxRange, tip, MAX_CHUNKS_PER_CALL - chunks);
      var found := chunk.listed.value + chunk.delisted.value;
      assert rest == Prepend(found, later);
      PrependTwice(events, found, later);
      rest := later;
      events := events + found;
      reached := Some(end);
      start := end + 1;
    }
    assert rest == Collected([], start, false);
  }

  lemma PrependNothing(c: Collected)
    ensures Prepend([], c) == c
  {
  }

  function Prepend(events: seq<Event>, c: Collected): Collected {
    c.(events := events + c.events)
  }

  lemma PrependTwice(a: seq<Event>, b: seq<Event>, c: Collected)
    ensures Prepend(a, Prepend(b, c)) == Prepend(a + b, c)
  {
  }

  /** The loop that applies the sorted events to the carried state. */
  method ApplyEvents(s: State, events: seq<Event>) returns (r: State)
    ensures r == ApplyAll(s, events)
  {
    r := s;
    for i := 0 to |events|
      invariant r == ApplyAll(s, events[..i])
    {
      var e := events[i];
      assert events[..i + 1][..i] == events[..i];
      if e.listed {
        if !IsLive(r, e.token) && e.token !in r.order {
          r := r.(order := r.order + [e.token]);
        }
        r := r.(live := r.live[e.token := true]);
      } else {
        r := r.(live := r.live[e.token := false]);
      }
    }
    assert events[..|events|] == events;
  }

  // ----- what the replay means -----

  /** A live token is in the order. */
  ghost predicate WellFormed(s: State) {
    forall t :: IsLive(s, t) ==> t in s.order
  }

  /** `order` with the tokens not yet in it appended, first come first. */
  function Dedup(order: seq<Address>, tokens: seq<Address>): seq<Address> {
    if tokens == [] then order
    else
      var o, t := Dedup(order, tokens[..|tokens| - 1]), tokens[|tokens| - 1];
      if t in o then o else o + [t]
  }

  function ListedTokens(events: seq<Event>): seq<Address> {
    if events == [] then []
    else
      var e := events[|events| - 1];
      ListedTokens(events[..|events| - 1]) + if e.listed then [e.token] else []
  }

  /** The last flag of every token that has an event. */
  function Flags(events: seq<Event>): map<Address, bool> {
    if events == [] then map[]
    else Flags(events[..|events| - 1])[events[|events| - 1].token := events[|events| - 1].listed]
  }

  lemma MapSnoc(m: map<Address, bool>, f: map<Address, bool>, k: Address, v: bool)
    ensures m + f[k := v] == (m + f)[k := v]
  {
  }

  lemma DedupSnoc(order: seq<Address>, tokens: seq<Address>, t: Address)
    ensures Dedup(order, tokens + [t])
            == if t in Dedup(order, tokens) then Dedup(order, tokens) else Dedup(order, tokens) + [t]
  {
    assert (tokens + [t])[..|tokens|] == tokens;
  }

  lemma ApplyEventKeepsWellFormed(s: State, e: Event)
    requires WellFormed(s)
    ensures WellFormed(ApplyEvent(s, e))
    ensures ApplyEvent(s, e).order == if e.listed && e.token !in s.order then s.order + [e.token] else s.order
    ensures ApplyEvent(s, e).live == s.live[e.token := e.listed] && ApplyEvent(s, e).scannedTo == s.scannedTo
  {
    var r := ApplyEvent(s, e);
    forall t | IsLive(r, t) ensures t in r.order {
      if t != e.token {
        assert IsLive(s, t);
      }
    }
  }

  /** `r` is `s` with the tokens appended to its order and the flags written over its own. */
  ghost predicate Splits(s: State, tokens: seq<Address>, flags: map<Address, bool>, r: State) {
    r == State(Dedup(s.order, tokens), s.live + flags, s.scannedTo) && WellFormed(r)
  }

  lemma SplitsSnoc(s: State, tokens: seq<Address>, flags: map<Address, bool>, r: State, e: Event)
    requires Splits(s, tokens, flags, r)
    ensures Splits(s, tokens + if e.listed then [e.token] else [], flags[e.token := e.listed], ApplyEvent(r, e))
  {
    ApplyEventKeepsWellFormed(r, e);
    MapSnoc(s.live, flags, e.token, e.listed);
    DedupSnoc(s.order, tokens, e.token);
    assert tokens + [] == tokens;
  }

  /** Applying events appends newly listed tokens to the order, and overwrites flags. */
  lemma {:induction false} ApplyAllSplits(s: State, events: seq<Event>)
    requires WellFormed(s)
    ensures Splits(s, ListedTokens(events), Flags(events), ApplyAll(s, events))
  {
    if events == [] {
      assert s.live + map[] == s.live;
    } else {
      var n := |events| - 1;
      ApplyAllSplits(s, events[..n]);
      SplitsSnoc(s, ListedTokens(events[..n]), Flags(events[..n]), ApplyAll(s, events[..n]), events[n]);
    }
  }

  /** The last event of `t` listed it, delisted it, or there is none. */
  function LastFlag(events: seq<Event>, t: Address): Option<bool> {
    if events == [] then None
    else if events[|events| - 1].token == t then Some(events[|events| - 1].listed)
    else LastFlag(events[..|events| - 1], t)
  }

  lemma {:induction false} FlagsAreLast(events: seq<Event>, t: Address)
    ensures LastFlag(events, t) == if t in Flags(events) then Some(Flags(events)[t]) else None
  {
    if events != [] {
      FlagsAreLast(events[..|events| - 1], t);
    }
  }

  lemma {:induction false} DedupFacts(order: seq<Address>, tokens: seq<Address>)
    requires NoDup(order)
    ensures NoDup(Dedup(order, tokens)) && order <= Dedup(order, tokens)
    ensures forall t :: t in Dedup(order, tokens) <==> t in order || t in tokens
  {
    if tokens != [] {
      DedupFacts(order, tokens[..|tokens| - 1]);
      assert tokens == tokens[..|tokens| - 1] + [tokens[|tokens| - 1]];
    }
  }

  /** A replay from nothing lists exactly the tokens whose last event is a listing, each once. */
  lemma ReplayListsLastListed(events: seq<Event>, t: Address)
    ensures var s := ApplyAll(NOTHING_SCANNED, events);
            && (t in Listed(s) <==> LastFlag(events, t) == Some(true))
            && NoDup(s.order) && s.order == Dedup([], ListedTokens(events))
  {
    var s := ApplyAll(NOTHING_SCANNED, events);
    ApplyAllSplits(NOTHING_SCANNED, events);
    FlagsAreLast(events, t);
    DedupFacts([], ListedTokens(events));
    FilterMember(s.order, (x: Address) => IsLive(s, x), t);
    assert map[] + Flags(events) == Flags(events);
  }

  // ----- replaying part of the log twice -----

  lemma {:induction false} ApplyAllConcat(s: State, a: seq<Event>, b: seq<Event>)
    ensures ApplyAll(s, a + b) == ApplyAll(ApplyAll(s, a), b)
  {
    if b == [] {
      assert a + b == a;
    } else {
      assert (a + b)[..|a + b| - 1] == a + b[..|b| - 1];
      ApplyAllConcat(s, a, b[..|b| - 1]);
    }
  }

  predicate IsListing(e: Event) {
    e.listed
  }

  lemma {:induction false} ListedTokensOfListings(events: seq<Event>)
    ensures ListedTokens(Filter(events, IsListing)) == ListedTokens(events)
    ensures Flags(Filter(events, IsListing)).Keys <= Flags(events).Keys
  {
    if events != [] {
      var n := |events| - 1;
      ListedTokensOfListings(events[..n]);
      var f := Filter(events[..n], IsListing);
      if events[n].listed {
        assert (f + [events[n]])[..|f|] == f;
      } else {
        assert f + [] == f;
      }
    }
  }

  lemma {:induction false} DedupAgain(order: seq<Address>, tokens: seq<Address>)
    requires forall t :: t in tokens ==> t in order
    ensures Dedup(order, tokens) == order
  {
    if tokens != [] {
      assert tokens[|tokens| - 1] in tokens;
      DedupAgain(order, tokens[..|tokens| - 1]);
    }
  }

  lemma {:induction false} DedupContains(order: seq<Address>, tokens: seq<Address>)
    ensures forall t :: t in tokens ==> t in Dedup(order, tokens)
  {
    if tokens != [] {
      DedupContains(order, tokens[..|tokens| - 1]);
      assert tokens == tokens[..|tokens| - 1] + [tokens[|tokens| - 1]];
    }
  }

  /** Listings applied ahead of the events they belong to leave no trace once those events are applied. */
  lemma EarlyListingsVanish(s: State, events: seq<Event>)
    requires WellFormed(s)
    ensures ApplyAll(ApplyAll(s, Filter(events, IsListing)), events) == ApplyAll(s, events)
  {
    var early := Filter(events, IsListing);
    var tokens := ListedTokens(events);
    ListedTokensOfListings(events);
    ApplyAllSplits(s, early);
    ApplyAllSplits(ApplyAll(s, early), events);
    ApplyAllSplits(s, events);
    DedupContains(s.order, tokens);
    DedupAgain(Dedup(s.order, tokens), tokens);
    assert (s.live + Flags(early)) + Flags(events) == s.live + Flags(events);
  }

  // ----- the log -----

  /** The pool's events, once each, in chain order. */
  ghost predicate IsLog(log: seq<Event>) {
    forall i, j :: 0 <= i < j < |log| ==> !EventOrder(log[j], log[i])
  }

  /** All events of blocks [lo, mid) and the listings of [mid, hi). */
  function Part(log: seq<Event>, lo: nat, mid: nat, hi: nat): seq<Event> {
    Filter(log, InPart(lo, mid, hi))
  }

  function InPart(lo: nat, mid: nat, hi: nat): Event -> bool {
    (e: Event) => lo <= e.block && (e.block < mid || (e.listed && e.block < hi))
  }

  /** The events one query asks for. */
  function Asked(lo: nat, end: nat, listed: bool): Event -> bool {
    (e: Event) => lo <= e.block <= end && e.listed == listed
  }

  /** A query that succeeds returns its events of the range, in any order. */
  ghost predicate Truthful(serve: Endpoint, log: seq<Event>) {
    forall lo: nat, end: nat {:trigger ChunkTruthful(serve(lo, end), log, lo, end)} ::
      ChunkTruthful(serve(lo, end), log, lo, end)
  }

  ghost predicate ChunkTruthful(chunk: Chunk, log: seq<Event>, lo: nat, end: nat) {
    && (chunk.listed.Some? ==> multiset(chunk.listed.value) == multiset(Filter(log, Asked(lo, end, true))))
    && (chunk.delisted.Some? ==> multiset(chunk.delisted.value) == multiset(Filter(log, Asked(lo, end, false))))
  }

  /** The block up to which listings of an unfinished chunk were gathered. */
  function EarlyUpTo(serve: Endpoint, start: nat, maxRange: nat, tip: nat, budget: nat): nat
    requires maxRange > 0
    decreases budget, tip
  {
    if start > tip || budget == 0 then start
    else
      var end := ChunkEnd(start, maxRange, tip);
      var chunk := serve(start, end);
      if chunk.listed.None? then start
      else if chunk.delisted.None? then end + 1
      else EarlyUpTo(serve, end + 1, maxRange, tip, budget - 1)
  }

  lemma {:induction false} EarlyUpToBounds(serve: Endpoint, start: nat, maxRange: nat, tip: nat, budget: nat)
    requires maxRange > 0
    ensures var c, hi := Collect(serve, start, maxRange, tip, budget), EarlyUpTo(serve, start, maxRange, tip, budget);
            && start <= c.next <= hi
            && (!c.failed ==> hi == c.next)
            && (hi > c.next ==> c.next <= tip && hi == ChunkEnd(c.next, maxRange, tip) + 1)
    decreases budget
  {
    if start <= tip && budget > 0 {
      var end := ChunkEnd(start, maxRange, tip);
      if serve(start, end).listed.Some? && serve(start, end).delisted.Some? {
        EarlyUpToBounds(serve, end + 1, maxRange, tip, budget - 1);
      }
    }
  }

  lemma {:induction false} FilterSame(log: seq<Event>, p: Event -> bool, q: Event -> bool)
    requires forall e :: p(e) <==> q(e)
    ensures Filter(log, p) == Filter(log, q)
  {
    if log != [] {
      FilterSame(log[..|log| - 1], p, q);
    }
  }

  /** How often an event that occurs `m` times in the log occurs in a part of it. */
  function Times(inside: bool, m: nat): nat {
    if inside then m else 0
  }

  /** The answers hold `e` as often as the log, which holds it `m` times. */
  predicate Counts(chunk: Chunk, lo: nat, end: nat, e: Event, m: nat) {
    && (chunk.listed.Some? ==> multiset(chunk.listed.value)[e] == Times(Asked(lo, end, true)(e), m))
    && (chunk.delisted.Some? ==> multiset(chunk.delisted.value)[e] == Times(Asked(lo, end, false)(e), m))
  }

  lemma ChunkCounts(chunk: Chunk, log: seq<Event>, lo: nat, end: nat, e: Event)
    requires ChunkTruthful(chunk, log, lo, end)
    ensures Counts(chunk, lo, end, e, multiset(log)[e])
  {
    FilterCount(log, Asked(lo, end, true), e);
    FilterCount(log, Asked(lo, end, false), e);
  }

  lemma CountConcat(a: seq<Event>, b: seq<Event>, c: seq<Event>, e: Event)
    ensures multiset(a + b + c)[e] == multiset(a)[e] + multiset(b)[e] + multiset(c)[e]
  {
  }

  lemma TimesAdd(start: nat, end: nat, next: nat, hi: nat, e: Event, m: nat)
    requires start <= end < next <= hi
    ensures Times(Asked(start, end, true)(e), m) + Times(Asked(start, end, false)(e), m)
            + Times(InPart(end + 1, next, hi)(e), m)
            == Times(InPart(start, next, hi)(e), m)
  {
  }

  /** What is gathered holds `e` as often as its part of the log. */
  predicate HoldsPart(c: Collected, start: nat, hi: nat, e: Event, m: nat) {
    start <= c.next <= hi && multiset(c.events)[e] == Times(InPart(start, c.next, hi)(e), m)
  }

  /** A full chunk in front of what the rest of the step gathered. */
  lemma ChunkInFront(chunk: Chunk, start: nat, end: nat, rest: Collected, hi: nat, e: Event, m: nat)
    requires start <= end && Counts(chunk, start, end, e, m) && chunk.listed.Some? && chunk.delisted.Some?
    requires HoldsPart(rest, end + 1, hi, e, m)
    ensures HoldsPart(Prepend(chunk.listed.value + chunk.delisted.value, rest), start, hi, e, m)
  {
    CountConcat(chunk.listed.value, chunk.delisted.value, rest.events, e);
    TimesAdd(start, end, rest.next, hi, e, m);
  }

  lemma LastChunkCounts(serve: Endpoint, start: nat, maxRange: nat, tip: nat, budget: nat, e: Event, m: nat)
    requires maxRange > 0
    requires var end := ChunkEnd(start, maxRange, tip);
             start > tip || budget == 0 || serve(start, end).listed.None?
             || (serve(start, end).delisted.None? && Counts(serve(start, end), start, end, e, m))
    ensures HoldsPart(Collect(serve, start, maxRange, tip, budget), start,
                      EarlyUpTo(serve, start, maxRange, tip, budget), e, m)
  {
  }

  lemma FullChunkCounts(serve: Endpoint, start: nat, maxRange: nat, tip: nat, budget: nat, e: Event, m: nat)
    requires maxRange > 0 && start <= tip && budget > 0
    requires var end := ChunkEnd(start, maxRange, tip);
             && serve(start, end).listed.Some? && serve(start, end).delisted.Some?
             && Counts(serve(start, end), start, end, e, m)
             && HoldsPart(Collect(serve, end + 1, maxRange, tip, budget - 1), end + 1,
                          EarlyUpTo(serve, end + 1, maxRange, tip, budget - 1), e, m)
    ensures HoldsPart(Collect(serve, start, maxRange, tip, budget), start,
                      EarlyUpTo(serve, start, maxRange, tip, budget), e, m)
  {
    var end := ChunkEnd(start, maxRange, tip);
    var chunk := serve(start, end);
    var rest := Collect(serve, end + 1, maxRange, tip, budget - 1);
    var hi := EarlyUpTo(serve, end + 1, maxRange, tip, budget - 1);
    ChunkInFront(chunk, start, end, rest, hi, e, m);
    assert EarlyUpTo(serve, start, maxRange, tip, budget) == hi;
    assert Collect(serve, start, maxRange, tip, budget) == Prepend(chunk.listed.value + chunk.delisted.value, rest);
  }

  /** Event by event: a step gathers every event of the chunks it finished, and the listings up to `EarlyUpTo`. */
  lemma {:induction false} CollectCounts(serve: Endpoint, log: seq<Event>, start: nat, maxRange: nat, tip: nat,
                                         budget: nat, e: Event)
    requires maxRange > 0 && Truthful(serve, log)
    ensures HoldsPart(Collect(serve, start, maxRange, tip, budget), start,
                      EarlyUpTo(serve, start, maxRange, tip, budget), e, multiset(log)[e])
    decreases budget
  {
    var end := ChunkEnd(start, maxRange, tip);
    var chunk := serve(start, end);
    assert ChunkTruthful(chunk, log, start, end);
    ChunkCounts(chunk, log, start, end, e);
    if start > tip || budget == 0 || chunk.listed.None? || chunk.delisted.None? {
      LastChunkCounts(serve, start, maxRange, tip, budget, e, multiset(log)[e]);
    } else {
      CollectCounts(serve, log, end + 1, maxRange, tip, budget - 1, e);
      FullChunkCounts(serve, start, maxRange, tip, budget, e, multiset(log)[e]);
    }
  }

  /** A step gathers every event of the chunks it finished, and at most the listings of the next one. */
  lemma CollectGathers(serve: Endpoint, log: seq<Event>, start: nat, maxRange: nat, tip: nat, budget: nat)
    requires maxRange > 0 && Truthful(serve, log)
    ensures var c := Collect(serve, start, maxRange, tip, budget);
            multiset(c.events)
            == multiset(Part(log, start, c.next, EarlyUpTo(serve, start, maxRange, tip, budget)))
  {
    var c, hi := Collect(serve, start, maxRange, tip, budget), EarlyUpTo(serve, start, maxRange, tip, budget);
    forall e: Event ensures multiset(c.events)[e] == multiset(Filter(log, InPart(start, c.next, hi)))[e] {
      CollectCounts(serve, log, start, maxRange, tip, budget, e);
      FilterCount(log, InPart(start, c.next, hi), e);
    }
  }

  lemma {:induction false} FilterNone(log: seq<Event>, p: Event -> bool)
    requires forall e :: !p(e)
    ensures Filter(log, p) == []
  {
    if log != [] {
      FilterNone(log[..|log| - 1], p);
    }
  }

  /** Sorting what a step gathered gives that part of the log, in order. */
  lemma SortedPart(serve: Endpoint, log: seq<Event>, start: nat, maxRange: nat, tip: nat, budget: nat)
    requires maxRange > 0 && Truthful(serve, log) && IsLog(log)
    ensures var c := Collect(serve, start, maxRange, tip, budget);
            Sort(c.events, EventOrder) == Part(log, start, c.next, EarlyUpTo(serve, start, maxRange, tip, budget))
  {
    var c, hi := Collect(serve, start, maxRange, tip, budget), EarlyUpTo(serve, start, maxRange, tip, budget);
    var p := InPart(start, c.next, hi);
    CollectGathers(serve, log, start, maxRange, tip, budget);
    FilterSorted(log, p, EventOrder);
    forall x, y | x in Filter(log, p) && y in Filter(log, p) && EventOrder(x, y) && EventOrder(y, x) ensures x == y {
      FilterMember(log, p, x);
      FilterMember(log, p, y);
      var i :| 0 <= i < |log| && log[i] == x;
      var j :| 0 <= j < |log| && log[j] == y;
      assert i == j;
    }
    SortRestores(c.events, Filter(log, p), EventOrder);
  }

  /** In an ordered log, a block boundary splits a filter in two. */
  lemma {:induction false} FilterSplits(log: seq<Event>, p: Event -> bool, q: Event -> bool, r: Event -> bool, at: nat)
    requires IsLog(log)
    requires forall e :: p(e) <==> r(e) && e.block < at
    requires forall e :: q(e) <==> r(e) && e.block >= at
    ensures Filter(log, r) == Filter(log, p) + Filter(log, q)
  {
    if log != [] {
      var n := |log| - 1;
      FilterSplits(log[..n], p, q, r, at);
      if log[n].block < at {
        forall e | e in log[..n] ensures e.block < at {
          var i :| 0 <= i < n && log[i] == e;
          assert !EventOrder(log[n], log[i]);
        }
        FilterNoneOf(log[..n], q);
        assert Filter(log[..n], p) + [] == Filter(log[..n], p);
      }
    }
  }

  lemma {:induction false} FilterNoneOf(log: seq<Event>, p: Event -> bool)
    requires forall e :: e in log ==> !p(e)
    ensures Filter(log, p) == []
  {
    if log != [] {
      assert log[|log| - 1] in log;
      FilterNoneOf(log[..|log| - 1], p);
    }
  }

  lemma {:induction false} FilterOfFilter(log: seq<Event>, p: Event -> bool, q: Event -> bool, r: Event -> bool)
    requires forall e :: r(e) <==> p(e) && q(e)
    ensures Filter(Filter(log, p), q) == Filter(log, r)
  {
    if log != [] {
      FilterOfFilter(log[..|log| - 1], p, q, r);
      var f := Filter(log[..|log| - 1], p);
      if p(log[|log| - 1]) {
        assert (f + [log[|log| - 1]])[..|f|] == f;
      } else {
        assert f + [] == f;
      }
    }
  }

  // ----- every run -----

  /** The state is the replay of blocks [from, start), plus the listings of [start, hi) of one unfinished chunk. */
  ghost predicate Replays(s: State, log: seq<Event>, from: nat, hi: nat, maxRange: nat, tip: nat) {
    var start := StartOf(s, from);
    && from <= start <= hi
    && s.(scannedTo := None) == ApplyAll(NOTHING_SCANNED, Part(log, from, start, hi))
    && (hi > start ==> maxRange > 0 && start <= tip && hi <= ChunkEnd(start, maxRange, tip) + 1)
  }

  /** Appending a later part whose listings were partly applied already. */
  lemma PartsJoin(log: seq<Event>, from: nat, start: nat, hi: nat, next: nat, hi': nat)
    requires IsLog(log) && from <= start <= hi <= hi' && start <= next <= hi'
    requires next == start || hi <= next
    ensures ApplyAll(ApplyAll(NOTHING_SCANNED, Part(log, from, start, hi)), Part(log, start, next, hi'))
            == ApplyAll(NOTHING_SCANNED, Part(log, from, next, hi'))
  {
    var all, done, added := InPart(from, next, hi'), InPart(from, start, start), InPart(start, next, hi');
    var partial, early := InPart(from, start, hi), InPart(start, start, hi);
    var near := (e: Event) => added(e) && e.block < hi;
    var far := (e: Event) => added(e) && e.block >= hi;
    FilterSplits(log, done, added, all, start);
    FilterSplits(log, done, early, partial, start);
    FilterSplits(log, near, far, added, hi);
    FilterOfFilter(log, near, IsListing, early);
    var base := ApplyAll(NOTHING_SCANNED, Filter(log, done));
    ApplyAllSplits(NOTHING_SCANNED, Filter(log, done));
    EarlyListingsVanish(base, Filter(log, near));
    ApplyAllConcat(NOTHING_SCANNED, Filter(log, done), Filter(log, early));
    ApplyAllConcat(ApplyAll(base, Filter(log, early)), Filter(log, near), Filter(log, far));
    ApplyAllConcat(base, Filter(log, near), Filter(log, far));
    ApplyAllConcat(NOTHING_SCANNED, Filter(log, done), Filter(log, added));
  }

  lemma {:induction false} ScannedToIsInert(s: State, events: seq<Event>, c: Option<nat>)
    ensures ApplyAll(s.(scannedTo := c), events) == ApplyAll(s, events).(scannedTo := c)
  {
    if events != [] {
      ScannedToIsInert(s, events[..|events| - 1], c);
    }
  }

  /** A step advanced its cursor and met no error. */
  predicate CleanAdvance(serve: Endpoint, from: nat, maxRange: nat, tip: nat, s: State)
    requires maxRange > 0
  {
    var c := Collect(serve, StartOf(s, from), maxRange, tip, MAX_CHUNKS_PER_CALL);
    c.next > StartOf(s, from) && !c.failed
  }

  /** A step applies one part of the log, read off the endpoint's answers. */
  lemma StepAppliesPart(serve: Endpoint, log: seq<Event>, from: nat, maxRange: nat, tip: nat, s: State)
    returns (next: nat, early: nat)
    requires maxRange > 0 && Truthful(serve, log) && IsLog(log)
    ensures var start := StartOf(s, from);
            && start <= next <= early
            && ScanEffect(serve, from, maxRange, tip, s)
               == Advanced(ApplyAll(s, Part(log, start, next, early)), start, next)
            && (next > start ==> start <= tip && next > ChunkEnd(start, maxRange, tip))
            && (early > start ==> start <= tip && early > ChunkEnd(start, maxRange, tip))
            && (early > next ==> next <= tip && early == ChunkEnd(next, maxRange, tip) + 1)
            && (CleanAdvance(serve, from, maxRange, tip, s) ==> next == early > start)
  {
    var start := StartOf(s, from);
    next := Collect(serve, start, maxRange, tip, MAX_CHUNKS_PER_CALL).next;
    early := EarlyUpTo(serve, start, maxRange, tip, MAX_CHUNKS_PER_CALL);
    EarlyUpToBounds(serve, start, maxRange, tip, MAX_CHUNKS_PER_CALL);
    FirstChunk(serve, start, maxRange, tip, MAX_CHUNKS_PER_CALL);
    SortedPart(serve, log, start, maxRange, tip, MAX_CHUNKS_PER_CALL);
  }

  /** Applying that part to a replay gives a replay. */
  lemma PartKeepsReplay(log: seq<Event>, from: nat, maxRange: nat, tip: nat, tip': nat, s: State, hi: nat, next: nat,
                        early: nat)
    returns (hi': nat)
    requires maxRange > 0 && IsLog(log) && tip <= tip' && Replays(s, log, from, hi, maxRange, tip)
    requires StartOf(s, from) <= next <= early
    requires next > StartOf(s, from) ==> next > ChunkEnd(StartOf(s, from), maxRange, tip')
    requires early > StartOf(s, from) ==> early > ChunkEnd(StartOf(s, from), maxRange, tip')
    requires early > next ==> next <= tip' && early == ChunkEnd(next, maxRange, tip') + 1
    ensures var start := StartOf(s, from);
            var r := Advanced(ApplyAll(s, Part(log, start, next, early)), start, next);
            Replays(r, log, from, hi', maxRange, tip') && StartOf(r, from) == next
    ensures next == early > StartOf(s, from) ==> hi' == next
  {
    var start := StartOf(s, from);
    var events := Part(log, start, next, early);
    hi' := if early > hi then early else hi;
    ScannedToIsInert(s, events, None);
    ScannedToIsInert(s, events, s.scannedTo);
    if early > start {
      PartsJoin(log, from, start, hi, next, early);
    } else {
      FilterNone(log, InPart(start, next, early));
    }
  }

  /** One step keeps the state a replay, exactly so after an advance without failure. */
  lemma StepReplays(serve: Endpoint, log: seq<Event>, from: nat, maxRange: nat, tip: nat, tip': nat, s: State, hi: nat)
    returns (hi': nat)
    requires maxRange > 0 && Truthful(serve, log) && IsLog(log) && tip <= tip'
    requires Replays(s, log, from, hi, maxRange, tip)
    ensures var r := ScanEffect(serve, from, maxRange, tip', s);
            && Replays(r, log, from, hi', maxRange, tip')
            && StartOf(r, from) >= StartOf(s, from)
            && (CleanAdvance(serve, from, maxRange, tip', s) ==> hi' == StartOf(r, from))
  {
    var next, early := StepAppliesPart(serve, log, from, maxRange, tip', s);
    hi' := PartKeepsReplay(log, from, maxRange, tip, tip', s, hi, next, early);
  }

  /** A step that advances at all finishes its whole first chunk. */
  lemma FirstChunk(serve: Endpoint, start: nat, maxRange: nat, tip: nat, budget: nat)
    requires maxRange > 0
    ensures var c := Collect(serve, start, maxRange, tip, budget);
            c.next > start ==> start <= tip && c.next > ChunkEnd(start, maxRange, tip)
    ensures var c, hi := Collect(serve, start, maxRange, tip, budget), EarlyUpTo(serve, start, maxRange, tip, budget);
            hi > start ==> hi > ChunkEnd(start, maxRange, tip)
  {
    if start <= tip && budget > 0 && serve(start, ChunkEnd(start, maxRange, tip)).delisted.Some? {
      var end := ChunkEnd(start, maxRange, tip);
      EarlyUpToBounds(serve, end + 1, maxRange, tip, budget - 1);
    }
  }

  /** One step of a run: the tip it saw and the endpoint it met. */
  datatype Step = Step(tip: nat, serve: Endpoint)

  function Run(from: nat, maxRange: nat, steps: seq<Step>): State
    requires maxRange > 0
  {
    if steps == [] then NOTHING_SCANNED
    else
      var last := steps[|steps| - 1];
      ScanEffect(last.serve, from, maxRange, last.tip, Run(from, maxRange, steps[..|steps| - 1]))
  }

  ghost predicate FairSteps(steps: seq<Step>, log: seq<Event>) {
    && (forall i :: 0 <= i < |steps| ==> Truthful(steps[i].serve, log))
    && (forall i, j :: 0 <= i < j < |steps| ==> steps[i].tip <= steps[j].tip)
  }

  function LastTip(steps: seq<Step>): nat {
    if steps == [] then 0 else steps[|steps| - 1].tip
  }

  /**
   After any sequence of steps, whatever fails and wherever the budget cuts off,
   the token list is one replay of the log up to the cursor plus at most the
   listings of the single chunk after it; and exactly the replay when the last
   step advanced without failure.
   */
  lemma {:induction false} RunReplays(from: nat, maxRange: nat, steps: seq<Step>, log: seq<Event>) returns (hi: nat)
    requires maxRange > 0 && IsLog(log) && FairSteps(steps, log)
    ensures Replays(Run(from, maxRange, steps), log, from, hi, maxRange, LastTip(steps))
    ensures steps != [] &&
            CleanAdvance(steps[|steps| - 1].serve, from, maxRange, steps[|steps| - 1].tip,
                         Run(from, maxRange, steps[..|steps| - 1]))
            ==> hi == StartOf(Run(from, maxRange, steps), from)
  {
    if steps == [] {
      hi := from;
      FilterNone(log, InPart(from, from, from));
    } else {
      var n := |steps| - 1;
      var before := RunReplays(from, maxRange, steps[..n], log);
      var s := Run(from, maxRange, steps[..n]);
      assert Truthful(steps[n].serve, log) && LastTip(steps[..n]) <= steps[n].tip;
      hi := StepReplays(steps[n].serve, log, from, maxRange, LastTip(steps[..n]), steps[n].tip, s, before);
      assert Run(from, maxRange, steps) == ScanEffect(steps[n].serve, from, maxRange, steps[n].tip, s);
    }
  }

  /** What an exact replay shows: the tokens whose last event up to the cursor is a listing. */
  lemma ExactListing(s: State, log: seq<Event>, from: nat, maxRange: nat, tip: nat, t: Address)
    requires Replays(s, log, from, StartOf(s, from), maxRange, tip)
    ensures t in Listed(s)
            <==> LastFlag(Filter(log, (e: Event) => from <= e.block < StartOf(s, from)), t) == Some(true)
  {
    var start := StartOf(s, from);
    var upTo := (e: Event) => from <= e.block < start;
    FilterSame(log, InPart(from, start, start), upTo);
    ReplayListsLastListed(Filter(log, upTo), t);
    var r := ApplyAll(NOTHING_SCANNED, Filter(log, upTo));
    FilterMember(s.order, (x: Address) => IsLive(s, x), t);
    FilterMember(r.order, (x: Address) => IsLive(r, x), t);
  }

  // ----- concurrent scans -----

  /** All events of blocks [lo, hi). */
  function Between(log: seq<Event>, lo: nat, hi: nat): seq<Event> {
    Filter(log, InPart(lo, hi, hi))
  }

  /** The tokens listed in blocks [lo, hi), listing by listing. */
  function ListedIn(log: seq<Event>, lo: nat, hi: nat): seq<Address> {
    ListedTokens(Between(log, lo, hi))
  }

  function FlagOf(s: State, t: Address): Option<bool> {
    if t in s.live then Some(s.live[t]) else None
  }

  /** The flag of `t` is that of the log before `start`, or shows a listing of [start, hi) already. */
  predicate FlagAhead(flag: Option<bool>, log: seq<Event>, from: nat, start: nat, hi: nat, t: Address) {
    flag == LastFlag(Between(log, from, start), t) || (flag == Some(true) && t in ListedIn(log, start, hi))
  }

  /**
   The state is a replay up to its cursor that may be ahead by listings of the blocks
   up to `hi`, less than a chunk away: each of its flags shows one or the other.
   */
  ghost predicate Ahead(s: State, log: seq<Event>, from: nat, hi: nat, maxRange: nat) {
    var start := StartOf(s, from);
    && from <= start <= hi <= start + maxRange
    && s.order == Dedup([], ListedIn(log, from, hi))
    && forall t :: FlagAhead(FlagOf(s, t), log, from, start, hi, t)
  }

  lemma BetweenSplits(log: seq<Event>, lo: nat, mid: nat, hi: nat)
    requires IsLog(log) && lo <= mid <= hi
    ensures Between(log, lo, hi) == Between(log, lo, mid) + Between(log, mid, hi)
  {
    FilterSplits(log, InPart(lo, mid, mid), InPart(mid, hi, hi), InPart(lo, hi, hi), mid);
  }

  lemma {:induction false} ListedTokensConcat(a: seq<Event>, b: seq<Event>)
    ensures ListedTokens(a + b) == ListedTokens(a) + ListedTokens(b)
  {
    if b == [] {
      assert a + b == a;
    } else {
      assert (a + b)[..|a + b| - 1] == a + b[..|b| - 1];
      ListedTokensConcat(a, b[..|b| - 1]);
    }
  }

  lemma {:induction false} LastFlagConcat(a: seq<Event>, b: seq<Event>, t: Address)
    ensures LastFlag(a + b, t) == if LastFlag(b, t).Some? then LastFlag(b, t) else LastFlag(a, t)
  {
    if b == [] {
      assert a + b == a;
    } else {
      assert (a + b)[..|a + b| - 1] == a + b[..|b| - 1];
      LastFlagConcat(a, b[..|b| - 1], t);
    }
  }

  lemma ListedInSplits(log: seq<Event>, lo: nat, mid: nat, hi: nat)
    requires IsLog(log) && lo <= mid <= hi
    ensures ListedIn(log, lo, hi) == ListedIn(log, lo, mid) + ListedIn(log, mid, hi)
  {
    BetweenSplits(log, lo, mid, hi);
    ListedTokensConcat(Between(log, lo, mid), Between(log, mid, hi));
  }

  /** A listing of the range is an event of the range. */
  lemma {:induction false} ListedHasFlag(events: seq<Event>, t: Address)
    ensures t in ListedTokens(events) ==> LastFlag(events, t).Some?
    ensures LastFlag(events, t) == Some(true) ==> t in ListedTokens(events)
  {
    if events != [] {
      ListedHasFlag(events[..|events| - 1], t);
    }
  }

  lemma {:induction false} OnlyListings(events: seq<Event>, t: Address)
    requires forall i :: 0 <= i < |events| ==> events[i].listed
    ensures LastFlag(events, t) == if t in ListedTokens(events) then Some(true) else None
  {
    if events != [] {
      OnlyListings(events[..|events| - 1], t);
    }
  }

  /** A step's part of the log: everything of [start, next), then the listings of [next, early). */
  lemma PartIsBoth(log: seq<Event>, start: nat, next: nat, early: nat)
    requires IsLog(log) && start <= next <= early
    ensures Part(log, start, next, early) == Between(log, start, next) + Filter(Between(log, next, early), IsListing)
  {
    var listings := InPart(next, next, early);
    FilterSplits(log, InPart(start, next, next), listings, InPart(start, next, early), next);
    FilterOfFilter(log, InPart(next, early, early), IsListing, listings);
  }

  lemma {:induction false} FilterKeepsOnly(events: seq<Event>)
    ensures forall i :: 0 <= i < |Filter(events, IsListing)| ==> Filter(events, IsListing)[i].listed
  {
    if events != [] {
      FilterKeepsOnly(events[..|events| - 1]);
    }
  }

  /** What a step's part says of one token. */
  lemma PartFlag(log: seq<Event>, start: nat, next: nat, early: nat, t: Address)
    requires IsLog(log) && start <= next <= early
    ensures LastFlag(Part(log, start, next, early), t)
            == if t in ListedIn(log, next, early) then Some(true) else LastFlag(Between(log, start, next), t)
    ensures ListedTokens(Part(log, start, next, early)) == ListedIn(log, start, early)
  {
    var first, second := Between(log, start, next), Between(log, next, early);
    var listings := Filter(second, IsListing);
    PartIsBoth(log, start, next, early);
    FilterKeepsOnly(second);
    OnlyListings(listings, t);
    LastFlagConcat(first, listings, t);
    ListedTokensOfListings(second);
    ListedTokensConcat(first, listings);
    ListedInSplits(log, start, next, early);
  }

  /** Applying a step's part keeps one token's flag right. */
  lemma FlagStaysAhead(flag: Option<bool>, after: Option<bool>, log: seq<Event>, from: nat, start: nat, next: nat,
                       early: nat, hi: nat, top: nat, t: Address)
    requires IsLog(log) && from <= start <= next <= early <= top && start <= hi <= top
    requires FlagAhead(flag, log, from, start, hi, t)
    requires after == var f := LastFlag(Part(log, start, next, early), t); if f.Some? then f else flag
    ensures FlagAhead(after, log, from, next, top, t)
  {
    PartFlag(log, start, next, early, t);
    BetweenSplits(log, from, start, next);
    LastFlagConcat(Between(log, from, start), Between(log, start, next), t);
    ListedInSplits(log, next, early, top);
    if t !in ListedIn(log, next, early) && LastFlag(Between(log, start, next), t).None? && t in ListedIn(log, start, hi) {
      StillAhead(log, start, next, hi, top, t);
    }
  }

  /** A listing of [start, hi) with no event of its token before `next` is one of [next, top). */
  lemma StillAhead(log: seq<Event>, start: nat, next: nat, hi: nat, top: nat, t: Address)
    requires IsLog(log) && start <= next <= top && start <= hi <= top
    requires t in ListedIn(log, start, hi) && LastFlag(Between(log, start, next), t).None?
    ensures t in ListedIn(log, next, top)
  {
    ListedInSplits(log, start, hi, top);
    ListedInSplits(log, start, next, top);
    ListedHasFlag(Between(log, start, next), t);
    assert t in ListedIn(log, start, hi) + ListedIn(log, hi, top);
    assert t in ListedIn(log, start, next) + ListedIn(log, next, top);
  }

  lemma {:induction false} DedupConcat(order: seq<Address>, a: seq<Address>, b: seq<Address>)
    ensures Dedup(order, a + b) == Dedup(Dedup(order, a), b)
  {
    if b == [] {
      assert a + b == a;
    } else {
      assert (a + b)[..|a + b| - 1] == a + b[..|b| - 1];
      DedupConcat(order, a, b[..|b| - 1]);
    }
  }

  /** Listings of [start, early) on top of those of [from, hi). */
  lemma OrderStaysAhead(log: seq<Event>, from: nat, start: nat, hi: nat, early: nat)
    requires IsLog(log) && from <= start <= hi && start <= early
    ensures Dedup(Dedup([], ListedIn(log, from, hi)), ListedIn(log, start, early))
            == Dedup([], ListedIn(log, from, if hi <= early then early else hi))
  {
    var done := Dedup([], ListedIn(log, from, hi));
    DedupContains([], ListedIn(log, from, hi));
    ListedInSplits(log, from, start, hi);
    if hi <= early {
      var old_, new_ := ListedIn(log, start, hi), ListedIn(log, hi, early);
      ListedInSplits(log, start, hi, early);
      ListedInSplits(log, from, hi, early);
      DedupConcat(done, old_, new_);
      DedupAgain(done, old_);
      DedupConcat([], ListedIn(log, from, hi), new_);
    } else {
      ListedInSplits(log, start, early, hi);
      DedupAgain(done, ListedIn(log, start, early));
    }
  }

  lemma AheadIsWellFormed(s: State, log: seq<Event>, from: nat, hi: nat, maxRange: nat)
    requires IsLog(log) && Ahead(s, log, from, hi, maxRange)
    ensures WellFormed(s)
  {
    var start := StartOf(s, from);
    DedupContains([], ListedIn(log, from, hi));
    ListedInSplits(log, from, start, hi);
    forall t | IsLive(s, t) ensures t in s.order {
      assert FlagAhead(FlagOf(s, t), log, from, start, hi, t);
      ListedHasFlag(Between(log, from, start), t);
    }
  }

  /** Applying any later part of the log to a state that is ahead gives one that is ahead. */
  lemma PartKeepsAhead(s: State, log: seq<Event>, from: nat, hi: nat, maxRange: nat, next: nat, early: nat, top: nat)
    requires IsLog(log) && Ahead(s, log, from, hi, maxRange) && StartOf(s, from) <= next <= early <= next + maxRange
    requires top == if hi <= early then early else hi
    ensures var start := StartOf(s, from);
            var r := Advanced(ApplyAll(s, Part(log, start, next, early)), start, next);
            StartOf(r, from) == next && Ahead(r, log, from, top, maxRange)
  {
    var start := StartOf(s, from);
    var events := Part(log, start, next, early);
    var applied := ApplyAll(s, events);
    AheadIsWellFormed(s, log, from, hi, maxRange);
    ApplyAllSplits(s, events);
    PartFlag(log, start, next, early, Zeros(20));
    OrderStaysAhead(log, from, start, hi, early);
    var r := Advanced(applied, start, next);
    assert StartOf(r, from) == next && r.live == applied.live;
    forall t ensures FlagAhead(FlagOf(r, t), log, from, next, top, t) {
      assert FlagAhead(FlagOf(s, t), log, from, start, hi, t);
      FlagsAreLast(events, t);
      FlagStaysAhead(FlagOf(s, t), FlagOf(applied, t), log, from, start, next, early, hi, top, t);
    }
  }

  /** Any scan of such a state gives such a state, whatever tip it saw; its cursor does not go back. */
  lemma ScanKeepsAhead(serve: Endpoint, log: seq<Event>, from: nat, maxRange: nat, tip: nat, s: State, hi: nat)
    returns (hi': nat)
    requires maxRange > 0 && Truthful(serve, log) && IsLog(log) && Ahead(s, log, from, hi, maxRange)
    ensures var r := ScanEffect(serve, from, maxRange, tip, s);
            && Ahead(r, log, from, hi', maxRange) && StartOf(r, from) >= StartOf(s, from)
            && (CleanAdvance(serve, from, maxRange, tip, s) && StartOf(r, from) >= hi ==> hi' == StartOf(r, from))
  {
    var next, early := StepAppliesPart(serve, log, from, maxRange, tip, s);
    hi' := if hi <= early then early else hi;
    PartKeepsAhead(s, log, from, hi, maxRange, next, early, hi');
  }

  /** A scan in flight: the snapshot it took, and the block it starts at when nothing was scanned. */
  datatype Scan = Scan(snapshot: State, from: nat)

  /** One chain's cache and the scans in flight. */
  datatype Shared = Shared(cache: Option<State>, scans: map<nat, Scan>)

  /** A scan begins, as a request or as a backfill, or finishes and writes its result back. */
  datatype Op = Begin(scan: nat, backfill: bool) | Finish(scan: nat, tip: nat, serve: Endpoint)

  /** A backfill starts from block 0, but is only spawned over a cache that has a cursor. */
  function Perform(c: Shared, op: Op, from: nat, maxRange: nat): Shared
    requires maxRange > 0
  {
    match op
    case Begin(id, backfill) =>
      var snapshot := if c.cache.Some? then c.cache.value else NOTHING_SCANNED;
      if backfill && snapshot.scannedTo.None? then c
      else c.(scans := c.scans[id := Scan(snapshot, if backfill then 0 else from)])
    case Finish(id, tip, serve) =>
      if id !in c.scans then c
      else
        var result := ScanEffect(serve, c.scans[id].from, maxRange, tip, c.scans[id].snapshot);
        Shared(Some(Stored(c.cache, result)), c.scans - {id})
  }

  function Interleaved(from: nat, maxRange: nat, ops: seq<Op>): Shared
    requires maxRange > 0
  {
    if ops == [] then Shared(None, map[])
    else Perform(Interleaved(from, maxRange, ops[..|ops| - 1]), ops[|ops| - 1], from, maxRange)
  }

  ghost predicate IsAhead(s: State, log: seq<Event>, from: nat, maxRange: nat) {
    exists hi :: Ahead(s, log, from, hi, maxRange)
  }

  ghost predicate SharedInv(c: Shared, log: seq<Event>, from: nat, maxRange: nat) {
    && (c.cache.Some? ==> IsAhead(c.cache.value, log, from, maxRange))
    && forall id :: id in c.scans ==>
         IsAhead(c.scans[id].snapshot, log, from, maxRange)
         && (c.scans[id].from == from || c.scans[id].snapshot.scannedTo.Some?)
  }

  ghost predicate TruthfulOps(ops: seq<Op>, log: seq<Event>) {
    forall i :: 0 <= i < |ops| && ops[i].Finish? ==> Truthful(ops[i].serve, log)
  }

  lemma NothingIsAhead(log: seq<Event>, from: nat, maxRange: nat)
    requires IsLog(log)
    ensures IsAhead(NOTHING_SCANNED, log, from, maxRange)
  {
    FilterNone(log, InPart(from, from, from));
    assert Ahead(NOTHING_SCANNED, log, from, from, maxRange);
  }

  /** Where a scan starts does not depend on `from` once there is a cursor. */
  lemma CursorFixesStart(serve: Endpoint, from: nat, other: nat, maxRange: nat, tip: nat, s: State)
    requires maxRange > 0 && (from == other || s.scannedTo.Some?)
    ensures ScanEffect(serve, other, maxRange, tip, s) == ScanEffect(serve, from, maxRange, tip, s)
  {
  }

  lemma PerformKeepsInv(c: Shared, op: Op, log: seq<Event>, from: nat, maxRange: nat)
    requires maxRange > 0 && IsLog(log) && SharedInv(c, log, from, maxRange)
    requires op.Finish? ==> Truthful(op.serve, log)
    ensures SharedInv(Perform(c, op, from, maxRange), log, from, maxRange)
    ensures c.cache.Some? ==>
              && Perform(c, op, from, maxRange).cache.Some?
              && !CursorBefore(Perform(c, op, from, maxRange).cache.value.scannedTo, c.cache.value.scannedTo)
  {
    match op
    case Begin(id, backfill) => NothingIsAhead(log, from, maxRange);
    case Finish(id, tip, serve) =>
      if id in c.scans {
        var scan := c.scans[id];
        var hi :| Ahead(scan.snapshot, log, from, hi, maxRange);
        CursorFixesStart(serve, from, scan.from, maxRange, tip, scan.snapshot);
        var hi' := ScanKeepsAhead(serve, log, from, maxRange, tip, scan.snapshot, hi);
      }
  }

  /**
   Under any interleaving of requests and backfills, each scanning from the snapshot it
   took with whatever tip it saw, and writing back when it is done: the cached list is
   a replay up to its cursor, ahead by at most listings of the next chunk.
   */
  lemma {:induction false} InterleavedScansReplay(from: nat, maxRange: nat, ops: seq<Op>, log: seq<Event>)
    requires maxRange > 0 && IsLog(log) && TruthfulOps(ops, log)
    ensures SharedInv(Interleaved(from, maxRange, ops), log, from, maxRange)
  {
    if ops != [] {
      var n := |ops| - 1;
      InterleavedScansReplay(from, maxRange, ops[..n], log);
      PerformKeepsInv(Interleaved(from, maxRange, ops[..n]), ops[n], log, from, maxRange);
    }
  }

  /**
   What such a list shows: every token that is listed at the cursor, and beside those only
   tokens with a listing in the chunk after it.
   */
  lemma AheadLists(s: State, log: seq<Event>, from: nat, maxRange: nat, t: Address)
    requires IsLog(log) && IsAhead(s, log, from, maxRange)
    ensures var start := StartOf(s, from);
            && (LastFlag(Between(log, from, start), t) == Some(true) ==> t in Listed(s))
            && (t in Listed(s) ==> LastFlag(Between(log, from, start), t) == Some(true)
                                   || t in ListedIn(log, start, start + maxRange))
  {
    var hi :| Ahead(s, log, from, hi, maxRange);
    AheadListsTo(s, log, from, hi, maxRange, StartOf(s, from), t);
  }

  lemma AheadListsTo(s: State, log: seq<Event>, from: nat, hi: nat, maxRange: nat, start: nat, t: Address)
    requires IsLog(log) && Ahead(s, log, from, hi, maxRange) && start == StartOf(s, from)
    ensures LastFlag(Between(log, from, start), t) == Some(true) ==> t in Listed(s)
    ensures t in Listed(s) ==> LastFlag(Between(log, from, start), t) == Some(true)
                               || t in ListedIn(log, start, start + maxRange)
  {
    var flag := FlagOf(s, t);
    AheadIsWellFormed(s, log, from, hi, maxRange);
    ShownIff(s, t);
    FlagOfAhead(s, log, from, hi, maxRange, t);
    FlagSoon(flag, log, from, start, hi, start + maxRange, t);
    FlagShows(flag, log, from, start, start + maxRange, t);
  }

  lemma FlagOfAhead(s: State, log: seq<Event>, from: nat, hi: nat, maxRange: nat, t: Address)
    requires Ahead(s, log, from, hi, maxRange)
    ensures FlagAhead(FlagOf(s, t), log, from, StartOf(s, from), hi, t)
  {
  }

  lemma FlagShows(flag: Option<bool>, log: seq<Event>, from: nat, start: nat, top: nat, t: Address)
    requires FlagAhead(flag, log, from, start, top, t)
    ensures LastFlag(Between(log, from, start), t) == Some(true) ==> flag == Some(true)
    ensures flag == Some(true) ==> LastFlag(Between(log, from, start), t) == Some(true) || t in ListedIn(log, start, top)
  {
  }

  lemma ShownIff(s: State, t: Address)
    requires WellFormed(s)
    ensures t in Listed(s) <==> FlagOf(s, t) == Some(true)
  {
    FilterMember(s.order, (x: Address) => IsLive(s, x), t);
  }

  lemma FlagSoon(flag: Option<bool>, log: seq<Event>, from: nat, start: nat, hi: nat, top: nat, t: Address)
    requires IsLog(log) && start <= hi <= top && FlagAhead(flag, log, from, start, hi, t)
    ensures FlagAhead(flag, log, from, start, top, t)
  {
    ListedInSplits(log, start, hi, top);
  }

  // ----- progress -----

  /** Both queries of every chunk of [start, tip] succeed. */
  ghost predicate Answers(serve: Endpoint, start: nat, tip: nat) {
    forall lo: nat, hi: nat :: start <= lo <= hi <= tip ==> serve(lo, hi).listed.Some? && serve(lo, hi).delisted.Some?
  }

  function Least(a: nat, b: nat): nat {
    if a <= b then a else b
  }

  function Blocks(chunks: nat, maxRange: nat): nat {
    chunks * maxRange
  }

  lemma BlocksStep(chunks: nat, maxRange: nat)
    requires chunks > 0
    ensures Blocks(chunks, maxRange) == maxRange + Blocks(chunks - 1, maxRange)
  {
  }

  lemma {:induction false} AnsweredCollect(serve: Endpoint, start: nat, maxRange: nat, tip: nat, budget: nat)
    requires maxRange > 0 && Answers(serve, start, tip) && start <= tip + 1
    ensures var c := Collect(serve, start, maxRange, tip, budget);
            !c.failed && c.next == Least(tip + 1, start + Blocks(budget, maxRange))
    decreases budget
  {
    if start <= tip && budget > 0 {
      var end := ChunkEnd(start, maxRange, tip);
      assert serve(start, end).listed.Some? && serve(start, end).delisted.Some?;
      AnsweredCollect(serve, end + 1, maxRange, tip, budget - 1);
      BlocksStep(budget, maxRange);
    }
  }

  /** A step whose queries succeed reads the next 20 chunks, or up to the tip, and says so exactly. */
  lemma AnsweredStepAdvances(serve: Endpoint, from: nat, maxRange: nat, tip: nat, s: State)
    requires maxRange > 0 && StartOf(s, from) <= tip && Answers(serve, StartOf(s, from), tip)
    ensures ScanEffect(serve, from, maxRange, tip, s).scannedTo
            == Some(Least(tip, StartOf(s, from) + Blocks(20, maxRange) - 1))
    ensures CleanAdvance(serve, from, maxRange, tip, s)
  {
    var start := StartOf(s, from);
    AnsweredCollect(serve, start, maxRange, tip, 20);
    BlocksStep(20, maxRange);
    var c := Collect(serve, start, maxRange, tip, MAX_CHUNKS_PER_CALL);
    ScannedToIsInert(s, Sort(c.events, EventOrder), s.scannedTo);
  }

  function Steps(from: nat, maxRange: nat, tip: nat, serve: Endpoint, s: State, n: nat): State
    requires maxRange > 0
    decreases n, s
  {
    if n == 0 then s else Steps(from, maxRange, tip, serve, ScanEffect(serve, from, maxRange, tip, s), n - 1)
  }

  /** Enough such steps reach the tip, however far behind the list was. */
  lemma {:induction false} AnsweredStepsReachTip(serve: Endpoint, from: nat, maxRange: nat, tip: nat, s: State, n: nat)
    requires maxRange > 0 && StartOf(s, from) <= tip && Answers(serve, StartOf(s, from), tip)
    requires StartOf(s, from) + Blocks(n, Blocks(20, maxRange)) > tip
    ensures Steps(from, maxRange, tip, serve, s, n).scannedTo == Some(tip)
    decreases n
  {
    assert n > 0 by {
      assert Blocks(0, Blocks(20, maxRange)) == 0;
    }
    var next := ScanEffect(serve, from, maxRange, tip, s);
    AnsweredStepAdvances(serve, from, maxRange, tip, s);
    BlocksStep(n, Blocks(20, maxRange));
    if next.scannedTo == Some(tip) {
      AtTipStays(serve, from, maxRange, tip, next, n - 1);
    } else {
      AnsweredStepsReachTip(serve, from, maxRange, tip, next, n - 1);
    }
  }

  lemma {:induction false} AtTipStays(serve: Endpoint, from: nat, maxRange: nat, tip: nat, s: State, n: nat)
    requires maxRange > 0 && s.scannedTo == Some(tip)
    ensures Steps(from, maxRange, tip, serve, s, n).scannedTo == Some(tip)
    decreases n
  {
    if n > 0 {
      AtTipStays(serve, from, maxRange, tip, ScanEffect(serve, from, maxRange, tip, s), n - 1);
    }
  }

  predicate CursorReaches(c: Shared, block: nat) {
    c.cache.Some? && c.cache.value.scannedTo.Some? && c.cache.value.scannedTo.value >= block
  }

  /** No operation takes the cached cursor back, and a finished scan brings it at least as far as it got. */
  lemma PerformReaches(c: Shared, op: Op, from: nat, maxRange: nat, block: nat)
    requires maxRange > 0
    ensures CursorReaches(c, block) ==> CursorReaches(Perform(c, op, from, maxRange), block)
    ensures op.Finish? && op.scan in c.scans ==>
              var r := ScanEffect(op.serve, c.scans[op.scan].from, maxRange, op.tip, c.scans[op.scan].snapshot);
              r.scannedTo == Some(block) ==> CursorReaches(Perform(c, op, from, maxRange), block)
  {
  }

  lemma InterleavedSnoc(from: nat, maxRange: nat, ops: seq<Op>, n: nat)
    requires maxRange > 0 && n < |ops|
    ensures Interleaved(from, maxRange, ops[..n + 1])
            == Perform(Interleaved(from, maxRange, ops[..n]), ops[n], from, maxRange)
  {
    assert ops[..n + 1][..n] == ops[..n];
  }

  lemma {:induction false} ReachedStays(from: nat, maxRange: nat, ops: seq<Op>, n: nat, block: nat)
    requires maxRange > 0 && n <= |ops| && CursorReaches(Interleaved(from, maxRange, ops[..n]), block)
    ensures CursorReaches(Interleaved(from, maxRange, ops), block)
    decreases |ops| - n
  {
    if n == |ops| {
      assert ops[..n] == ops;
    } else {
      InterleavedSnoc(from, maxRange, ops, n);
      PerformReaches(Interleaved(from, maxRange, ops[..n]), ops[n], from, maxRange, block);
      ReachedStays(from, maxRange, ops, n + 1, block);
    }
  }

  /**
   Under any interleaving, a scan whose queries succeed brings the cached cursor the next
   20 chunks beyond the snapshot it took, or to its tip, and nothing that is written
   afterwards takes it back.
   */
  lemma AnsweredScanIsKept(from: nat, maxRange: nat, ops: seq<Op>, n: nat)
    requires maxRange > 0 && n < |ops| && ops[n].Finish? && ops[n].scan in Interleaved(from, maxRange, ops[..n]).scans
    requires var scan := Interleaved(from, maxRange, ops[..n]).scans[ops[n].scan];
             StartOf(scan.snapshot, scan.from) <= ops[n].tip
             && Answers(ops[n].serve, StartOf(scan.snapshot, scan.from), ops[n].tip)
    ensures var scan := Interleaved(from, maxRange, ops[..n]).scans[ops[n].scan];
            CursorReaches(Interleaved(from, maxRange, ops),
                          Least(ops[n].tip, StartOf(scan.snapshot, scan.from) + Blocks(20, maxRange) - 1))
  {
    var c := Interleaved(from, maxRange, ops[..n]);
    var scan := c.scans[ops[n].scan];
    BlocksStep(20, maxRange);
    var block := Least(ops[n].tip, StartOf(scan.snapshot, scan.from) + Blocks(20, maxRange) - 1);
    AnsweredStepAdvances(ops[n].serve, scan.from, maxRange, ops[n].tip, scan.snapshot);
    PerformReaches(c, ops[n], from, maxRange, block);
    InterleavedSnoc(from, maxRange, ops, n);
    ReachedStays(from, maxRange, ops, n + 1, block);
  }

  /** A step depends on no query of more than `maxRange` blocks, nor beyond the tip. */
  lemma {:induction false} CollectAsksWithinRange(serve: Endpoint, other: Endpoint, start: nat, maxRange: nat, tip: nat,
                                                  budget: nat)
    requires maxRange > 0
    requires forall lo: nat, hi: nat :: start <= lo <= hi <= tip && hi < lo + maxRange ==> serve(lo, hi) == other(lo, hi)
    ensures Collect(serve, start, maxRange, tip, budget) == Collect(other, start, maxRange, tip, budget)
    decreases budget
  {
    if start <= tip && budget > 0 {
      var end := ChunkEnd(start, maxRange, tip);
      assert serve(start, end) == other(start, end);
      CollectAsksWithinRange(serve, other, end + 1, maxRange, tip, budget - 1);
    }
  }
}
