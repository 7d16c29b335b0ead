/**
 The indexer's chain loop: a window of confirmed blocks is scanned for each
 configured contract, and the cursor moves only as far as every scan reached.
 Endpoints are parameters: each may lag, fail, or be a different node from one
 call to the next. `history` stands for the logs of the final chain.
 */
module Indexer {
  import opened Words
  import opened Collections

  datatype Log = Log(address: Address, block: Option<nat>, index: Option<nat>, blockHash: Option<Bytes32>,
    removed: bool, data: Bytes)
  datatype Header = Header(number: nat, hash: Bytes32)

  /** One batch answer: the logs and the block asked for with them. */
  datatype Answer = Answer(logs: seq<Log>, block: Option<Header>)

  /** What one scan meets: a head read, a batch (`None` is an error), and handlers that may fail. */
  datatype Endpoint = Endpoint(head: Option<nat>, serve: (Address, nat, nat) -> Option<Answer>, accepts: Log -> bool)

  datatype Window = Window(from: nat, to: nat, confirmations: nat)
  datatype Fetched = FetchFailed | NotServed | Served(upTo: nat, logs: seq<Log>)
  datatype Scanned = ScanFailed | Lagging | Reached(upTo: nat)

  // ----- block windows -----

  function Monus(a: nat, b: nat): nat {
    if a < b then 0 else a - b
  }

  function Min(a: nat, b: nat): nat {
    if a < b then a else b
  }

  function ClampScanWindow(from: nat, to: nat, head: nat, confirmations: nat): Option<nat> {
    var confirmed := Monus(head, confirmations);
    if confirmed < from then None else Some(Min(to, confirmed))
  }

  /** Block 0 counts as confirmed even on a chain shorter than the confirmation depth. */
  predicate ConfirmedAt(b: nat, head: nat, confirmations: nat) {
    b == 0 || b + confirmations <= head
  }

  /**
   The clamp is the largest block of the window this endpoint has confirmed,
   and is absent exactly when it has confirmed none.
   */
  lemma ClampIsLargestConfirmed(from: nat, to: nat, head: nat, confirmations: nat)
    requires from <= to
    ensures var r := ClampScanWindow(from, to, head, confirmations);
            && (r.Some? <==> exists b :: from <= b <= to && ConfirmedAt(b, head, confirmations))
            && (r.Some? ==>
                  && from <= r.value <= to && ConfirmedAt(r.value, head, confirmations)
                  && forall b :: r.value < b <= to ==> !ConfirmedAt(b, head, confirmations))
  {
    if ConfirmedAt(from, head, confirmations) {
      assert from <= from <= to;
    }
  }

  // ----- one scan -----

  function BlockOf(l: Log): nat {
    if l.block.Some? then l.block.value else 0
  }

  function IndexOf(l: Log): nat {
    if l.index.Some? then l.index.value else 0
  }

  /** The key the logs are sorted by. */
  predicate ChainOrder(a: Log, b: Log) {
    BlockOf(a) < BlockOf(b) || (BlockOf(a) == BlockOf(b) && IndexOf(a) <= IndexOf(b))
  }

  predicate Kept(l: Log) {
    !l.removed
  }

  predicate WindowEndVouched(upTo: nat, answer: Answer) {
    && answer.block.Some?
    && answer.block.value.number == upTo
    && forall l :: l in answer.logs && l.block == Some(upTo) ==> l.blockHash == Some(answer.block.value.hash)
  }

  function Fetch(e: Endpoint, address: Address, w: Window): Fetched {
    if e.head.None? then FetchFailed
    else
      var upTo := ClampScanWindow(w.from, w.to, e.head.value, w.confirmations);
      if upTo.None? then NotServed
      else
        var answer := e.serve(address, w.from, upTo.value);
        if answer.None? then FetchFailed
        else if !WindowEndVouched(upTo.value, answer.value) then NotServed
        else Served(upTo.value, Filter(Sort(answer.value.logs, ChainOrder), Kept))
  }

  /** How many leading logs the handler takes before it first fails. */
  function AcceptedCount(logs: seq<Log>, accepts: Log -> bool): (n: nat)
    ensures n <= |logs|
    ensures forall i :: 0 <= i < n ==> accepts(logs[i])
    ensures n < |logs| ==> !accepts(logs[n])
  {
    if logs == [] || !accepts(logs[0]) then 0 else 1 + AcceptedCount(logs[1..], accepts)
  }

  /** A scan's result and the logs its handler took, in order. */
  function ScanEffect(e: Endpoint, address: Address, w: Window): (Scanned, seq<Log>) {
    match Fetch(e, address, w)
    case FetchFailed => (ScanFailed, [])
    case NotServed => (Lagging, [])
    case Served(upTo, logs) =>
      var n := AcceptedCount(logs, e.accepts);
      (if n == |logs| then Reached(upTo) else ScanFailed, logs[..n])
  }

  method FetchWindow(e: Endpoint, address: Address, w: Window) returns (r: Fetched)
    ensures r == Fetch(e, address, w)
  {
    if e.head.None? {
      return FetchFailed;
    }
    var upTo := ClampScanWindow(w.from, w.to, e.head.value, w.confirmations);
    if upTo.None? {
      return NotServed;
    }
    var answer := e.serve(address, w.from, upTo.value);
    if answer.None? {
      return FetchFailed;
    }
    var logs := answer.value.logs;
    if !WindowEndVouched(upTo.value, answer.value) {
      return NotServed;
    }
    logs := Sort(logs, ChainOrder);
    logs := Filter(logs, Kept);
    return Served(upTo.value, logs);
  }

  method Scan(e: Endpoint, address: Address, w: Window) returns (r: Scanned, handled: seq<Log>)
    ensures (r, handled) == ScanEffect(e, address, w)
  {
    handled := [];
    var fetched := FetchWindow(e, address, w);
    if fetched.FetchFailed? {
      return ScanFailed, handled;
    }
    if fetched.NotServed? {
      return Lagging, handled;
    }
    var logs := fetched.logs;
    var i := 0;
    while i < |logs|
      invariant 0 <= i <= |logs| && handled == logs[..i]
      invariant forall k :: 0 <= k < i ==> e.accepts(logs[k])
    {
      if !e.accepts(logs[i]) {
        return ScanFailed, handled;
      }
      handled := handled + [logs[i]];
      i := i + 1;
    }
    return Reached(fetched.upTo), handled;
  }

  // ----- the final chain -----

  /** `history` lists the chain's logs once each, in order. */
  ghost predicate IsChain(history: seq<Log>) {
    && (forall i :: 0 <= i < |history| ==> history[i].block.Some? && history[i].index.Some? && !history[i].removed)
    && (forall i, j :: 0 <= i < j < |history| ==> !ChainOrder(history[j], history[i]))
  }

  predicate InWindow(l: Log, address: Address, lo: nat, hi: nat) {
    l.address == address && lo <= BlockOf(l) <= hi
  }

  function WindowLogs(history: seq<Log>, address: Address, lo: nat, hi: nat): seq<Log> {
    Filter(history, (l: Log) => InWindow(l, address, lo, hi))
  }

  /** The answer shows block `hi`, and its logs of that block are of the shown one. */
  predicate HasImported(answer: Answer, hi: nat) {
    && answer.block.Some? && answer.block.value.number == hi
    && forall i :: 0 <= i < |answer.logs| && answer.logs[i].block == Some(hi) ==>
         answer.logs[i].blockHash == Some(answer.block.value.hash)
  }

  /**
   The assumption on endpoints, for windows that end at a block their head has
   confirmed: an answer that passes the vouching check comes from a node that has
   imported the window's last block, so it holds exactly the window's logs, in any
   order, beside any orphans it flags as removed. Nothing is assumed of later blocks.
   */
  ghost predicate Truthful(e: Endpoint, history: seq<Log>, confirmations: nat) {
    forall address, lo: nat, hi: nat ::
      && e.head.Some? && (hi == 0 || hi + confirmations <= e.head.value)
      && e.serve(address, lo, hi).Some? && HasImported(e.serve(address, lo, hi).value, hi)
      ==> multiset(Filter(e.serve(address, lo, hi).value.logs, Kept)) == multiset(WindowLogs(history, address, lo, hi))
  }

  lemma OrderIsTotal()
    ensures TotalPreorder(ChainOrder)
  {
  }

  lemma ChainIsStrict(history: seq<Log>)
    requires IsChain(history)
    ensures SortedBy(history, ChainOrder) && Separates(history, ChainOrder)
  {
    forall x, y | x in history && y in history && ChainOrder(x, y) && ChainOrder(y, x) ensures x == y {
      var i :| 0 <= i < |history| && history[i] == x;
      var j :| 0 <= j < |history| && history[j] == y;
      assert i == j;
    }
  }

  /** A served window holds exactly the chain's logs of that window, in chain order. */
  lemma FetchServesWindow(e: Endpoint, address: Address, w: Window, history: seq<Log>)
    requires IsChain(history) && Truthful(e, history, w.confirmations) && w.from <= w.to
    ensures var r := Fetch(e, address, w);
            r.Served? ==> w.from <= r.upTo <= w.to && r.logs == WindowLogs(history, address, w.from, r.upTo)
  {
    var r := Fetch(e, address, w);
    if r.Served? {
      var answer := e.serve(address, w.from, r.upTo).value;
      ClampIsLargestConfirmed(w.from, w.to, e.head.value, w.confirmations);
      var expected := WindowLogs(history, address, w.from, r.upTo);
      OrderIsTotal();
      ChainIsStrict(history);
      SortIsSortedPermutation(answer.logs, ChainOrder);
      FilterPermutes(Sort(answer.logs, ChainOrder), answer.logs, Kept);
      FilterSorted(Sort(answer.logs, ChainOrder), Kept, ChainOrder);
      FilterSorted(history, (l: Log) => InWindow(l, address, w.from, r.upTo), ChainOrder);
      forall x | x in expected ensures x in history {
        FilterMember(history, (l: Log) => InWindow(l, address, w.from, r.upTo), x);
      }
      SortedIsUnique(expected, r.logs, ChainOrder);
    }
  }

  // ----- the loop -----

  datatype Config = Config(gate: Option<Address>, router: Option<Address>, pool: Option<Address>, startBlock: nat,
    confirmations: nat, maxRange: nat)

  /** What happens to the cursor write: it may land although the caller sees an error. */
  datatype Write = Acknowledged | LandedUnseen | Lost

  datatype TickInput = TickInput(head: Option<nat>, gate: Endpoint, router: Endpoint, pool: Endpoint, write: Write)

  /** `cursor` is the persisted one; `handled` lists every log a handler has taken, oldest first. */
  datatype LoopState = LoopState(fromBlock: nat, cachedLatest: Option<nat>, cursor: Option<nat>, handled: seq<Log>)

  datatype Progress = Progress(allOk: bool, scannedTo: Option<nat>, handled: seq<Log>)

  function Narrow(scannedTo: Option<nat>, limit: Option<nat>): Option<nat> {
    if scannedTo.Some? && limit.Some? then Some(Min(scannedTo.value, limit.value)) else None
  }

  /** The progress of a tick after one more scanner, if its contract is configured. */
  function After(p: Progress, contract: Option<Address>, e: Endpoint, w: Window): Progress {
    if contract.None? then p
    else
      var (r, taken) := ScanEffect(e, contract.value, w);
      match r
      case ScanFailed => Progress(false, p.scannedTo, p.handled + taken)
      case Lagging => Progress(p.allOk, None, p.handled + taken)
      case Reached(upTo) => Progress(p.allOk, Narrow(p.scannedTo, Some(upTo)), p.handled + taken)
  }

  predicate NeedsHead(cfg: Config, s: LoopState) {
    s.cachedLatest.None? || s.fromBlock + cfg.confirmations > s.cachedLatest.value
  }

  function TickWindow(cfg: Config, from: nat, latest: nat): Window {
    Window(from, Min(Monus(latest, cfg.confirmations), Monus(from + cfg.maxRange, 1)), cfg.confirmations)
  }

  function ScanContracts(cfg: Config, s: LoopState, w: Window, input: TickInput): Progress {
    var p0 := Progress(true, Some(w.to), s.handled);
    var p1 := After(p0, cfg.gate, input.gate, w);
    var p2 := After(p1, cfg.router, input.router, w);
    After(p2, cfg.pool, input.pool, w)
  }

  function TickEffect(cfg: Config, s: LoopState, input: TickInput): LoopState {
    if NeedsHead(cfg, s) && input.head.None? then s
    else
      var latest := if NeedsHead(cfg, s) then input.head.value else s.cachedLatest.value;
      var s1 := s.(cachedLatest := Some(latest));
      if Monus(latest, cfg.confirmations) < s.fromBlock then s1
      else
        var p := ScanContracts(cfg, s1, TickWindow(cfg, s.fromBlock, latest), input);
        var s2 := s1.(handled := p.handled);
        if !p.allOk then s2
        else if p.scannedTo.None? then s2.(cachedLatest := None)
        else match input.write
          case Acknowledged => s2.(cursor := p.scannedTo, fromBlock := p.scannedTo.value + 1)
          case LandedUnseen => s2.(cursor := p.scannedTo)
          case Lost => s2
  }

  /** The block a restarted loop begins at; `readable` says whether the cursor read succeeded. */
  function RestartFrom(cfg: Config, cursor: Option<nat>, readable: bool): nat {
    if readable && cursor.Some? then cursor.value + 1 else cfg.startBlock
  }

  class ChainLoop {
    const cfg: Config
    var fromBlock: nat
    var cachedLatest: Option<nat>
    var cursor: Option<nat>
    var handled: seq<Log>

    function State(): LoopState
      reads this
    {
      LoopState(fromBlock, cachedLatest, cursor, handled)
    }

    constructor (cfg: Config, cursor: Option<nat>, readable: bool, handled: seq<Log>)
      ensures this.cfg == cfg && State() == LoopState(RestartFrom(cfg, cursor, readable), None, cursor, handled)
    {
      this.cfg, this.cursor, this.handled, cachedLatest := cfg, cursor, handled, None;
      if readable && cursor.Some? {
        fromBlock := cursor.value + 1;
      } else {
        fromBlock := cfg.startBlock;
      }
    }

    /** One turn of the loop. */
    method Tick(input: TickInput)
      requires cfg.maxRange > 0
      modifies this
      ensures State() == TickEffect(cfg, old(State()), input)
    {
      if cachedLatest.None? || fromBlock + cfg.confirmations > cachedLatest.value {
        if input.head.None? {
          return;
        }
        cachedLatest := input.head;
      }
      if Monus(cachedLatest.value, cfg.confirmations) >= fromBlock {
        var w := TickWindow(cfg, fromBlock, cachedLatest.value);
        var allOk, scannedTo := ScanAll(w, input);
        if allOk && scannedTo.None? {
          cachedLatest := None;
        }
        if allOk && scannedTo.Some? {
          if input.write != Lost {
            cursor := scannedTo;
          }
          if input.write == Acknowledged {
            fromBlock := scannedTo.value + 1;
          }
        }
      }
    }

    method ScanAll(w: Window, input: TickInput) returns (allOk: bool, scannedTo: Option<nat>)
      modifies this`handled
      ensures Progress(allOk, scannedTo, handled) == ScanContracts(cfg, old(State()), w, input)
    {
      allOk, scannedTo := true, Some(w.to);
      allOk, scannedTo := RunScanner(cfg.gate, input.gate, w, allOk, scannedTo);
      allOk, scannedTo := RunScanner(cfg.router, input.router, w, allOk, scannedTo);
      allOk, scannedTo := RunScanner(cfg.pool, input.pool, w, allOk, scannedTo);
    }

    method RunScanner(contract: Option<Address>, e: Endpoint, w: Window, allOk: bool, scannedTo: Option<nat>)
      returns (allOk': bool, scannedTo': Option<nat>)
      modifies this`handled
      ensures Progress(allOk', scannedTo', handled) == After(Progress(allOk, scannedTo, old(handled)), contract, e, w)
    {
      allOk', scannedTo' := allOk, scannedTo;
      if contract.Some? {
        var r, taken := Scan(e, contract.value, w);
        handled := handled + taken;
        match r
        case ScanFailed => allOk' := false;
        case Lagging => scannedTo' := None;
        case Reached(upTo) => scannedTo' := Narrow(scannedTo, Some(upTo));
      }
    }
  }

  // ----- every run -----

  datatype Event = Ticked(input: TickInput) | Restarted(readable: bool)

  function Run(cfg: Config, events: seq<Event>): LoopState {
    if events == [] then LoopState(cfg.startBlock, None, None, [])
    else
      var s := Run(cfg, events[..|events| - 1]);
      match events[|events| - 1]
      case Ticked(input) => TickEffect(cfg, s, input)
      case Restarted(readable) => LoopState(RestartFrom(cfg, s.cursor, readable), None, s.cursor, s.handled)
  }

  ghost predicate TruthfulInput(cfg: Config, input: TickInput, history: seq<Log>) {
    && Truthful(input.gate, history, cfg.confirmations) && Truthful(input.router, history, cfg.confirmations)
    && Truthful(input.pool, history, cfg.confirmations)
  }

  ghost predicate TruthfulRun(cfg: Config, events: seq<Event>, history: seq<Log>) {
    forall i :: 0 <= i < |events| && events[i].Ticked? ==> TruthfulInput(cfg, events[i].input, history)
  }

  predicate Watched(cfg: Config, address: Address) {
    cfg.gate == Some(address) || cfg.router == Some(address) || cfg.pool == Some(address)
  }

  /** Every log of `address` in blocks [lo, hi] has been handled. */
  ghost predicate Covers(handled: seq<Log>, history: seq<Log>, address: Address, lo: nat, hi: int) {
    forall l :: l in history && l.address == address && lo <= BlockOf(l) <= hi ==> l in handled
  }

  /** `l` is an earlier log of the same contract, from block `lo` on. */
  predicate Precedes(l: Log, m: Log, lo: nat) {
    l.address == m.address && lo <= BlockOf(l) && !ChainOrder(m, l)
  }

  /** A handled log is a real one, and comes after every earlier log of its contract from block `lo` on. */
  ghost predicate InOrder(handled: seq<Log>, history: seq<Log>, lo: nat) {
    && (forall j :: 0 <= j < |handled| ==> handled[j] in history)
    && (forall j, l | 0 <= j < |handled| && l in history && Precedes(l, handled[j], lo) :: l in handled[..j])
  }

  ghost predicate Inv(cfg: Config, s: LoopState, history: seq<Log>) {
    && InOrder(s.handled, history, cfg.startBlock)
    && (forall address :: Watched(cfg, address) ==> Covers(s.handled, history, address, cfg.startBlock, s.fromBlock - 1))
    && (forall address :: Watched(cfg, address) && s.cursor.Some?
          ==> Covers(s.handled, history, address, cfg.startBlock, s.cursor.value))
  }

  /** A scan hands over a prefix of its window, and the whole of it when it reports a block. */
  lemma ScanTakesPrefix(e: Endpoint, address: Address, w: Window, history: seq<Log>)
    requires IsChain(history) && Truthful(e, history, w.confirmations) && w.from <= w.to
    ensures var (r, taken) := ScanEffect(e, address, w);
            && (r.Reached? ==> w.from <= r.upTo <= w.to && taken == WindowLogs(history, address, w.from, r.upTo))
            && (exists upTo: nat :: taken <= WindowLogs(history, address, w.from, upTo))
  {
    FetchServesWindow(e, address, w, history);
    var f := Fetch(e, address, w);
    if f.Served? {
      assert ScanEffect(e, address, w).1 <= WindowLogs(history, address, w.from, f.upTo);
    } else {
      assert ScanEffect(e, address, w).1 <= WindowLogs(history, address, w.from, 0);
    }
  }

  /** Appending a prefix of the window that starts where coverage ends keeps the order. */
  lemma AppendKeepsOrder(handled: seq<Log>, taken: seq<Log>, history: seq<Log>, address: Address, lo: nat, from: nat,
                         upTo: nat)
    requires IsChain(history) && InOrder(handled, history, lo)
    requires Covers(handled, history, address, lo, from - 1)
    requires taken <= WindowLogs(history, address, from, upTo)
    ensures InOrder(handled + taken, history, lo)
  {
    var all := WindowLogs(history, address, from, upTo);
    var p := (l: Log) => InWindow(l, address, from, upTo);
    var r := handled + taken;
    ChainIsStrict(history);
    FilterSorted(history, p, ChainOrder);
    forall j | 0 <= j < |r| ensures r[j] in history {
      if j >= |handled| {
        FilterMember(history, p, all[j - |handled|]);
      }
    }
    forall j, l | 0 <= j < |r| && l in history && Precedes(l, r[j], lo)
      ensures l in r[..j]
    {
      if j < |handled| {
        assert l in handled[..j] && r[..j] == handled[..j];
      } else {
        var k := j - |handled|;
        assert r[..j] == handled + taken[..k];
        FilterMember(history, p, all[k]);
        if BlockOf(l) >= from {
          FilterMember(history, p, l);
          var m :| 0 <= m < |all| && all[m] == l;
          assert m < k;
          assert taken[..k][m] == l;
        }
      }
    }
  }

  /** What each scanner of a tick keeps and adds. */
  lemma AfterKeeps(cfg: Config, p: Progress, contract: Option<Address>, e: Endpoint, w: Window, history: seq<Log>)
    requires IsChain(history) && Truthful(e, history, w.confirmations) && w.from <= w.to
    requires InOrder(p.handled, history, cfg.startBlock)
    requires contract.Some? ==> Covers(p.handled, history, contract.value, cfg.startBlock, w.from - 1)
    requires p.scannedTo.Some? ==> w.from <= p.scannedTo.value <= w.to
    ensures var q := After(p, contract, e, w);
            && InOrder(q.handled, history, cfg.startBlock) && p.handled <= q.handled
            && (q.allOk ==> p.allOk)
            && (q.scannedTo.Some? ==> p.scannedTo.Some? && w.from <= q.scannedTo.value <= p.scannedTo.value)
            && (contract.Some? && q.allOk && q.scannedTo.Some?
                ==> Covers(q.handled, history, contract.value, cfg.startBlock, q.scannedTo.value))
  {
    if contract.Some? {
      var (r, taken) := ScanEffect(e, contract.value, w);
      ScanTakesPrefix(e, contract.value, w, history);
      var upTo: nat :| taken <= WindowLogs(history, contract.value, w.from, upTo);
      AppendKeepsOrder(p.handled, taken, history, contract.value, cfg.startBlock, w.from, upTo);
      if r.Reached? {
        forall l | l in history && l.address == contract.value && cfg.startBlock <= BlockOf(l) <= r.upTo
          ensures l in p.handled + taken
        {
          if BlockOf(l) >= w.from {
            FilterMember(history, (l: Log) => InWindow(l, contract.value, w.from, r.upTo), l);
          }
        }
      }
    }
  }

  lemma CoversPrefix(handled: seq<Log>, longer: seq<Log>, history: seq<Log>, address: Address, lo: nat, hi: int, hi': int)
    requires Covers(handled, history, address, lo, hi) && handled <= longer && hi' <= hi
    ensures Covers(longer, history, address, lo, hi')
  {
    assert longer == handled + longer[|handled|..];
  }

  /** After all scanners, every watched contract is covered as far as the cursor may move. */
  lemma ScanContractsCovers(cfg: Config, s: LoopState, w: Window, input: TickInput, history: seq<Log>)
    requires IsChain(history) && Inv(cfg, s, history) && w.from == s.fromBlock <= w.to
    requires w.confirmations == cfg.confirmations
    requires TruthfulInput(cfg, input, history)
    ensures var p := ScanContracts(cfg, s, w, input);
            && InOrder(p.handled, history, cfg.startBlock) && s.handled <= p.handled
            && (p.allOk && p.scannedTo.Some? ==>
                  w.from <= p.scannedTo.value
                  && forall a :: Watched(cfg, a) ==> Covers(p.handled, history, a, cfg.startBlock, p.scannedTo.value))
  {
    var p0 := Progress(true, Some(w.to), s.handled);
    assert cfg.gate.Some? ==> Watched(cfg, cfg.gate.value);
    AfterKeeps(cfg, p0, cfg.gate, input.gate, w, history);
    var p1 := After(p0, cfg.gate, input.gate, w);
    if cfg.router.Some? {
      assert Watched(cfg, cfg.router.value);
      CoversPrefix(s.handled, p1.handled, history, cfg.router.value, cfg.startBlock, w.from - 1, w.from - 1);
    }
    AfterKeeps(cfg, p1, cfg.router, input.router, w, history);
    var p2 := After(p1, cfg.router, input.router, w);
    if cfg.pool.Some? {
      assert Watched(cfg, cfg.pool.value);
      CoversPrefix(s.handled, p2.handled, history, cfg.pool.value, cfg.startBlock, w.from - 1, w.from - 1);
    }
    AfterKeeps(cfg, p2, cfg.pool, input.pool, w, history);
    var p := After(p2, cfg.pool, input.pool, w);
    if p.allOk && p.scannedTo.Some? {
      forall a | Watched(cfg, a) ensures Covers(p.handled, history, a, cfg.startBlock, p.scannedTo.value) {
        if cfg.gate == Some(a) {
          CoversPrefix(p1.handled, p.handled, history, a, cfg.startBlock, p1.scannedTo.value, p.scannedTo.value);
        } else if cfg.router == Some(a) {
          CoversPrefix(p2.handled, p.handled, history, a, cfg.startBlock, p2.scannedTo.value, p.scannedTo.value);
        }
      }
    }
  }

  lemma TickKeepsInv(cfg: Config, s: LoopState, input: TickInput, history: seq<Log>)
    requires cfg.maxRange > 0 && IsChain(history) && Inv(cfg, s, history)
    requires TruthfulInput(cfg, input, history)
    ensures Inv(cfg, TickEffect(cfg, s, input), history)
  {
    if !(NeedsHead(cfg, s) && input.head.None?) {
      var latest := if NeedsHead(cfg, s) then input.head.value else s.cachedLatest.value;
      var s1 := s.(cachedLatest := Some(latest));
      if Monus(latest, cfg.confirmations) >= s.fromBlock {
        var w := TickWindow(cfg, s.fromBlock, latest);
        ScanContractsCovers(cfg, s1, w, input, history);
        var p := ScanContracts(cfg, s1, w, input);
        forall a | Watched(cfg, a)
          ensures Covers(p.handled, history, a, cfg.startBlock, s.fromBlock - 1)
          ensures s.cursor.Some? ==> Covers(p.handled, history, a, cfg.startBlock, s.cursor.value)
        {
          CoversPrefix(s.handled, p.handled, history, a, cfg.startBlock, s.fromBlock - 1, s.fromBlock - 1);
          if s.cursor.Some? {
            CoversPrefix(s.handled, p.handled, history, a, cfg.startBlock, s.cursor.value, s.cursor.value);
          }
        }
      }
    }
  }

  lemma {:induction false} RunKeepsInv(cfg: Config, events: seq<Event>, history: seq<Log>)
    requires cfg.maxRange > 0 && IsChain(history) && TruthfulRun(cfg, events, history)
    ensures Inv(cfg, Run(cfg, events), history)
  {
    if events != [] {
      var n := |events| - 1;
      RunKeepsInv(cfg, events[..n], history);
      if events[n].Ticked? {
        TickKeepsInv(cfg, Run(cfg, events[..n]), events[n].input, history);
      }
    }
  }

  /**
   In every run, whatever the endpoints' heads, errors, lags and failed cursor
   writes, and across restarts: every log of every configured contract from
   the start block up to the persisted cursor has been taken by its handler.
   */
  lemma NothingBehindCursorIsMissed(cfg: Config, events: seq<Event>, history: seq<Log>, c: nat, l: Log)
    requires cfg.maxRange > 0 && IsChain(history) && TruthfulRun(cfg, events, history)
    requires Run(cfg, events).cursor == Some(c)
    requires l in history && Watched(cfg, l.address) && cfg.startBlock <= BlockOf(l) <= c
    ensures l in Run(cfg, events).handled
  {
    RunKeepsInv(cfg, events, history);
    assert Covers(Run(cfg, events).handled, history, l.address, cfg.startBlock, c);
  }

  /**
   Handlers see only real logs, and see each contract's logs in chain order the
   first time through: whatever is handled comes after everything the contract
   emitted before it. A gate's `Sent` thus precedes its later `Refunded`.
   */
  lemma HandledInChainOrder(cfg: Config, events: seq<Event>, history: seq<Log>, j: nat, l: Log)
    requires cfg.maxRange > 0 && IsChain(history) && TruthfulRun(cfg, events, history)
    requires j < |Run(cfg, events).handled| && l in history
    requires Precedes(l, Run(cfg, events).handled[j], cfg.startBlock)
    ensures Run(cfg, events).handled[j] in history && l in Run(cfg, events).handled[..j]
  {
    RunKeepsInv(cfg, events, history);
  }

  /** The contract, if configured, was scanned at least up to block `upTo`. */
  predicate ReachedAtLeast(contract: Option<Address>, e: Endpoint, w: Window, upTo: int) {
    contract.Some? ==>
      ScanEffect(e, contract.value, w).0.Reached? && upTo <= ScanEffect(e, contract.value, w).0.upTo
  }

  /** What a scanner leaves a tick to advance to, it has reached itself. */
  lemma AfterNarrows(p: Progress, contract: Option<Address>, e: Endpoint, w: Window)
    ensures var q := After(p, contract, e, w);
            q.allOk && q.scannedTo.Some? ==>
              && p.allOk && p.scannedTo.Some? && q.scannedTo.value <= p.scannedTo.value
              && ReachedAtLeast(contract, e, w, q.scannedTo.value)
  {
  }

  lemma ScannedIsReachedByAll(cfg: Config, s: LoopState, w: Window, input: TickInput)
    ensures var p := ScanContracts(cfg, s, w, input);
            p.allOk && p.scannedTo.Some? ==>
              && ReachedAtLeast(cfg.gate, input.gate, w, p.scannedTo.value)
              && ReachedAtLeast(cfg.router, input.router, w, p.scannedTo.value)
              && ReachedAtLeast(cfg.pool, input.pool, w, p.scannedTo.value)
  {
    var p0 := Progress(true, Some(w.to), s.handled);
    var p1 := After(p0, cfg.gate, input.gate, w);
    var p2 := After(p1, cfg.router, input.router, w);
    AfterNarrows(p0, cfg.gate, input.gate, w);
    AfterNarrows(p1, cfg.router, input.router, w);
    AfterNarrows(p2, cfg.pool, input.pool, w);
  }

  /** A tick moves the cursor only over blocks that every configured scan reached. */
  lemma AdvancesOnlyWhenAllReach(cfg: Config, s: LoopState, input: TickInput)
    requires cfg.maxRange > 0
    ensures var t := TickEffect(cfg, s, input);
            t.fromBlock != s.fromBlock || t.cursor != s.cursor ==>
              && t.cursor.Some? && t.cachedLatest.Some?
              && var w := TickWindow(cfg, s.fromBlock, t.cachedLatest.value);
                 && ReachedAtLeast(cfg.gate, input.gate, w, t.cursor.value)
                 && ReachedAtLeast(cfg.router, input.router, w, t.cursor.value)
                 && ReachedAtLeast(cfg.pool, input.pool, w, t.cursor.value)
  {
    if !(NeedsHead(cfg, s) && input.head.None?) {
      var latest := if NeedsHead(cfg, s) then input.head.value else s.cachedLatest.value;
      ScannedIsReachedByAll(cfg, s.(cachedLatest := Some(latest)), TickWindow(cfg, s.fromBlock, latest), input);
    }
  }

  // ----- progress -----

  /**
   The endpoint has confirmed the window's last block, shows it, and the handler takes
   every log of the answer that is not flagged as removed.
   */
  predicate Healthy(e: Endpoint, address: Address, lo: nat, hi: nat, confirmations: nat) {
    && e.head.Some? && hi + confirmations <= e.head.value
    && e.serve(address, lo, hi).Some? && HasImported(e.serve(address, lo, hi).value, hi)
    && forall i :: 0 <= i < |e.serve(address, lo, hi).value.logs| && !e.serve(address, lo, hi).value.logs[i].removed ==>
         e.accepts(e.serve(address, lo, hi).value.logs[i])
  }

  predicate HealthyContract(contract: Option<Address>, e: Endpoint, lo: nat, hi: nat, confirmations: nat) {
    contract.Some? ==> Healthy(e, contract.value, lo, hi, confirmations)
  }

  lemma VouchedIffImported(hi: nat, answer: Answer)
    ensures WindowEndVouched(hi, answer) <==> HasImported(answer, hi)
  {
    if HasImported(answer, hi) {
      forall l | l in answer.logs && l.block == Some(hi) ensures l.blockHash == Some(answer.block.value.hash) {
        var i :| 0 <= i < |answer.logs| && answer.logs[i] == l;
      }
    }
  }

  /** The handler takes every log that the scan hands it. */
  lemma KeptAreAccepted(e: Endpoint, answered: seq<Log>, logs: seq<Log>)
    requires forall i :: 0 <= i < |answered| && !answered[i].removed ==> e.accepts(answered[i])
    requires logs == Filter(Sort(answered, ChainOrder), Kept)
    ensures forall i :: 0 <= i < |logs| ==> e.accepts(logs[i])
  {
    var sorted := Sort(answered, ChainOrder);
    OrderIsTotal();
    SortIsSortedPermutation(answered, ChainOrder);
    forall i | 0 <= i < |logs| ensures e.accepts(logs[i]) {
      FilterMember(sorted, Kept, logs[i]);
      assert logs[i] in multiset(sorted);
      assert logs[i] in answered;
    }
  }

  /** A healthy endpoint's scan reaches the end of its window. */
  lemma HealthyScanReaches(e: Endpoint, address: Address, w: Window)
    requires w.from <= w.to && Healthy(e, address, w.from, w.to, w.confirmations)
    ensures ScanEffect(e, address, w).0 == Reached(w.to)
  {
    var answer := e.serve(address, w.from, w.to).value;
    ClampIsLargestConfirmed(w.from, w.to, e.head.value, w.confirmations);
    assert ClampScanWindow(w.from, w.to, e.head.value, w.confirmations) == Some(w.to);
    VouchedIffImported(w.to, answer);
    KeptAreAccepted(e, answer.logs, Filter(Sort(answer.logs, ChainOrder), Kept));
  }

  lemma HealthyAfter(p: Progress, contract: Option<Address>, e: Endpoint, w: Window)
    requires w.from <= w.to && HealthyContract(contract, e, w.from, w.to, w.confirmations)
    requires p.allOk && p.scannedTo == Some(w.to)
    ensures After(p, contract, e, w).allOk && After(p, contract, e, w).scannedTo == Some(w.to)
  {
    if contract.Some? {
      HealthyScanReaches(e, contract.value, w);
    }
  }

  /** The head a tick works with. */
  function LatestOf(cfg: Config, s: LoopState, input: TickInput): Option<nat> {
    if s.cachedLatest.None? || s.fromBlock + cfg.confirmations > s.cachedLatest.value then input.head else s.cachedLatest
  }

  /** Every configured endpoint is healthy on blocks `lo` to `hi`. */
  predicate HealthyInput(cfg: Config, input: TickInput, lo: nat, hi: nat) {
    && HealthyContract(cfg.gate, input.gate, lo, hi, cfg.confirmations)
    && HealthyContract(cfg.router, input.router, lo, hi, cfg.confirmations)
    && HealthyContract(cfg.pool, input.pool, lo, hi, cfg.confirmations)
  }

  /**
   When the head confirms the block to read and the endpoints are healthy on the next
   `maxRange` blocks, or on those that are confirmed if they end first, the tick writes
   exactly that end as its cursor. Acknowledged, it goes on after it; seen as an error,
   it stays, whether or not the write landed.
   */
  lemma HealthyTickAdvances(cfg: Config, s: LoopState, input: TickInput, latest: nat, to: nat)
    requires cfg.maxRange > 0 && LatestOf(cfg, s, input) == Some(latest)
    requires s.fromBlock + cfg.confirmations <= latest
    requires to == Min(latest - cfg.confirmations, s.fromBlock + cfg.maxRange - 1)
    requires HealthyInput(cfg, input, s.fromBlock, to)
    ensures var t := TickEffect(cfg, s, input);
            && t.cursor == (if input.write == Lost then s.cursor else Some(to))
            && t.fromBlock == (if input.write == Acknowledged then to + 1 else s.fromBlock)
            && t.cachedLatest == Some(latest) && s.fromBlock <= to < s.fromBlock + cfg.maxRange
  {
    var w := Window(s.fromBlock, to, cfg.confirmations);
    var s1 := s.(cachedLatest := Some(latest));
    assert TickWindow(cfg, s.fromBlock, latest) == w;
    var p0 := Progress(true, Some(w.to), s1.handled);
    HealthyAfter(p0, cfg.gate, input.gate, w);
    var p1 := After(p0, cfg.gate, input.gate, w);
    HealthyAfter(p1, cfg.router, input.router, w);
    var p2 := After(p1, cfg.router, input.router, w);
    HealthyAfter(p2, cfg.pool, input.pool, w);
  }

  /** Two endpoints that answer alike for every window of at most `maxRange` blocks from `lo`. */
  ghost predicate AlikeFrom(e: Endpoint, f: Endpoint, address: Address, lo: nat, maxRange: nat) {
    && e.head == f.head && (forall l :: e.accepts(l) == f.accepts(l))
    && forall hi: nat :: lo <= hi < lo + maxRange ==> e.serve(address, lo, hi) == f.serve(address, lo, hi)
  }

  ghost predicate AlikeContract(contract: Option<Address>, e: Endpoint, f: Endpoint, lo: nat, maxRange: nat) {
    contract.Some? ==> AlikeFrom(e, f, contract.value, lo, maxRange)
  }

  lemma {:induction false} SameHandlerSameCount(logs: seq<Log>, a: Log -> bool, b: Log -> bool)
    requires forall l :: a(l) == b(l)
    ensures AcceptedCount(logs, a) == AcceptedCount(logs, b)
  {
    if logs != [] {
      SameHandlerSameCount(logs[1..], a, b);
    }
  }

  lemma AlikeFetch(e: Endpoint, f: Endpoint, address: Address, w: Window, maxRange: nat)
    requires AlikeFrom(e, f, address, w.from, maxRange) && w.from <= w.to < w.from + maxRange
    ensures Fetch(e, address, w) == Fetch(f, address, w)
  {
    if e.head.Some? {
      ClampIsLargestConfirmed(w.from, w.to, e.head.value, w.confirmations);
    }
  }

  lemma AlikeScan(e: Endpoint, f: Endpoint, address: Address, w: Window)
    requires Fetch(e, address, w) == Fetch(f, address, w) && forall l :: e.accepts(l) == f.accepts(l)
    ensures ScanEffect(e, address, w) == ScanEffect(f, address, w)
  {
    var fetched := Fetch(e, address, w);
    if fetched.Served? {
      SameHandlerSameCount(fetched.logs, e.accepts, f.accepts);
    }
  }

  lemma AlikeAfter(cfg: Config, p: Progress, contract: Option<Address>, e: Endpoint, f: Endpoint, w: Window)
    requires AlikeContract(contract, e, f, w.from, cfg.maxRange) && w.from <= w.to < w.from + cfg.maxRange
    ensures After(p, contract, e, w) == After(p, contract, f, w)
  {
    if contract.Some? {
      AlikeFetch(e, f, contract.value, w, cfg.maxRange);
      AlikeScan(e, f, contract.value, w);
    }
  }

  /** What a tick does depends on no window but those of at most `maxRange` blocks from the one it is to read. */
  lemma TickAsksWithinRange(cfg: Config, s: LoopState, input: TickInput, other: TickInput)
    requires cfg.maxRange > 0 && input.head == other.head && input.write == other.write
    requires AlikeContract(cfg.gate, input.gate, other.gate, s.fromBlock, cfg.maxRange)
    requires AlikeContract(cfg.router, input.router, other.router, s.fromBlock, cfg.maxRange)
    requires AlikeContract(cfg.pool, input.pool, other.pool, s.fromBlock, cfg.maxRange)
    ensures TickEffect(cfg, s, input) == TickEffect(cfg, s, other)
  {
    if !(NeedsHead(cfg, s) && input.head.None?) {
      var latest := if NeedsHead(cfg, s) then input.head.value else s.cachedLatest.value;
      if Monus(latest, cfg.confirmations) >= s.fromBlock {
        var w := TickWindow(cfg, s.fromBlock, latest);
        var p0 := Progress(true, Some(w.to), s.handled);
        AlikeAfter(cfg, p0, cfg.gate, input.gate, other.gate, w);
        var p1 := After(p0, cfg.gate, input.gate, w);
        AlikeAfter(cfg, p1, cfg.router, input.router, other.router, w);
        var p2 := After(p1, cfg.router, input.router, w);
        AlikeAfter(cfg, p2, cfg.pool, input.pool, other.pool, w);
      }
    }
  }

  // ----- catching up -----

  function Ticks(cfg: Config, s: LoopState, inputs: seq<TickInput>): LoopState
    decreases |inputs|
  {
    if inputs == [] then s else Ticks(cfg, TickEffect(cfg, s, inputs[0]), inputs[1..])
  }

  /** Every tick sees the head `latest`, finds its endpoints healthy where it reads, and has its write acknowledged. */
  ghost predicate HealthyTicks(cfg: Config, s: LoopState, inputs: seq<TickInput>, latest: nat)
    requires cfg.maxRange > 0
    decreases |inputs|
  {
    inputs != [] ==>
      && LatestOf(cfg, s, inputs[0]) == Some(latest) && inputs[0].write == Acknowledged
      && (s.fromBlock + cfg.confirmations <= latest ==>
            HealthyInput(cfg, inputs[0], s.fromBlock, Min(latest - cfg.confirmations, s.fromBlock + cfg.maxRange - 1)))
      && HealthyTicks(cfg, TickEffect(cfg, s, inputs[0]), inputs[1..], latest)
  }

  /** Once the confirmed head has been read, healthy ticks leave the cursor there. */
  lemma {:induction false} CaughtUpStays(cfg: Config, s: LoopState, inputs: seq<TickInput>, latest: nat)
    requires cfg.maxRange > 0 && cfg.confirmations <= latest && HealthyTicks(cfg, s, inputs, latest)
    requires s.fromBlock == latest - cfg.confirmations + 1
    ensures Ticks(cfg, s, inputs).cursor == s.cursor && Ticks(cfg, s, inputs).fromBlock == s.fromBlock
    decreases |inputs|
  {
    if inputs != [] {
      CaughtUpStays(cfg, TickEffect(cfg, s, inputs[0]), inputs[1..], latest);
    }
  }

  /** `n` ticks of `maxRange` blocks. */
  function Reach(n: nat, maxRange: nat): nat {
    n * maxRange
  }

  lemma ReachZero(maxRange: nat)
    ensures Reach(0, maxRange) == 0
  {
  }

  lemma ReachStep(n: nat, maxRange: nat)
    requires n > 0
    ensures Reach(n, maxRange) == maxRange + Reach(n - 1, maxRange)
  {
  }

  /** Enough healthy ticks persist the last confirmed block, however far behind the loop was. */
  lemma {:induction false} HealthyTicksReachHead(cfg: Config, s: LoopState, inputs: seq<TickInput>, latest: nat)
    requires cfg.maxRange > 0 && HealthyTicks(cfg, s, inputs, latest)
    requires s.fromBlock + cfg.confirmations <= latest
    requires s.fromBlock + cfg.confirmations + Reach(|inputs|, cfg.maxRange) > latest
    ensures Ticks(cfg, s, inputs).cursor == Some(latest - cfg.confirmations)
    ensures Ticks(cfg, s, inputs).fromBlock == latest - cfg.confirmations + 1
    decreases |inputs|
  {
    ReachZero(cfg.maxRange);
    assert inputs != [];
    var to := Min(latest - cfg.confirmations, s.fromBlock + cfg.maxRange - 1);
    HealthyTickAdvances(cfg, s, inputs[0], latest, to);
    ReachStep(|inputs|, cfg.maxRange);
    var t := TickEffect(cfg, s, inputs[0]);
    if t.fromBlock + cfg.confirmations <= latest {
      HealthyTicksReachHead(cfg, t, inputs[1..], latest);
    } else {
      CaughtUpStays(cfg, t, inputs[1..], latest);
    }
  }

  /** The ticks as events of a run. */
  function TickEvents(inputs: seq<TickInput>): (e: seq<Event>)
    ensures |e| == |inputs|
  {
    seq(|inputs|, i requires 0 <= i < |inputs| => Ticked(inputs[i]))
  }

  lemma {:induction false} TicksExtendRun(cfg: Config, events: seq<Event>, inputs: seq<TickInput>)
    ensures Run(cfg, events + TickEvents(inputs)) == Ticks(cfg, Run(cfg, events), inputs)
    decreases |inputs|
  {
    if inputs == [] {
      assert events + TickEvents(inputs) == events;
    } else {
      var next := events + [Ticked(inputs[0])];
      assert next[..|events|] == events;
      assert Run(cfg, next) == TickEffect(cfg, Run(cfg, events), inputs[0]);
      assert events + TickEvents(inputs) == next + TickEvents(inputs[1..]);
      TicksExtendRun(cfg, next, inputs[1..]);
    }
  }

  /** Every write is acknowledged or lost, and every restart reads the cursor. */
  predicate NothingUnseen(events: seq<Event>) {
    forall i :: 0 <= i < |events| ==>
      match events[i]
      case Ticked(input) => input.write != LandedUnseen
      case Restarted(readable) => readable
  }

  /** In such a run the next block to read is always the one behind the cursor: nothing persisted is read again. */
  lemma {:induction false} ReadsBehindTheCursor(cfg: Config, events: seq<Event>)
    requires NothingUnseen(events)
    ensures var s := Run(cfg, events); s.fromBlock == if s.cursor.Some? then s.cursor.value + 1 else cfg.startBlock
  {
    if events != [] {
      var n := |events| - 1;
      ReadsBehindTheCursor(cfg, events[..n]);
      assert NothingUnseen([events[n]]) by {
        assert [events[n]][0] == events[n];
      }
    }
  }

  /**
   Whatever happened before, enough healthy ticks bring the loop up to date: the cursor
   is the last confirmed block, and every log of every configured contract up to it has
   been taken by its handler.
   */
  lemma HealthyTicksCatchUp(cfg: Config, events: seq<Event>, inputs: seq<TickInput>, latest: nat, history: seq<Log>)
    requires cfg.maxRange > 0 && IsChain(history) && TruthfulRun(cfg, events + TickEvents(inputs), history)
    requires HealthyTicks(cfg, Run(cfg, events), inputs, latest)
    requires var s := Run(cfg, events);
             && s.fromBlock + cfg.confirmations <= latest
             && s.fromBlock + cfg.confirmations + Reach(|inputs|, cfg.maxRange) > latest
    ensures var s := Run(cfg, events + TickEvents(inputs));
            && s.cursor == Some(latest - cfg.confirmations)
            && forall l | l in history && Watched(cfg, l.address)
                          && cfg.startBlock <= BlockOf(l) <= latest - cfg.confirmations :: l in s.handled
  {
    TicksExtendRun(cfg, events, inputs);
    HealthyTicksReachHead(cfg, Run(cfg, events), inputs, latest);
    AllBehindCursor(cfg, events + TickEvents(inputs), history, latest - cfg.confirmations);
  }

  lemma AllBehindCursor(cfg: Config, events: seq<Event>, history: seq<Log>, c: nat)
    requires cfg.maxRange > 0 && IsChain(history) && TruthfulRun(cfg, events, history)
    requires Run(cfg, events).cursor == Some(c)
    ensures forall l | l in history && Watched(cfg, l.address) && cfg.startBlock <= BlockOf(l) <= c ::
              l in Run(cfg, events).handled
  {
    forall l | l in history && Watched(cfg, l.address) && cfg.startBlock <= BlockOf(l) <= c
      ensures l in Run(cfg, events).handled
    {
      NothingBehindCursorIsMissed(cfg, events, history, c, l);
    }
  }
}
