/**
 The indexer feeding the lifecycle tables: the source chain's loop, the
 destination chain's loop, refund sweeps and validators' submissions all write
 about one transfer, interleaved in any way.
 */
module Pipeline {
  import opened Words
  import Indexer
  import Lifecycle

  /**
   One write about the transfer: a log that the source or the destination loop
   handled, or a sweep, or a validator's submission that creates the row.
   */
  datatype Entry = FromSource(log: Indexer.Log) | FromDestination(log: Indexer.Log) | SweepRan | Submitted

  /** What a gate log means for the transfer at hand; `None` for a log about something else. */
  type Reading = Indexer.Log -> Option<Lifecycle.Event>

  /** The source loop's logs among the entries. */
  function SourceLogs(entries: seq<Entry>): seq<Indexer.Log> {
    if entries == [] then []
    else
      var last := entries[|entries| - 1];
      SourceLogs(entries[..|entries| - 1]) + if last.FromSource? then [last.log] else []
  }

  /** And the destination loop's. */
  function DestinationLogs(entries: seq<Entry>): seq<Indexer.Log> {
    if entries == [] then []
    else
      var last := entries[|entries| - 1];
      DestinationLogs(entries[..|entries| - 1]) + if last.FromDestination? then [last.log] else []
  }

  function EventOf(e: Entry, read: Reading): Option<Lifecycle.Event> {
    match e
    case FromSource(log) => read(log)
    case FromDestination(log) => read(log)
    case SweepRan => Some(Lifecycle.Swept)
    case Submitted => Some(Lifecycle.RowSeen)
  }

  /** The calls the entries make on the transfer's cell, in order. */
  function Calls(entries: seq<Entry>, read: Reading): seq<Lifecycle.Event> {
    if entries == [] then []
    else
      var e := EventOf(entries[|entries| - 1], read);
      Calls(entries[..|entries| - 1], read) + if e.Some? then [e.value] else []
  }

  predicate IsRefund(e: Option<Lifecycle.Event>) {
    e.Some? && e.value.Reported? && e.value.kind == Lifecycle.RefundSeen
  }

  /** On the source chain, the transfer's `Sent` comes before any `Refunded`, at the same gate. */
  ghost predicate SentBeforeRefunded(history: seq<Indexer.Log>, read: Reading, startBlock: nat) {
    forall r :: r in history && IsRefund(read(r)) ==>
      exists s :: s in history && read(s) == Some(Lifecycle.RowSeen) && Indexer.Precedes(s, r, startBlock)
  }

  /** Refunds are reported by the source loop only. */
  predicate RefundsFromSource(entries: seq<Entry>, read: Reading) {
    forall i :: 0 <= i < |entries| && entries[i].FromDestination? ==> !IsRefund(read(entries[i].log))
  }

  /** A refund among the source's logs has the transfer's `Sent` somewhere before it. */
  ghost predicate SentFirst(logs: seq<Indexer.Log>, read: Reading) {
    forall j :: 0 <= j < |logs| && IsRefund(read(logs[j])) ==>
      exists s :: s in logs[..j] && read(s) == Some(Lifecycle.RowSeen)
  }

  /** The indexer's order guarantee, read as one about this transfer. */
  lemma HandledSentFirst(cfg: Indexer.Config, events: seq<Indexer.Event>, history: seq<Indexer.Log>, read: Reading)
    requires cfg.maxRange > 0 && Indexer.IsChain(history) && Indexer.TruthfulRun(cfg, events, history)
    requires SentBeforeRefunded(history, read, cfg.startBlock)
    ensures SentFirst(Indexer.Run(cfg, events).handled, read)
  {
    var logs := Indexer.Run(cfg, events).handled;
    Indexer.RunKeepsInv(cfg, events, history);
    forall j | 0 <= j < |logs| && IsRefund(read(logs[j]))
      ensures exists s :: s in logs[..j] && read(s) == Some(Lifecycle.RowSeen)
    {
      assert logs[j] in history;
      var s :| s in history && read(s) == Some(Lifecycle.RowSeen) && Indexer.Precedes(s, logs[j], cfg.startBlock);
      Indexer.HandledInChainOrder(cfg, events, history, j, s);
    }
  }

  /** A log that either loop handled made the call it means. */
  lemma {:induction false} HandledLogIsACall(entries: seq<Entry>, read: Reading, l: Indexer.Log)
    requires l in SourceLogs(entries) || l in DestinationLogs(entries)
    requires read(l).Some?
    ensures read(l).value in Calls(entries, read)
  {
    var n := |entries| - 1;
    if l in SourceLogs(entries[..n]) || l in DestinationLogs(entries[..n]) {
      HandledLogIsACall(entries[..n], read, l);
    } else {
      assert EventOf(entries[n], read) == read(l);
    }
  }

  /** A reported call was made by a log that one of the loops handled. */
  lemma {:induction false} CallIsAHandledLog(entries: seq<Entry>, read: Reading, call: Lifecycle.Event)
    returns (l: Indexer.Log)
    requires call in Calls(entries, read) && call.Reported?
    ensures l in SourceLogs(entries) || l in DestinationLogs(entries)
    ensures read(l) == Some(call)
  {
    var n := |entries| - 1;
    if call in Calls(entries[..n], read) {
      l := CallIsAHandledLog(entries[..n], read, call);
    } else {
      l := entries[n].log;
    }
  }

  lemma FrontSentFirst(entries: seq<Entry>, read: Reading)
    requires entries != [] && SentFirst(SourceLogs(entries), read)
    ensures SentFirst(SourceLogs(entries[..|entries| - 1]), read)
  {
    var front, all := SourceLogs(entries[..|entries| - 1]), SourceLogs(entries);
    forall j | 0 <= j < |front| && IsRefund(read(front[j]))
      ensures exists s :: s in front[..j] && read(s) == Some(Lifecycle.RowSeen)
    {
      assert all[j] == front[j] && all[..j] == front[..j];
    }
  }

  /** Whatever the interleaving, every refund call comes after one that saw the row. */
  lemma {:induction false} CallsAreSourceInOrder(entries: seq<Entry>, read: Reading)
    requires SentFirst(SourceLogs(entries), read) && RefundsFromSource(entries, read)
    ensures Lifecycle.SourceInOrder(Calls(entries, read))
  {
    if entries != [] {
      var n := |entries| - 1;
      var front, e := Calls(entries[..n], read), EventOf(entries[n], read);
      FrontSentFirst(entries, read);
      CallsAreSourceInOrder(entries[..n], read);
      if IsRefund(e) {
        var logs := SourceLogs(entries[..n]);
        assert (logs + [entries[n].log])[|logs|] == entries[n].log && (logs + [entries[n].log])[..|logs|] == logs;
        var s :| s in logs && read(s) == Some(Lifecycle.RowSeen);
        HandledLogIsACall(entries[..n], read, s);
      }
      AppendKeepsSourceOrder(front, e);
    }
  }

  lemma AppendKeepsSourceOrder(front: seq<Lifecycle.Event>, e: Option<Lifecycle.Event>)
    requires Lifecycle.SourceInOrder(front)
    requires IsRefund(e) ==> Lifecycle.RowSeen in front
    ensures Lifecycle.SourceInOrder(front + if e.Some? then [e.value] else [])
  {
    var all := front + if e.Some? then [e.value] else [];
    forall i: nat | i < |all| && all[i].Reported? && all[i].kind == Lifecycle.RefundSeen
      ensures Lifecycle.RowSeen in all[..i]
    {
      assert all[..i] == front[..i];
      if i < |front| {
        assert front[i] == all[i];
      } else {
        assert front[..i] == front;
      }
    }
  }

  /**
   End to end: whatever the endpoints of the source loop do, however its logs
   interleave with the destination loop's, with sweeps and with validators'
   submissions, and however often any of them is replayed, a transfer whose row
   was seen ends in the status and refund status of the in-order, exactly-once run.
   */
  lemma InterleavedLoopsEndInOrder(cfg: Indexer.Config, events: seq<Indexer.Event>, history: seq<Indexer.Log>,
                                   entries: seq<Entry>, read: Reading)
    requires cfg.maxRange > 0 && Indexer.IsChain(history) && Indexer.TruthfulRun(cfg, events, history)
    requires SentBeforeRefunded(history, read, cfg.startBlock) && RefundsFromSource(entries, read)
    requires SourceLogs(entries) == Indexer.Run(cfg, events).handled
    ensures var calls := Calls(entries, read);
            Lifecycle.RowSeen in calls ==>
              && Lifecycle.Run(calls).row.Some? && Lifecycle.Run(Lifecycle.InOrder(calls)).row.Some?
              && Lifecycle.Run(calls).row.value.status == Lifecycle.Run(Lifecycle.InOrder(calls)).row.value.status
              && Lifecycle.Run(calls).row.value.refund == Lifecycle.Run(Lifecycle.InOrder(calls)).row.value.refund
  {
    HandledSentFirst(cfg, events, history, read);
    CallsAreSourceInOrder(entries, read);
    Lifecycle.SourceOrderLosesNothing(Calls(entries, read));
  }

  // ----- once the cursors have passed the transfer -----

  /** One chain of the pipeline: its configuration, its loop's run, and its final history. */
  datatype Chain = Chain(cfg: Indexer.Config, events: seq<Indexer.Event>, history: seq<Indexer.Log>) {
    function Loop(): Indexer.LoopState {
      Indexer.Run(cfg, events)
    }

    ghost predicate Sound() {
      cfg.maxRange > 0 && Indexer.IsChain(history) && Indexer.TruthfulRun(cfg, events, history)
    }
  }

  /** Every log of the transfer on this chain is of a configured contract, within what the persisted cursor has passed. */
  ghost predicate CaughtUp(c: Chain, read: Reading) {
    && c.Loop().cursor.Some?
    && forall l :: l in c.history && read(l).Some? ==>
         && Indexer.Watched(c.cfg, l.address)
         && c.cfg.startBlock <= Indexer.BlockOf(l) <= c.Loop().cursor.value
  }

  /** The chain reports this about the transfer. */
  ghost predicate Reports(history: seq<Indexer.Log>, read: Reading, kind: Lifecycle.Kind) {
    exists l :: l in history && IsReport(read(l), kind)
  }

  /** The indexer parks a report of an unknown transfer. */
  predicate IsReport(e: Option<Lifecycle.Event>, kind: Lifecycle.Kind) {
    e.Some? && e.value.Reported? && e.value.kind == kind && e.value.missing == Lifecycle.Park
  }

  ghost predicate ParksReports(read: Reading) {
    forall l :: read(l).Some? && read(l).value.Reported? ==> IsReport(read(l), read(l).value.kind)
  }

  /** What a caught-up loop handled about the transfer is what its chain says about it. */
  lemma CaughtUpHandlesAll(c: Chain, read: Reading, l: Indexer.Log)
    requires c.Sound() && CaughtUp(c, read) && read(l).Some?
    ensures l in c.history <==> l in c.Loop().handled
  {
    if l in c.history {
      Indexer.NothingBehindCursorIsMissed(c.cfg, c.events, c.history, c.Loop().cursor.value, l);
    }
    if l in c.Loop().handled {
      Indexer.RunKeepsInv(c.cfg, c.events, c.history);
    }
  }

  lemma TakenMeansCalled(calls: seq<Lifecycle.Event>, kind: Lifecycle.Kind)
    requires forall e :: e in calls && e.Reported? ==> e.missing == Lifecycle.Park
    ensures Lifecycle.HasTaken(calls, kind) <==> exists e :: e in calls && e.Reported? && e.kind == kind
  {
    if e :| e in calls && e.Reported? && e.kind == kind {
      var i :| 0 <= i < |calls| && calls[i] == e;
      assert Lifecycle.Took(calls, i, kind);
    }
  }

  /** A kind of report is taken exactly when one of the two chains reports it. */
  lemma TakenIffReported(source: Chain, destination: Chain, entries: seq<Entry>, read: Reading, kind: Lifecycle.Kind)
    requires source.Sound() && destination.Sound() && ParksReports(read)
    requires CaughtUp(source, read) && CaughtUp(destination, read)
    requires SourceLogs(entries) == source.Loop().handled && DestinationLogs(entries) == destination.Loop().handled
    ensures Lifecycle.HasTaken(Calls(entries, read), kind)
            <==> Reports(source.history, read, kind) || Reports(destination.history, read, kind)
  {
    var calls := Calls(entries, read);
    forall e | e in calls && e.Reported? ensures e.missing == Lifecycle.Park
      ensures e.kind == kind ==> Reports(source.history, read, kind) || Reports(destination.history, read, kind)
    {
      var l := CallIsAHandledLog(entries, read, e);
      assert IsReport(read(l), e.kind);
      CaughtUpHandlesAll(source, read, l);
      CaughtUpHandlesAll(destination, read, l);
    }
    TakenMeansCalled(calls, kind);
    if l :| (l in source.history || l in destination.history) && IsReport(read(l), kind) {
      CaughtUpHandlesAll(source, read, l);
      CaughtUpHandlesAll(destination, read, l);
      HandledLogIsACall(entries, read, l);
    }
  }

  /**
   Once both persisted cursors have passed the transfer's logs, its row is what the
   two chains say, whatever happened on the way: it is `claimed` exactly when one of
   them holds a claim, and its refund status is that of the in-order, exactly-once
   run of the reports in the two histories. Only whether a sweep found the row is
   not told by the chains.
   */
  lemma CaughtUpRowIsTheChains(source: Chain, destination: Chain, entries: seq<Entry>, read: Reading,
                               sent: Indexer.Log)
    requires source.Sound() && destination.Sound() && ParksReports(read)
    requires CaughtUp(source, read) && CaughtUp(destination, read)
    requires SourceLogs(entries) == source.Loop().handled && DestinationLogs(entries) == destination.Loop().handled
    requires sent in source.history && read(sent) == Some(Lifecycle.RowSeen)
    requires SentBeforeRefunded(source.history, read, source.cfg.startBlock)
    requires !Reports(destination.history, read, Lifecycle.RefundSeen)
    ensures var claimed := Reports(source.history, read, Lifecycle.ClaimSeen)
                           || Reports(destination.history, read, Lifecycle.ClaimSeen);
            var cancelled := Reports(source.history, read, Lifecycle.CancelSeen)
                             || Reports(destination.history, read, Lifecycle.CancelSeen);
            var refunded := Reports(source.history, read, Lifecycle.RefundSeen);
            var swept := Lifecycle.SweptAfterRow(Calls(entries, read));
            var row := Lifecycle.Run(Calls(entries, read)).row;
            var inOrder := Lifecycle.Run(Lifecycle.Ordered(swept, claimed, cancelled, refunded)).row;
            && row.Some? && inOrder.Some?
            && (row.value.status == Lifecycle.Claimed <==> claimed)
            && row.value.status == inOrder.value.status && row.value.refund == inOrder.value.refund
  {
    var calls := Calls(entries, read);
    TakenIffReported(source, destination, entries, read, Lifecycle.ClaimSeen);
    TakenIffReported(source, destination, entries, read, Lifecycle.CancelSeen);
    TakenIffReported(source, destination, entries, read, Lifecycle.RefundSeen);
    CaughtUpHandlesAll(source, read, sent);
    HandledLogIsACall(entries, read, sent);
    HandledHasNoRefund(destination, entries, read);
    InterleavedLoopsEndInOrder(source.cfg, source.events, source.history, entries, read);
    Lifecycle.InOrderOutcome(Lifecycle.SweptAfterRow(calls), Lifecycle.HasTaken(calls, Lifecycle.ClaimSeen),
                             Lifecycle.HasTaken(calls, Lifecycle.CancelSeen),
                             Lifecycle.HasTaken(calls, Lifecycle.RefundSeen));
  }

  lemma {:induction false} EntryIsDestinationLog(entries: seq<Entry>, i: nat)
    requires i < |entries| && entries[i].FromDestination?
    ensures entries[i].log in DestinationLogs(entries)
  {
    var n := |entries| - 1;
    if i < n {
      EntryIsDestinationLog(entries[..n], i);
    }
  }

  lemma HandledHasNoRefund(destination: Chain, entries: seq<Entry>, read: Reading)
    requires destination.Sound() && ParksReports(read) && CaughtUp(destination, read)
    requires DestinationLogs(entries) == destination.Loop().handled
    requires !Reports(destination.history, read, Lifecycle.RefundSeen)
    ensures RefundsFromSource(entries, read)
  {
    forall i | 0 <= i < |entries| && entries[i].FromDestination? ensures !IsRefund(read(entries[i].log)) {
      var l := entries[i].log;
      EntryIsDestinationLog(entries, i);
      assert IsRefund(read(l)) ==> IsReport(read(l), Lifecycle.RefundSeen);
      if IsRefund(read(l)) {
        CaughtUpHandlesAll(destination, read, l);
      }
    }
  }
}
