/**
 The lifecycle columns of the `submissions` table and the `pending_lifecycle`
 park table. A destination event may reach the database before the row of its
 transfer, so reports are parked and folded in when the row appears. One
 `Cell` is what both tables hold about one submission id; every SQL statement
 is a function on cells, and the methods of `LifecycleTables` run the statements
 in the order the calls issue them.
 */
module Lifecycle {
  import opened Words

  type Id = string

  datatype Status = Signed | Claimed
  datatype RefundStatus = NoRefund | Eligible | Cancelled | Refunded
  datatype Row = Row(status: Status, refund: RefundStatus, claimTx: Option<string>, cancelTx: Option<string>,
    refundTx: Option<string>)
  datatype Marker = Marker(status: Option<Status>, refund: Option<RefundStatus>, claimTx: Option<string>,
    cancelTx: Option<string>, refundTx: Option<string>)
  datatype Cell = Cell(row: Option<Row>, parked: Option<Marker>)

  datatype Kind = ClaimSeen | CancelSeen | RefundSeen
  datatype Missing = Park | Reject

  const FRESH_ROW: Row := Row(Signed, NoRefund, None, None, None)
  const ABSENT: Cell := Cell(None, None)

  // ----- the statements -----

  /** Whether the lifecycle UPDATE for `kind` matches the row. */
  predicate Matches(cell: Cell, kind: Kind) {
    cell.row.Some? && !(kind == CancelSeen && cell.row.value.refund == Refunded)
  }

  /** The lifecycle UPDATE: a no-op when it matches nothing. */
  function Update(cell: Cell, kind: Kind, tx: string): Cell {
    if !Matches(cell, kind) then cell
    else
      var row := cell.row.value;
      var updated := match kind
        case ClaimSeen =>
          row.(status := Claimed, claimTx := Some(tx),
               refund := if row.refund == Eligible then NoRefund else row.refund)
        case CancelSeen => row.(refund := Cancelled, cancelTx := Some(tx))
        case RefundSeen => row.(refund := Refunded, refundTx := Some(tx));
      cell.(row := Some(updated))
  }

  function MarkerFor(kind: Kind, tx: string): Marker {
    match kind
    case ClaimSeen => Marker(Some(Claimed), None, Some(tx), None, None)
    case CancelSeen => Marker(None, Some(Cancelled), None, Some(tx), None)
    case RefundSeen => Marker(None, Some(Refunded), None, None, Some(tx))
  }

  /** SQL COALESCE. */
  function Coalesce<T>(a: Option<T>, b: Option<T>): Option<T> {
    if a.Some? then a else b
  }

  function CoalesceValue<T>(a: Option<T>, b: T): T {
    if a.Some? then a.value else b
  }

  /** The upsert into the park table, column by column. */
  function ParkMarker(cell: Cell, marker: Marker): Cell {
    if cell.parked.None? then cell.(parked := Some(marker))
    else
      var old_ := cell.parked.value;
      cell.(parked := Some(Marker(Coalesce(marker.status, old_.status), Coalesce(marker.refund, old_.refund),
                                  Coalesce(marker.claimTx, old_.claimTx), Coalesce(marker.cancelTx, old_.cancelTx),
                                  Coalesce(marker.refundTx, old_.refundTx))))
  }

  /** The UPDATE half of applying a parked marker. */
  function ApplyMarker(cell: Cell): Cell {
    if cell.row.None? || cell.parked.None? then cell
    else
      var row, m := cell.row.value, cell.parked.value;
      cell.(row := Some(Row(CoalesceValue(m.status, row.status), CoalesceValue(m.refund, row.refund),
                            Coalesce(m.claimTx, row.claimTx), Coalesce(m.cancelTx, row.cancelTx),
                            Coalesce(m.refundTx, row.refundTx))))
  }

  /** The DELETE half. */
  function DropMarker(cell: Cell): Cell {
    cell.(parked := None)
  }

  /** The row insert, which leaves an existing row as it is. */
  function InsertRow(cell: Cell): Cell {
    if cell.row.None? then cell.(row := Some(FRESH_ROW)) else cell
  }

  /** The refund sweep on a row that is old enough and vouched for. */
  function SweepRow(cell: Cell): Cell {
    if cell.row.Some? && cell.row.value.status != Claimed && cell.row.value.refund == NoRefund
    then cell.(row := Some(cell.row.value.(refund := Eligible)))
    else cell
  }

  // ----- whole calls -----

  datatype Event = RowSeen | Reported(kind: Kind, tx: string, missing: Missing) | Swept

  predicate Refused(cell: Cell, e: Event) {
    e.Reported? && e.missing == Reject && cell.row.None?
  }

  /**
   What one uninterrupted call does to a cell: a report lands on the row when
   there is one, and otherwise waits in the park table until the row is seen.
   */
  function Call(cell: Cell, e: Event): Cell {
    match e
    case RowSeen => DropMarker(ApplyMarker(InsertRow(cell)))
    case Swept => SweepRow(cell)
    case Reported(kind, tx, missing) =>
      if cell.row.Some? then Update(cell, kind, tx)
      else if missing == Reject then cell
      else ParkMarker(cell, MarkerFor(kind, tx))
  }

  function Run(events: seq<Event>): Cell {
    if events == [] then ABSENT else Call(Run(events[..|events| - 1]), events[|events| - 1])
  }

  // ----- the calls as they are written -----

  class LifecycleTables {
    var submissions: map<Id, Row>
    var pending: map<Id, Marker>

    /** An existing row has no parked marker. */
    ghost predicate Valid()
      reads this
    {
      forall id :: At(id).row.None? || At(id).parked.None?
    }

    function At(id: Id): Cell
      reads this
    {
      Cell(if id in submissions then Some(submissions[id]) else None,
           if id in pending then Some(pending[id]) else None)
    }

    constructor ()
      ensures Valid() && submissions == map[] && pending == map[]
    {
      submissions, pending := map[], map[];
    }

    /** Runs one lifecycle UPDATE and says how many rows it touched. */
    method LifecycleUpdate(id: Id, kind: Kind, tx: string) returns (affected: nat)
      modifies this
      ensures At(id) == Update(old(At(id)), kind, tx)
      ensures forall o :: o != id ==> At(o) == old(At(o))
      ensures affected == if Matches(old(At(id)), kind) then 1 else 0
    {
      affected := 0;
      if id in submissions {
        var row := submissions[id];
        match kind
        case ClaimSeen =>
          var refund := if row.refund == Eligible then NoRefund else row.refund;
          submissions := submissions[id := row.(status := Claimed, claimTx := Some(tx), refund := refund)];
          affected := 1;
        case CancelSeen =>
          if row.refund != Refunded {
            submissions := submissions[id := row.(refund := Cancelled, cancelTx := Some(tx))];
            affected := 1;
          }
        case RefundSeen =>
          submissions := submissions[id := row.(refund := Refunded, refundTx := Some(tx))];
          affected := 1;
      }
    }

    method ApplyPending(id: Id)
      modifies this
      ensures At(id) == DropMarker(ApplyMarker(old(At(id))))
      ensures forall o :: o != id ==> At(o) == old(At(o))
    {
      if id in submissions && id in pending {
        var row, m := submissions[id], pending[id];
        submissions := submissions[id :=
          Row(CoalesceValue(m.status, row.status), CoalesceValue(m.refund, row.refund),
              Coalesce(m.claimTx, row.claimTx), Coalesce(m.cancelTx, row.cancelTx),
              Coalesce(m.refundTx, row.refundTx))];
      }
      pending := pending - {id};
    }

    /** `mark_claimed`, `mark_cancelled` and `mark_refunded`, parking or refusing an unknown id. */
    method Mark(id: Id, kind: Kind, tx: string, missing: Missing) returns (known: bool)
      requires Valid()
      modifies this
      ensures At(id) == Call(old(At(id)), Reported(kind, tx, missing))
      ensures forall o :: o != id ==> At(o) == old(At(o))
      ensures Valid()
      ensures !known <==> Refused(old(At(id)), Reported(kind, tx, missing))
    {
      known := true;
      var affected := LifecycleUpdate(id, kind, tx);
      if affected > 0 {
        return;
      }
      if id in submissions {
        affected := LifecycleUpdate(id, kind, tx);
        return;
      }
      if missing == Reject {
        known := false;
        return;
      }
      var marker := MarkerFor(kind, tx);
      if id in pending {
        var old_ := pending[id];
        marker := Marker(Coalesce(marker.status, old_.status), Coalesce(marker.refund, old_.refund),
                         Coalesce(marker.claimTx, old_.claimTx), Coalesce(marker.cancelTx, old_.cancelTx),
                         Coalesce(marker.refundTx, old_.refundTx));
      }
      pending := pending[id := marker];
      // Nothing runs in between here, so the second existence check cannot find the row;
      // `LifecycleRace` interleaves the statements and takes that branch.
      assert id !in submissions;
    }

    /** The row-creating calls: `observe_submission`, and `upsert_signature` once its transaction commits. */
    method SeeRow(id: Id)
      requires Valid()
      modifies this
      ensures At(id) == Call(old(At(id)), RowSeen)
      ensures forall o :: o != id ==> At(o) == old(At(o))
      ensures Valid()
      ensures id in submissions
    {
      if id !in submissions {
        submissions := submissions[id := FRESH_ROW];
      }
      ApplyPending(id);
    }

    /** One sweep over the rows in `due`: those past the timeout whose transfer is vouched for. */
    method Sweep(due: set<Id>)
      requires Valid()
      modifies this
      ensures pending == old(pending) && submissions.Keys == old(submissions.Keys)
      ensures forall id :: At(id) == if id in due then Call(old(At(id)), Swept) else old(At(id))
      ensures Valid()
    {
      submissions := map id | id in submissions ::
        if id in due && submissions[id].status != Claimed && submissions[id].refund == NoRefund
        then submissions[id].(refund := Eligible)
        else submissions[id];
    }
  }

  // ----- what every run of whole calls does -----

  /** The report at position `i` was not refused. */
  predicate Took(events: seq<Event>, i: nat, kind: Kind) {
    && i < |events| && events[i].Reported? && events[i].kind == kind
    && (events[i].missing == Park || RowSeen in events[..i])
  }

  predicate HasTaken(events: seq<Event>, kind: Kind) {
    exists i: nat :: i < |events| && Took(events, i, kind)
  }

  /** Some sweep came after the row was created. */
  predicate SweptAfterRow(events: seq<Event>) {
    exists i: nat :: i < |events| && events[i] == Swept && RowSeen in events[..i]
  }

  /** The refund at `i` is parked, and a cancel is parked over it before the row is seen. */
  predicate Overwritten(events: seq<Event>, i: nat) {
    exists j: nat :: i < j < |events| && Took(events, j, CancelSeen) && RowSeen !in events[..j]
  }

  /** Every refund report was overwritten in the park table. */
  predicate LostRefund(events: seq<Event>) {
    && HasTaken(events, RefundSeen)
    && forall i: nat :: i < |events| && Took(events, i, RefundSeen) ==> Overwritten(events, i)
  }

  /** A refund whose effect lasts: none of the later parked cancels is written over it. */
  predicate KeepsRefund(events: seq<Event>) {
    exists i: nat :: i < |events| && Took(events, i, RefundSeen) && !Overwritten(events, i)
  }

  lemma TookPrefix(events: seq<Event>, n: nat, i: nat, kind: Kind)
    requires i < n <= |events|
    ensures Took(events[..n], i, kind) <==> Took(events, i, kind)
  {
    assert events[..n][..i] == events[..i];
  }

  lemma HasTakenSnoc(events: seq<Event>, kind: Kind)
    requires events != []
    ensures HasTaken(events, kind)
            <==> HasTaken(events[..|events| - 1], kind) || Took(events, |events| - 1, kind)
  {
    var n := |events| - 1;
    forall i: nat | i < n ensures Took(events[..n], i, kind) <==> Took(events, i, kind) {
      TookPrefix(events, n, i, kind);
    }
  }

  lemma SweptSnoc(events: seq<Event>)
    requires events != []
    ensures SweptAfterRow(events)
            <==> SweptAfterRow(events[..|events| - 1])
                 || (events[|events| - 1] == Swept && RowSeen in events[..|events| - 1])
  {
    var n := |events| - 1;
    forall i: nat | i < n ensures events[..n][..i] == events[..i] {
    }
    if SweptAfterRow(events) {
      var i: nat :| i < |events| && events[i] == Swept && RowSeen in events[..i];
      assert i == n || events[..n][i] == Swept;
    }
    if SweptAfterRow(events[..n]) {
      var i: nat :| i < n && events[..n][i] == Swept && RowSeen in events[..n][..i];
      assert events[i] == Swept && RowSeen in events[..i];
    }
  }

  lemma OverwrittenSnoc(events: seq<Event>, i: nat)
    requires events != [] && i < |events| - 1
    ensures Overwritten(events, i)
            <==> Overwritten(events[..|events| - 1], i)
                 || (Took(events, |events| - 1, CancelSeen) && RowSeen !in events[..|events| - 1])
  {
    var n := |events| - 1;
    forall j: nat | j < n
      ensures Took(events[..n], j, CancelSeen) <==> Took(events, j, CancelSeen)
      ensures events[..n][..j] == events[..j]
    {
      TookPrefix(events, n, j, CancelSeen);
    }
    if Overwritten(events, i) {
      var j: nat :| i < j < |events| && Took(events, j, CancelSeen) && RowSeen !in events[..j];
      assert j == n || (Took(events[..n], j, CancelSeen) && RowSeen !in events[..n][..j]);
    }
    if Overwritten(events[..n], i) {
      var j: nat :| i < j < n && Took(events[..n], j, CancelSeen) && RowSeen !in events[..n][..j];
      assert Took(events, j, CancelSeen) && RowSeen !in events[..j];
    }
  }

  lemma KeepsRefundSnoc(events: seq<Event>)
    requires events != []
    ensures KeepsRefund(events)
            <==> Took(events, |events| - 1, RefundSeen)
                 || (KeepsRefund(events[..|events| - 1])
                     && !(Took(events, |events| - 1, CancelSeen) && RowSeen !in events[..|events| - 1]))
  {
    var n := |events| - 1;
    forall i: nat | i < n
      ensures Took(events[..n], i, RefundSeen) <==> Took(events, i, RefundSeen)
      ensures Overwritten(events, i)
              <==> Overwritten(events[..n], i)
                   || (Took(events, n, CancelSeen) && RowSeen !in events[..n])
    {
      TookPrefix(events, n, i, RefundSeen);
      OverwrittenSnoc(events, i);
    }
    assert !Overwritten(events, n);
    if KeepsRefund(events[..n]) {
      var i: nat :| i < n && Took(events[..n], i, RefundSeen) && !Overwritten(events[..n], i);
      assert Took(events, i, RefundSeen);
    }
    if KeepsRefund(events) {
      var i: nat :| i < |events| && Took(events, i, RefundSeen) && !Overwritten(events, i);
      assert i == n || (Took(events[..n], i, RefundSeen) && !Overwritten(events[..n], i));
    }
  }

  /** The refund column a run ends in, told without the order of its calls. */
  function RefundOutcome(claimed: bool, cancelled: bool, refunded: bool, swept: bool): RefundStatus {
    if refunded then Refunded
    else if cancelled then Cancelled
    else if swept && !claimed then Eligible
    else NoRefund
  }

  datatype Facts = Facts(seen: bool, claimed: bool, cancelled: bool, refunded: bool, swept: bool)

  function FactsOf(events: seq<Event>): Facts {
    Facts(RowSeen in events, HasTaken(events, ClaimSeen), HasTaken(events, CancelSeen), KeepsRefund(events),
          SweptAfterRow(events))
  }

  /** What a cell holds given the facts of its run; before the row exists, the same facts sit in the marker. */
  ghost predicate Tells(cell: Cell, f: Facts) {
    if f.seen then
      && cell.row.Some? && cell.parked.None?
      && (cell.row.value.status == Claimed <==> f.claimed)
      && cell.row.value.refund == RefundOutcome(f.claimed, f.cancelled, f.refunded, f.swept)
    else
      && cell.row.None? && !f.swept
      && ((cell.parked.Some? && cell.parked.value.status == Some(Claimed)) <==> f.claimed)
      && (cell.parked.Some? ==> cell.parked.value.status in {None, Some(Claimed)})
      && (if cell.parked.Some? then cell.parked.value.refund else None)
         == if f.refunded then Some(Refunded) else if f.cancelled then Some(Cancelled) else None
  }

  /** How one more call changes the facts. */
  predicate FactsGrow(f: Facts, e: Event, g: Facts) {
    var taken := e.Reported? && (e.missing == Park || f.seen);
    && (g.seen <==> f.seen || e == RowSeen)
    && (g.claimed <==> f.claimed || (taken && e.kind == ClaimSeen))
    && (g.cancelled <==> f.cancelled || (taken && e.kind == CancelSeen))
    && (g.refunded <==> (taken && e.kind == RefundSeen) || (f.refunded && !(taken && e.kind == CancelSeen && !f.seen)))
    && (g.swept <==> f.swept || (e == Swept && f.seen))
  }

  lemma CallTells(cell: Cell, f: Facts, e: Event, g: Facts)
    requires Tells(cell, f) && FactsGrow(f, e, g)
    ensures Tells(Call(cell, e), g)
  {
  }

  lemma FactsSnoc(events: seq<Event>)
    requires events != []
    ensures FactsGrow(FactsOf(events[..|events| - 1]), events[|events| - 1], FactsOf(events))
  {
    var n := |events| - 1;
    HasTakenSnoc(events, ClaimSeen);
    HasTakenSnoc(events, CancelSeen);
    SweptSnoc(events);
    KeepsRefundSnoc(events);
    assert events == events[..n] + [events[n]];
    assert RowSeen in events <==> RowSeen in events[..n] || events[n] == RowSeen;
  }

  lemma KeptUnlessLost(events: seq<Event>)
    ensures KeepsRefund(events) <==> HasTaken(events, RefundSeen) && !LostRefund(events)
  {
  }

  /**
   The outcome of any run of whole calls on one id, whatever their order and
   however often they repeat. `claimed` is exactly "some claim was taken";
   between calls a row never has a parked marker beside it; and the refund
   column depends only on which reports were taken, with one exception: a
   refund whose every report was parked and then overwritten by a parked cancel.
   */
  lemma {:induction false} OutcomeIgnoresOrder(events: seq<Event>)
    ensures Tells(Run(events), FactsOf(events))
    ensures KeepsRefund(events) <==> HasTaken(events, RefundSeen) && !LostRefund(events)
  {
    KeptUnlessLost(events);
    if events != [] {
      var n := |events| - 1;
      OutcomeIgnoresOrder(events[..n]);
      FactsSnoc(events);
      CallTells(Run(events[..n]), FactsOf(events[..n]), events[n], FactsOf(events));
    }
  }

  /** A run that sees the row first and takes each report at most once, a cancel before a refund. */
  function Ordered(swept: bool, claimed: bool, cancelled: bool, refunded: bool): seq<Event> {
    [RowSeen]
    + (if swept then [Swept] else [])
    + (if claimed then [Reported(ClaimSeen, "", Park)] else [])
    + (if cancelled then [Reported(CancelSeen, "", Park)] else [])
    + (if refunded then [Reported(RefundSeen, "", Park)] else [])
  }

  /** The in-order, exactly-once run of the reports `events` took. */
  function InOrder(events: seq<Event>): seq<Event> {
    Ordered(SweptAfterRow(events), HasTaken(events, ClaimSeen), HasTaken(events, CancelSeen),
            HasTaken(events, RefundSeen))
  }

  lemma RunSnoc(events: seq<Event>, e: Event)
    ensures Run(events + [e]) == Call(Run(events), e)
  {
    assert (events + [e])[..|events|] == events;
  }

  lemma RunMaybe(events: seq<Event>, add: bool, e: Event)
    ensures Run(events + if add then [e] else []) == if add then Call(Run(events), e) else Run(events)
  {
    if add {
      RunSnoc(events, e);
    } else {
      assert events + [] == events;
    }
  }

  /** The cell that `Ordered` leaves, call by call. */
  function OrderedCell(swept: bool, claimed: bool, cancelled: bool, refunded: bool): Cell {
    var c0 := Call(ABSENT, RowSeen);
    var c1 := if swept then Call(c0, Swept) else c0;
    var c2 := if claimed then Call(c1, Reported(ClaimSeen, "", Park)) else c1;
    var c3 := if cancelled then Call(c2, Reported(CancelSeen, "", Park)) else c2;
    if refunded then Call(c3, Reported(RefundSeen, "", Park)) else c3
  }

  lemma OrderedCellOutcome(swept: bool, claimed: bool, cancelled: bool, refunded: bool)
    ensures var row := OrderedCell(swept, claimed, cancelled, refunded).row;
            && row.Some? && (row.value.status == Claimed <==> claimed)
            && row.value.refund == RefundOutcome(claimed, cancelled, refunded, swept)
  {
  }

  lemma RunOrdered(swept: bool, claimed: bool, cancelled: bool, refunded: bool)
    ensures Run(Ordered(swept, claimed, cancelled, refunded)) == OrderedCell(swept, claimed, cancelled, refunded)
  {
    var s1 := [RowSeen] + if swept then [Swept] else [];
    var s2 := s1 + if claimed then [Reported(ClaimSeen, "", Park)] else [];
    var s3 := s2 + if cancelled then [Reported(CancelSeen, "", Park)] else [];
    RunSnoc([], RowSeen);
    assert [] + [RowSeen] == [RowSeen];
    RunMaybe([RowSeen], swept, Swept);
    RunMaybe(s1, claimed, Reported(ClaimSeen, "", Park));
    RunMaybe(s2, cancelled, Reported(CancelSeen, "", Park));
    RunMaybe(s3, refunded, Reported(RefundSeen, "", Park));
  }

  lemma InOrderOutcome(swept: bool, claimed: bool, cancelled: bool, refunded: bool)
    ensures var row := Run(Ordered(swept, claimed, cancelled, refunded)).row;
            && row.Some? && (row.value.status == Claimed <==> claimed)
            && row.value.refund == RefundOutcome(claimed, cancelled, refunded, swept)
  {
    RunOrdered(swept, claimed, cancelled, refunded);
    OrderedCellOutcome(swept, claimed, cancelled, refunded);
  }

  /** The source loop delivers a transfer's `Sent` before its `Refunded`. */
  predicate SourceInOrder(events: seq<Event>) {
    forall i: nat :: i < |events| && events[i].Reported? && events[i].kind == RefundSeen ==> RowSeen in events[..i]
  }

  /**
   A run of whole calls that saw the row ends in the status and refund status
   of the in-order, exactly-once run, if and only if no refund was lost in the
   park table.
   */
  lemma MatchesInOrderIff(events: seq<Event>)
    requires RowSeen in events
    ensures Run(events).row.Some? && Run(InOrder(events)).row.Some?
    ensures Run(events).row.value.status == Run(InOrder(events)).row.value.status
    ensures Run(events).row.value.refund == Run(InOrder(events)).row.value.refund <==> !LostRefund(events)
  {
    OutcomeIgnoresOrder(events);
    InOrderOutcome(SweptAfterRow(events), HasTaken(events, ClaimSeen), HasTaken(events, CancelSeen),
                   HasTaken(events, RefundSeen));
  }

  /** With the source loop in order, no refund is ever lost, however the other loop interleaves and replays. */
  lemma SourceOrderLosesNothing(events: seq<Event>)
    requires SourceInOrder(events)
    ensures !LostRefund(events)
    ensures RowSeen in events ==>
              && Run(events).row.Some? && Run(InOrder(events)).row.Some?
              && Run(events).row.value.status == Run(InOrder(events)).row.value.status
              && Run(events).row.value.refund == Run(InOrder(events)).row.value.refund
  {
    forall i: nat | i < |events| && Took(events, i, RefundSeen) ensures !Overwritten(events, i) {
      forall j: nat | i < j < |events| ensures RowSeen in events[..j] {
        var k :| 0 <= k < i && events[..i][k] == RowSeen;
        assert events[..j][k] == RowSeen;
      }
    }
    if RowSeen in events {
      MatchesInOrderIff(events);
    }
  }

  /** A refund parked first and a cancel parked second: the row ends `cancelled`, and the refund is lost. */
  lemma ParkedCancelHidesRefund()
    ensures var events := [Reported(RefundSeen, "r", Park), Reported(CancelSeen, "c", Park), RowSeen];
            LostRefund(events) && Run(events).row.Some? && Run(events).row.value.refund == Cancelled
  {
    var a, b := Reported(RefundSeen, "r", Park), Reported(CancelSeen, "c", Park);
    var events := [a, b, RowSeen];
    assert Run([]) == ABSENT && [] + [a] == [a] && [a] + [b] == [a, b] && [a, b] + [RowSeen] == events;
    RunSnoc([], a);
    RunSnoc([a], b);
    RunSnoc([a, b], RowSeen);
    assert Run(events).row.value.refund == Cancelled;
    OutcomeIgnoresOrder(events);
    assert RowSeen in events && Took(events, 0, RefundSeen);
  }

  /**
   After any run, a report is refused exactly when it is not one the run takes: it
   came over a route that does not park, and the row was not seen. It changes nothing.
   */
  lemma RefusedIffNotTaken(events: seq<Event>, e: Event)
    requires e.Reported?
    ensures Refused(Run(events), e) <==> !Took(events + [e], |events|, e.kind)
    ensures Refused(Run(events), e) <==> e.missing == Reject && RowSeen !in events
    ensures Refused(Run(events), e) ==> Run(events + [e]) == Run(events)
  {
    OutcomeIgnoresOrder(events);
    RunSnoc(events, e);
    assert (events + [e])[..|events|] == events;
  }

  /** No run of whole calls leaves a claimed row flagged for a refund. */
  lemma ClaimedIsNeverEligible(events: seq<Event>)
    ensures Run(events).row.Some? && Run(events).row.value.status == Claimed ==> Run(events).row.value.refund != Eligible
  {
    OutcomeIgnoresOrder(events);
  }

  /**
   One call never leaves `claimed` or `refunded`, leaves `cancelled` only for
   `refunded`, and keeps a row and its marker apart.
   */
  lemma CallKeepsTerminal(cell: Cell, e: Event)
    requires cell.row.Some? ==> cell.parked.None?
    ensures Call(cell, e).row.Some? ==> Call(cell, e).parked.None?
    ensures cell.row.Some? ==> Call(cell, e).row.Some?
    ensures cell.row.Some? && cell.row.value.status == Claimed ==> Call(cell, e).row.value.status == Claimed
    ensures cell.row.Some? && cell.row.value.refund == Refunded ==> Call(cell, e).row.value.refund == Refunded
    ensures cell.row.Some? && cell.row.value.refund == Cancelled
            ==> Call(cell, e).row.value.refund in {Cancelled, Refunded}
  {
  }

  // ----- the transactions -----

  /** The transaction column of a kind: on the row, or in the marker while there is no row. */
  function Column(cell: Cell, kind: Kind): Option<string> {
    match kind
    case ClaimSeen => if cell.row.Some? then cell.row.value.claimTx else ParkedTx(cell, kind)
    case CancelSeen => if cell.row.Some? then cell.row.value.cancelTx else ParkedTx(cell, kind)
    case RefundSeen => if cell.row.Some? then cell.row.value.refundTx else ParkedTx(cell, kind)
  }

  function ParkedTx(cell: Cell, kind: Kind): Option<string> {
    if cell.parked.None? then None
    else match kind
      case ClaimSeen => cell.parked.value.claimTx
      case CancelSeen => cell.parked.value.cancelTx
      case RefundSeen => cell.parked.value.refundTx
  }

  /** The report at `i` is taken, and is not a cancel of a row that a refund has settled. */
  predicate Lands(events: seq<Event>, i: nat, kind: Kind) {
    && Took(events, i, kind)
    && !(kind == CancelSeen && RowSeen in events[..i] && KeepsRefund(events[..i]))
  }

  /** Nothing of this kind lands after `i`. */
  predicate LastToLand(events: seq<Event>, i: nat, kind: Kind) {
    Lands(events, i, kind) && forall j: nat :: i < j < |events| ==> !Lands(events, j, kind)
  }

  lemma LandsPrefix(events: seq<Event>, n: nat, i: nat, kind: Kind)
    requires i < n <= |events|
    ensures Lands(events[..n], i, kind) <==> Lands(events, i, kind)
  {
    TookPrefix(events, n, i, kind);
    assert events[..n][..i] == events[..i];
  }

  /** One call writes a column exactly when its report lands, and leaves the others. */
  lemma CallWritesColumn(cell: Cell, f: Facts, e: Event, kind: Kind)
    requires Tells(cell, f)
    ensures var lands := e.Reported? && e.kind == kind && (e.missing == Park || f.seen)
                         && !(kind == CancelSeen && f.seen && f.refunded);
            Column(Call(cell, e), kind) == if lands then Some(e.tx) else Column(cell, kind)
  {
  }

  lemma LastColumn(events: seq<Event>, kind: Kind)
    requires events != []
    ensures var n := |events| - 1;
            Column(Run(events), kind)
            == if Lands(events, n, kind) then Some(events[n].tx) else Column(Run(events[..n]), kind)
  {
    var n := |events| - 1;
    OutcomeIgnoresOrder(events[..n]);
    CallWritesColumn(Run(events[..n]), FactsOf(events[..n]), events[n], kind);
  }

  lemma LastToLandPrefix(events: seq<Event>, n: nat, i: nat, kind: Kind)
    requires i < n <= |events| && LastToLand(events, i, kind)
    ensures LastToLand(events[..n], i, kind)
  {
    LandsPrefix(events, n, i, kind);
    forall j: nat | i < j < n ensures !Lands(events[..n], j, kind) {
      LandsPrefix(events, n, j, kind);
    }
  }

  lemma {:induction false} NothingLanded(events: seq<Event>, kind: Kind)
    ensures Column(Run(events), kind).None? <==> forall i: nat :: i < |events| ==> !Lands(events, i, kind)
  {
    if events != [] {
      var n := |events| - 1;
      NothingLanded(events[..n], kind);
      LastColumn(events, kind);
      forall i: nat | i < n ensures Lands(events[..n], i, kind) <==> Lands(events, i, kind) {
        LandsPrefix(events, n, i, kind);
      }
    }
  }

  lemma {:induction false} LastLanded(events: seq<Event>, kind: Kind, i: nat)
    requires i < |events| && LastToLand(events, i, kind)
    ensures Column(Run(events), kind) == Some(events[i].tx)
  {
    var n := |events| - 1;
    LastColumn(events, kind);
    if i < n {
      LastToLandPrefix(events, n, i, kind);
      LastLanded(events[..n], kind, i);
    }
  }

  /**
   Over every run of whole calls, in whatever order and through the park table, each
   transaction column holds the transaction of the last report of its kind that
   landed, and nothing when none did. Every taken claim and refund lands, also one
   whose refund status was overwritten while parked; a taken cancel does unless the
   row is already refunded.
   */
  lemma TransactionsAreKept(events: seq<Event>, kind: Kind)
    ensures Column(Run(events), kind).None? <==> forall i: nat :: i < |events| ==> !Lands(events, i, kind)
    ensures forall i: nat :: i < |events| && LastToLand(events, i, kind) ==> Column(Run(events), kind) == Some(events[i].tx)
  {
    NothingLanded(events, kind);
    forall i: nat | i < |events| && LastToLand(events, i, kind) ensures Column(Run(events), kind) == Some(events[i].tx) {
      LastLanded(events, kind, i);
    }
  }

  /** A refund overwritten while parked still leaves its transaction on the row that ends `cancelled`. */
  lemma OverwrittenRefundKeepsItsTransaction()
    ensures var events := [Reported(RefundSeen, "r", Park), Reported(CancelSeen, "c", Park), RowSeen];
            Run(events).row.Some? && Run(events).row.value == Row(Signed, Cancelled, None, Some("c"), Some("r"))
  {
    var a, b := Reported(RefundSeen, "r", Park), Reported(CancelSeen, "c", Park);
    assert Run([]) == ABSENT && [] + [a] == [a] && [a] + [b] == [a, b] && [a, b] + [RowSeen] == [a, b, RowSeen];
    RunSnoc([], a);
    RunSnoc([a], b);
    RunSnoc([a, b], RowSeen);
  }
}
