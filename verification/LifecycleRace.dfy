/**
 The lifecycle calls on one submission id, one SQL statement at a time. Any number
 of `mark_claimed`, `mark_cancelled`, `mark_refunded`, row-creating calls and sweeps
 run concurrently; a schedule says which of them issues its next statement.
 Applying a parked marker is an UPDATE and then a DELETE; `atomic` says whether the
 two are one step.
 */
module LifecycleRace {
  import opened Words
  import opened Lifecycle

  /** A call that reports, one that creates the row, or a sweep. */
  datatype Role = Mark(kind: Kind) | Create | Sweep

  /** The statement a call issues next. */
  datatype Pc = UpdateRow | CheckRow | RetryUpdate | ParkIt | CheckAgain | InsertIt | Vouch | Apply | Delete | SweepIt | Done

  datatype Thread = Thread(role: Role, pc: Pc)

  datatype State = State(cell: Cell, threads: seq<Thread>)

  const TX: string := "tx"

  function KindOf(t: Thread): Kind {
    if t.role.Mark? then t.role.kind else ClaimSeen
  }

  /** What the thread's next statement does to the tables. */
  function Touch(cell: Cell, t: Thread, atomic: bool): Cell {
    match t.pc
    case UpdateRow => Update(cell, KindOf(t), TX)
    case RetryUpdate => Update(cell, KindOf(t), TX)
    case ParkIt => ParkMarker(cell, MarkerFor(KindOf(t), TX))
    case InsertIt => InsertRow(cell)
    case Apply => if atomic then DropMarker(ApplyMarker(cell)) else ApplyMarker(cell)
    case Delete => DropMarker(cell)
    case SweepIt => SweepRow(cell)
    case _ => cell
  }

  /** The statement after it, as the answer tells. */
  function NextPc(cell: Cell, t: Thread, atomic: bool): Pc {
    match t.pc
    case UpdateRow => if Matches(cell, KindOf(t)) then Done else CheckRow
    case CheckRow => if cell.row.Some? then RetryUpdate else ParkIt
    case RetryUpdate => Done
    case ParkIt => CheckAgain
    case CheckAgain => if cell.row.Some? then Apply else Done
    case InsertIt => Vouch
    case Vouch => Apply
    case Apply => if atomic then Done else Delete
    case Delete => Done
    case SweepIt => Done
    case Done => Done
  }

  /** Thread `i` issues its next statement. */
  function Step(s: State, i: nat, atomic: bool): State
    requires i < |s.threads|
  {
    var t := s.threads[i];
    State(Touch(s.cell, t, atomic), s.threads[i := t.(pc := NextPc(s.cell, t, atomic))])
  }

  function First(role: Role): Pc {
    match role
    case Mark(_) => UpdateRow
    case Create => InsertIt
    case Sweep => SweepIt
  }

  function Start(roles: seq<Role>): State {
    State(ABSENT, seq(|roles|, i requires 0 <= i < |roles| => Thread(roles[i], First(roles[i]))))
  }

  predicate Fits(schedule: seq<nat>, roles: seq<Role>) {
    forall i :: 0 <= i < |schedule| ==> schedule[i] < |roles|
  }

  /** The state after a schedule, the last choice being the last element. */
  function Play(roles: seq<Role>, schedule: seq<nat>, atomic: bool): (s: State)
    requires Fits(schedule, roles)
    ensures |s.threads| == |roles|
  {
    if schedule == [] then Start(roles)
    else Step(Play(roles, schedule[..|schedule| - 1], atomic), schedule[|schedule| - 1], atomic)
  }

  predicate AllDone(s: State) {
    forall i :: 0 <= i < |s.threads| ==> s.threads[i].pc == Done
  }

  // ----- a kind of report -----

  /** The row shows a report of this kind. */
  predicate Landed(cell: Cell, kind: Kind) {
    cell.row.Some? && match kind
      case ClaimSeen => cell.row.value.status == Claimed
      case CancelSeen => cell.row.value.refund == Cancelled
      case RefundSeen => cell.row.value.refund == Refunded
  }

  /** The park table holds a report of this kind. */
  predicate Live(cell: Cell, kind: Kind) {
    cell.parked.Some? && match kind
      case ClaimSeen => cell.parked.value.status == Some(Claimed)
      case CancelSeen => cell.parked.value.refund == Some(Cancelled)
      case RefundSeen => cell.parked.value.refund == Some(Refunded)
  }

  /** A cancel and a refund write the same column; a claim has its own. */
  predicate Rivals(a: Kind, b: Kind) {
    a != b && a != ClaimSeen && b != ClaimSeen
  }

  predicate NoRivals(roles: seq<Role>, kind: Kind) {
    forall i :: 0 <= i < |roles| && roles[i].Mark? ==> !Rivals(roles[i].kind, kind)
  }

  // ----- what a schedule does -----

  /** The statement that step `k` of the schedule issues. */
  function StatementAt(roles: seq<Role>, schedule: seq<nat>, atomic: bool, k: nat): Pc
    requires Fits(schedule, roles) && k < |schedule|
  {
    Play(roles, schedule[..k], atomic).threads[schedule[k]].pc
  }

  /** Step `k` is an UPDATE of a report of this kind, after some call has inserted the row. */
  predicate UpdateMeetsRow(roles: seq<Role>, schedule: seq<nat>, atomic: bool, kind: Kind, k: nat)
    requires Fits(schedule, roles)
  {
    && k < |schedule| && roles[schedule[k]] == Mark(kind)
    && StatementAt(roles, schedule, atomic, k) in {UpdateRow, RetryUpdate}
    && exists j :: 0 <= j < k && StatementAt(roles, schedule, atomic, j) == InsertIt
  }

  /** Step `k` parks a report of this kind. */
  predicate Parks(roles: seq<Role>, schedule: seq<nat>, atomic: bool, kind: Kind, k: nat)
    requires Fits(schedule, roles)
  {
    k < |schedule| && roles[schedule[k]] == Mark(kind) && StatementAt(roles, schedule, atomic, k) == ParkIt
  }

  /** Step `d` is the first half of an apply, an UPDATE or a DELETE, that any call issues after step `k`. */
  predicate FirstHalfAfter(roles: seq<Role>, schedule: seq<nat>, atomic: bool, k: nat, d: nat)
    requires Fits(schedule, roles)
  {
    && k < d < |schedule| && StatementAt(roles, schedule, atomic, d) in {Apply, Delete}
    && NoneBetween(roles, schedule, atomic, k, d)
  }

  predicate NoneBetween(roles: seq<Role>, schedule: seq<nat>, atomic: bool, k: nat, d: nat)
    requires Fits(schedule, roles) && d <= |schedule|
  {
    forall j :: k < j < d ==> StatementAt(roles, schedule, atomic, j) !in {Apply, Delete}
  }

  /** Step `d` applies a report that step `k` parked. */
  predicate AppliedAt(roles: seq<Role>, schedule: seq<nat>, atomic: bool, kind: Kind, k: nat, d: nat)
    requires Fits(schedule, roles)
  {
    && Parks(roles, schedule, atomic, kind, k) && FirstHalfAfter(roles, schedule, atomic, k, d)
    && StatementAt(roles, schedule, atomic, d) == Apply
  }

  ghost predicate SomeUpdateMeets(roles: seq<Role>, schedule: seq<nat>, atomic: bool, kind: Kind)
    requires Fits(schedule, roles)
  {
    exists k: nat :: UpdateMeetsRow(roles, schedule, atomic, kind, k)
  }

  ghost predicate SomeApplied(roles: seq<Role>, schedule: seq<nat>, atomic: bool, kind: Kind)
    requires Fits(schedule, roles)
  {
    exists k: nat, d: nat :: AppliedAt(roles, schedule, atomic, kind, k, d)
  }

  /** A report of this kind reached the row: by its own UPDATE, or by the first apply after it was parked. */
  ghost predicate Reached(roles: seq<Role>, schedule: seq<nat>, atomic: bool, kind: Kind)
    requires Fits(schedule, roles)
  {
    SomeUpdateMeets(roles, schedule, atomic, kind) || SomeApplied(roles, schedule, atomic, kind)
  }

  /** A report of this kind is parked, with no half of an apply since. */
  ghost predicate StillParked(roles: seq<Role>, schedule: seq<nat>, atomic: bool, kind: Kind)
    requires Fits(schedule, roles)
  {
    exists k: nat :: Parks(roles, schedule, atomic, kind, k) && NoneBetween(roles, schedule, atomic, k, |schedule|)
  }

  ghost predicate Inserted(roles: seq<Role>, schedule: seq<nat>, atomic: bool)
    requires Fits(schedule, roles)
  {
    exists j :: 0 <= j < |schedule| && StatementAt(roles, schedule, atomic, j) == InsertIt
  }

  // ----- one more step of the schedule -----

  predicate IsFront(schedule: seq<nat>, before: seq<nat>) {
    schedule != [] && before == schedule[..|schedule| - 1]
  }

  lemma PrefixStatements(roles: seq<Role>, schedule: seq<nat>, before: seq<nat>, atomic: bool)
    requires Fits(schedule, roles) && IsFront(schedule, before)
    ensures forall j {:trigger StatementAt(roles, before, atomic, j)} {:trigger StatementAt(roles, schedule, atomic, j)} ::
              0 <= j < |before| ==> StatementAt(roles, before, atomic, j) == StatementAt(roles, schedule, atomic, j)
  {
    forall j | 0 <= j < |before|
      ensures StatementAt(roles, before, atomic, j) == StatementAt(roles, schedule, atomic, j)
    {
      assert before[..j] == schedule[..j];
    }
  }

  lemma InsertedSnoc(roles: seq<Role>, schedule: seq<nat>, before: seq<nat>, atomic: bool)
    requires Fits(schedule, roles) && IsFront(schedule, before)
    ensures Inserted(roles, schedule, atomic)
            <==> Inserted(roles, before, atomic) || StatementAt(roles, schedule, atomic, |before|) == InsertIt
  {
    PrefixStatements(roles, schedule, before, atomic);
    if Inserted(roles, schedule, atomic) {
      var j :| 0 <= j <= |before| && StatementAt(roles, schedule, atomic, j) == InsertIt;
      assert j == |before| || StatementAt(roles, before, atomic, j) == InsertIt;
    }
    if Inserted(roles, before, atomic) {
      var j :| 0 <= j < |before| && StatementAt(roles, before, atomic, j) == InsertIt;
      assert StatementAt(roles, schedule, atomic, j) == InsertIt;
    }
  }

  lemma UpdateMeetsPrefix(roles: seq<Role>, schedule: seq<nat>, before: seq<nat>, atomic: bool, kind: Kind, k: nat)
    requires Fits(schedule, roles) && IsFront(schedule, before) && k < |before|
    ensures UpdateMeetsRow(roles, before, atomic, kind, k) <==> UpdateMeetsRow(roles, schedule, atomic, kind, k)
  {
    PrefixStatements(roles, schedule, before, atomic);
    if j :| 0 <= j < k && StatementAt(roles, before, atomic, j) == InsertIt {
      assert StatementAt(roles, schedule, atomic, j) == InsertIt;
    }
    if j :| 0 <= j < k && StatementAt(roles, schedule, atomic, j) == InsertIt {
      assert StatementAt(roles, before, atomic, j) == InsertIt;
    }
  }

  lemma UpdateMeetsLast(roles: seq<Role>, schedule: seq<nat>, before: seq<nat>, atomic: bool, kind: Kind)
    requires Fits(schedule, roles) && IsFront(schedule, before)
    ensures var n := |before|;
            UpdateMeetsRow(roles, schedule, atomic, kind, n)
            <==> roles[schedule[n]] == Mark(kind) && StatementAt(roles, schedule, atomic, n) in {UpdateRow, RetryUpdate}
                 && Inserted(roles, before, atomic)
  {
    PrefixStatements(roles, schedule, before, atomic);
    if j :| 0 <= j < |before| && StatementAt(roles, before, atomic, j) == InsertIt {
      assert StatementAt(roles, schedule, atomic, j) == InsertIt;
    }
    if j :| 0 <= j < |before| && StatementAt(roles, schedule, atomic, j) == InsertIt {
      assert StatementAt(roles, before, atomic, j) == InsertIt;
    }
  }

  lemma NoneBetweenPrefix(roles: seq<Role>, schedule: seq<nat>, before: seq<nat>, atomic: bool, k: nat, d: nat)
    requires Fits(schedule, roles) && IsFront(schedule, before) && d <= |before|
    ensures NoneBetween(roles, before, atomic, k, d) <==> NoneBetween(roles, schedule, atomic, k, d)
  {
    PrefixStatements(roles, schedule, before, atomic);
    if NoneBetween(roles, before, atomic, k, d) {
      forall j | k < j < d ensures StatementAt(roles, schedule, atomic, j) !in {Apply, Delete} {
        assert StatementAt(roles, before, atomic, j) !in {Apply, Delete};
      }
    }
    if NoneBetween(roles, schedule, atomic, k, d) {
      forall j | k < j < d ensures StatementAt(roles, before, atomic, j) !in {Apply, Delete} {
        assert StatementAt(roles, schedule, atomic, j) !in {Apply, Delete};
      }
    }
  }

  lemma ParksPrefix(roles: seq<Role>, schedule: seq<nat>, before: seq<nat>, atomic: bool, kind: Kind, k: nat)
    requires Fits(schedule, roles) && IsFront(schedule, before) && k < |before|
    ensures Parks(roles, before, atomic, kind, k) <==> Parks(roles, schedule, atomic, kind, k)
  {
    PrefixStatements(roles, schedule, before, atomic);
  }

  lemma StillParkedSnoc(roles: seq<Role>, schedule: seq<nat>, before: seq<nat>, atomic: bool, kind: Kind)
    requires Fits(schedule, roles) && IsFront(schedule, before)
    ensures StillParked(roles, schedule, atomic, kind)
            <==> Parks(roles, schedule, atomic, kind, |before|)
                 || (StillParked(roles, before, atomic, kind)
                     && StatementAt(roles, schedule, atomic, |before|) !in {Apply, Delete})
  {
    if StillParked(roles, schedule, atomic, kind) {
      WasParked(roles, schedule, before, atomic, kind);
    }
    if Parks(roles, schedule, atomic, kind, |before|) {
      assert NoneBetween(roles, schedule, atomic, |before|, |schedule|);
    } else if StillParked(roles, before, atomic, kind)
              && StatementAt(roles, schedule, atomic, |before|) !in {Apply, Delete} {
      StaysParked(roles, schedule, before, atomic, kind);
    }
  }

  lemma WasParked(roles: seq<Role>, schedule: seq<nat>, before: seq<nat>, atomic: bool, kind: Kind)
    requires Fits(schedule, roles) && IsFront(schedule, before) && StillParked(roles, schedule, atomic, kind)
    ensures || Parks(roles, schedule, atomic, kind, |before|)
            || (StillParked(roles, before, atomic, kind)
                && StatementAt(roles, schedule, atomic, |before|) !in {Apply, Delete})
  {
    var k: nat :| Parks(roles, schedule, atomic, kind, k) && NoneBetween(roles, schedule, atomic, k, |schedule|);
    if k < |before| {
      ParksPrefix(roles, schedule, before, atomic, kind, k);
      NoneBetweenPrefix(roles, schedule, before, atomic, k, |before|);
    }
  }

  lemma StaysParked(roles: seq<Role>, schedule: seq<nat>, before: seq<nat>, atomic: bool, kind: Kind)
    requires Fits(schedule, roles) && IsFront(schedule, before) && StillParked(roles, before, atomic, kind)
    requires StatementAt(roles, schedule, atomic, |before|) !in {Apply, Delete}
    ensures StillParked(roles, schedule, atomic, kind)
  {
    var k: nat :| Parks(roles, before, atomic, kind, k) && NoneBetween(roles, before, atomic, k, |before|);
    ParksPrefix(roles, schedule, before, atomic, kind, k);
    NoneBetweenPrefix(roles, schedule, before, atomic, k, |before|);
    assert NoneBetween(roles, schedule, atomic, k, |schedule|);
  }

  lemma AppliedAtPrefix(roles: seq<Role>, schedule: seq<nat>, before: seq<nat>, atomic: bool, kind: Kind, k: nat, d: nat)
    requires Fits(schedule, roles) && IsFront(schedule, before) && k < d < |before|
    ensures AppliedAt(roles, before, atomic, kind, k, d) <==> AppliedAt(roles, schedule, atomic, kind, k, d)
  {
    ParksPrefix(roles, schedule, before, atomic, kind, k);
    NoneBetweenPrefix(roles, schedule, before, atomic, k, d);
    PrefixStatements(roles, schedule, before, atomic);
  }

  /** The last step applies a report exactly when it is an apply and some report is still parked. */
  lemma AppliedLast(roles: seq<Role>, schedule: seq<nat>, before: seq<nat>, atomic: bool, kind: Kind)
    requires Fits(schedule, roles) && IsFront(schedule, before)
    ensures (exists k: nat :: AppliedAt(roles, schedule, atomic, kind, k, |before|))
            <==> StillParked(roles, before, atomic, kind) && StatementAt(roles, schedule, atomic, |before|) == Apply
  {
    var n := |before|;
    if k: nat :| AppliedAt(roles, schedule, atomic, kind, k, n) {
      ParksPrefix(roles, schedule, before, atomic, kind, k);
      NoneBetweenPrefix(roles, schedule, before, atomic, k, n);
      assert NoneBetween(roles, before, atomic, k, |before|);
    }
    if StillParked(roles, before, atomic, kind) && StatementAt(roles, schedule, atomic, n) == Apply {
      var k: nat :| Parks(roles, before, atomic, kind, k) && NoneBetween(roles, before, atomic, k, |before|);
      ParksPrefix(roles, schedule, before, atomic, kind, k);
      NoneBetweenPrefix(roles, schedule, before, atomic, k, n);
      assert AppliedAt(roles, schedule, atomic, kind, k, n);
    }
  }

  lemma ReachedSnoc(roles: seq<Role>, schedule: seq<nat>, before: seq<nat>, atomic: bool, kind: Kind)
    requires Fits(schedule, roles) && IsFront(schedule, before)
    ensures Reached(roles, schedule, atomic, kind)
            <==> || Reached(roles, before, atomic, kind)
                 || UpdateMeetsRow(roles, schedule, atomic, kind, |before|)
                 || (StillParked(roles, before, atomic, kind)
                     && StatementAt(roles, schedule, atomic, |before|) == Apply)
  {
    SomeUpdateSnoc(roles, schedule, before, atomic, kind);
    SomeAppliedSnoc(roles, schedule, before, atomic, kind);
  }

  lemma SomeUpdateSnoc(roles: seq<Role>, schedule: seq<nat>, before: seq<nat>, atomic: bool, kind: Kind)
    requires Fits(schedule, roles) && IsFront(schedule, before)
    ensures SomeUpdateMeets(roles, schedule, atomic, kind)
            <==> SomeUpdateMeets(roles, before, atomic, kind) || UpdateMeetsRow(roles, schedule, atomic, kind, |before|)
  {
    if k: nat :| UpdateMeetsRow(roles, schedule, atomic, kind, k) {
      if k < |before| { UpdateMeetsPrefix(roles, schedule, before, atomic, kind, k); }
    }
    if k: nat :| UpdateMeetsRow(roles, before, atomic, kind, k) {
      UpdateMeetsPrefix(roles, schedule, before, atomic, kind, k);
    }
  }

  lemma SomeAppliedSnoc(roles: seq<Role>, schedule: seq<nat>, before: seq<nat>, atomic: bool, kind: Kind)
    requires Fits(schedule, roles) && IsFront(schedule, before)
    ensures SomeApplied(roles, schedule, atomic, kind)
            <==> || SomeApplied(roles, before, atomic, kind)
                 || (StillParked(roles, before, atomic, kind)
                     && StatementAt(roles, schedule, atomic, |before|) == Apply)
  {
    var n := |before|;
    AppliedLast(roles, schedule, before, atomic, kind);
    if SomeApplied(roles, schedule, atomic, kind) {
      var k: nat, d: nat :| AppliedAt(roles, schedule, atomic, kind, k, d);
      if d < n { AppliedAtPrefix(roles, schedule, before, atomic, kind, k, d); }
    }
    if SomeApplied(roles, before, atomic, kind) {
      var k: nat, d: nat :| AppliedAt(roles, before, atomic, kind, k, d);
      AppliedAtPrefix(roles, schedule, before, atomic, kind, k, d);
    }
  }

  // ----- the tables along a schedule -----

  predicate RightPc(t: Thread) {
    match t.role
    case Mark(_) => t.pc !in {InsertIt, Vouch, SweepIt}
    case Create => t.pc in {InsertIt, Vouch, Apply, Delete, Done}
    case Sweep => t.pc in {SweepIt, Done}
  }

  predicate RowNeeded(t: Thread) {
    t.pc in {RetryUpdate, Apply, Delete, Vouch} || (t.role == Create && t.pc == Done)
  }

  /** Every thread is at a statement of its call, and the row is there for those that come after it. */
  ghost predicate Placed(s: State, roles: seq<Role>) {
    && |s.threads| == |roles|
    && (forall i :: 0 <= i < |roles| ==> s.threads[i].role == roles[i] && RightPc(s.threads[i]))
    && (forall i :: 0 <= i < |roles| && RowNeeded(s.threads[i]) ==> s.cell.row.Some?)
  }

  /** Markers say `claimed` or nothing, and of the refund only what the kind itself says. */
  predicate Markers(cell: Cell, kind: Kind) {
    && (cell.parked.Some? ==> cell.parked.value.status in {None, Some(Claimed)})
    && (kind == RefundSeen ==>
          && (cell.parked.Some? ==> cell.parked.value.refund in {None, Some(Refunded)})
          && (cell.row.Some? ==> cell.row.value.refund != Cancelled))
    && (kind == CancelSeen ==>
          && (cell.parked.Some? ==> cell.parked.value.refund in {None, Some(Cancelled)})
          && (cell.row.Some? ==> cell.row.value.refund != Refunded))
  }

  /** What one statement does to the report of a kind. */
  predicate Followed(cell: Cell, t: Thread, kind: Kind, after: Cell) {
    && (Landed(after, kind) <==>
          || Landed(cell, kind)
          || (t.role == Mark(kind) && t.pc in {UpdateRow, RetryUpdate} && cell.row.Some?)
          || (t.pc == Apply && Live(cell, kind)))
    && (Landed(after, kind) ||
          (Live(after, kind) <==> (t.role == Mark(kind) && t.pc == ParkIt) || (Live(cell, kind) && t.pc !in {Apply, Delete})))
    && (after.row.Some? <==> cell.row.Some? || t.pc == InsertIt)
    && Markers(after, kind)
  }

  lemma UpdateFollows(cell: Cell, t: Thread, kind: Kind, atomic: bool)
    requires Markers(cell, kind) && t.role.Mark? && !Rivals(t.role.kind, kind) && t.pc in {UpdateRow, RetryUpdate}
    ensures Followed(cell, t, kind, Touch(cell, t, atomic))
  {
  }

  lemma ParkFollows(cell: Cell, t: Thread, kind: Kind, atomic: bool)
    requires Markers(cell, kind) && t.role.Mark? && !Rivals(t.role.kind, kind) && t.pc == ParkIt
    ensures Followed(cell, t, kind, Touch(cell, t, atomic))
  {
  }

  lemma ApplyFollows(cell: Cell, t: Thread, kind: Kind, atomic: bool)
    requires Markers(cell, kind) && cell.row.Some? && t.pc in {Apply, Delete}
    ensures Followed(cell, t, kind, Touch(cell, t, atomic))
  {
  }

  lemma QuietFollows(cell: Cell, t: Thread, kind: Kind, atomic: bool)
    requires Markers(cell, kind) && t.pc !in {UpdateRow, RetryUpdate, ParkIt, Apply, Delete}
    ensures Followed(cell, t, kind, Touch(cell, t, atomic))
  {
  }

  lemma StepFollows(s: State, roles: seq<Role>, i: nat, atomic: bool, kind: Kind)
    requires Placed(s, roles) && Markers(s.cell, kind) && NoRivals(roles, kind) && i < |roles|
    ensures Followed(s.cell, s.threads[i], kind, Step(s, i, atomic).cell)
  {
    var t := s.threads[i];
    assert RightPc(t) && (RowNeeded(t) ==> s.cell.row.Some?);
    assert roles[i].Mark? ==> !Rivals(roles[i].kind, kind);
    if t.pc in {UpdateRow, RetryUpdate} {
      UpdateFollows(s.cell, t, kind, atomic);
    } else if t.pc == ParkIt {
      ParkFollows(s.cell, t, kind, atomic);
    } else if t.pc in {Apply, Delete} {
      ApplyFollows(s.cell, t, kind, atomic);
    } else {
      QuietFollows(s.cell, t, kind, atomic);
    }
  }

  lemma StepKeepsPlaced(s: State, roles: seq<Role>, i: nat, atomic: bool)
    requires Placed(s, roles) && i < |roles|
    ensures Placed(Step(s, i, atomic), roles)
  {
    var r := Step(s, i, atomic);
    StepIsLocal(s, i, atomic);
    forall k | 0 <= k < |roles| ensures RightPc(r.threads[k]) && (RowNeeded(r.threads[k]) ==> r.cell.row.Some?) {
      assert k == i || r.threads[k] == s.threads[k];
    }
  }

  lemma StepIsLocal(s: State, i: nat, atomic: bool)
    requires i < |s.threads| && RightPc(s.threads[i])
    requires RowNeeded(s.threads[i]) ==> s.cell.row.Some?
    ensures var r := Step(s, i, atomic);
            && |r.threads| == |s.threads| && RightPc(r.threads[i]) && r.threads[i].role == s.threads[i].role
            && (s.cell.row.Some? ==> r.cell.row.Some?)
            && (RowNeeded(r.threads[i]) ==> r.cell.row.Some?)
            && forall k :: 0 <= k < |s.threads| && k != i ==> r.threads[k] == s.threads[k]
  {
  }

  /** The cell shows what the schedule has done. */
  predicate Shows(cell: Cell, kind: Kind, reached: bool, parked: bool, inserted: bool) {
    && Markers(cell, kind) && (Landed(cell, kind) <==> reached)
    && (reached || (Live(cell, kind) <==> parked)) && (cell.row.Some? <==> inserted)
  }

  ghost predicate Tracks(roles: seq<Role>, schedule: seq<nat>, atomic: bool, kind: Kind)
    requires Fits(schedule, roles)
  {
    var s := Play(roles, schedule, atomic);
    && Placed(s, roles)
    && Shows(s.cell, kind, Reached(roles, schedule, atomic, kind), StillParked(roles, schedule, atomic, kind),
             Inserted(roles, schedule, atomic))
  }

  lemma FollowedShows(cell: Cell, t: Thread, kind: Kind, after: Cell, reached: bool, parked: bool, inserted: bool,
                      reached': bool, parked': bool, inserted': bool)
    requires Shows(cell, kind, reached, parked, inserted) && Followed(cell, t, kind, after)
    requires reached' <==> reached || (t.role == Mark(kind) && t.pc in {UpdateRow, RetryUpdate} && inserted)
                           || (parked && t.pc == Apply)
    requires parked' <==> (t.role == Mark(kind) && t.pc == ParkIt) || (parked && t.pc !in {Apply, Delete})
    requires inserted' <==> inserted || t.pc == InsertIt
    ensures Shows(after, kind, reached', parked', inserted')
  {
  }

  lemma {:induction false} PlayTracks(roles: seq<Role>, schedule: seq<nat>, atomic: bool, kind: Kind)
    requires Fits(schedule, roles) && NoRivals(roles, kind)
    ensures Tracks(roles, schedule, atomic, kind)
  {
    if schedule == [] {
      assert !Reached(roles, schedule, atomic, kind);
    } else {
      var n := |schedule| - 1;
      var before, i := schedule[..n], schedule[n];
      var s := Play(roles, before, atomic);
      PlayTracks(roles, before, atomic, kind);
      StepKeepsPlaced(s, roles, i, atomic);
      StepFollows(s, roles, i, atomic, kind);
      InsertedSnoc(roles, schedule, before, atomic);
      UpdateMeetsLast(roles, schedule, before, atomic, kind);
      StillParkedSnoc(roles, schedule, before, atomic, kind);
      ReachedSnoc(roles, schedule, before, atomic, kind);
      FollowedShows(s.cell, s.threads[i], kind, Step(s, i, atomic).cell, Reached(roles, before, atomic, kind),
                    StillParked(roles, before, atomic, kind), Inserted(roles, before, atomic),
                    Reached(roles, schedule, atomic, kind), StillParked(roles, schedule, atomic, kind),
                    Inserted(roles, schedule, atomic));
    }
  }

  // ----- nothing is left waiting -----

  /** A thread that will still run an apply, given that the row exists. */
  predicate WillApply(t: Thread) {
    t.pc in {CheckAgain, Vouch, Apply}
  }

  /** A parked report beside a row that does not show it has a call that will still apply it. */
  ghost predicate WillBeApplied(s: State, kind: Kind) {
    s.cell.row.Some? && Live(s.cell, kind) && !Landed(s.cell, kind)
    ==> exists i :: 0 <= i < |s.threads| && WillApply(s.threads[i])
  }

  lemma StepKeepsWillBeApplied(s: State, roles: seq<Role>, i: nat, atomic: bool, kind: Kind)
    requires Placed(s, roles) && Markers(s.cell, kind) && NoRivals(roles, kind) && i < |roles|
    requires WillBeApplied(s, kind)
    ensures WillBeApplied(Step(s, i, atomic), kind)
  {
    var r := Step(s, i, atomic);
    StepFollows(s, roles, i, atomic, kind);
    if r.cell.row.Some? && Live(r.cell, kind) && !Landed(r.cell, kind) && !WillApply(r.threads[i]) {
      var k :| 0 <= k < |s.threads| && WillApply(s.threads[k]);
      assert k != i && r.threads[k] == s.threads[k];
    }
  }

  lemma {:induction false} PlayWillBeApplied(roles: seq<Role>, schedule: seq<nat>, atomic: bool, kind: Kind)
    requires Fits(schedule, roles) && NoRivals(roles, kind)
    ensures WillBeApplied(Play(roles, schedule, atomic), kind)
  {
    if schedule != [] {
      var n := |schedule| - 1;
      PlayTracks(roles, schedule[..n], atomic, kind);
      PlayWillBeApplied(roles, schedule[..n], atomic, kind);
      StepKeepsWillBeApplied(Play(roles, schedule[..n], atomic), roles, schedule[n], atomic, kind);
    }
  }

  /** Every parking is followed by an apply's first half, when every call is done and one of them creates the row. */
  lemma ParkingIsFollowed(roles: seq<Role>, schedule: seq<nat>, atomic: bool, kind: Kind, k: nat)
    returns (d: nat)
    requires Fits(schedule, roles) && NoRivals(roles, kind) && Create in roles
    requires AllDone(Play(roles, schedule, atomic)) && !Landed(Play(roles, schedule, atomic).cell, kind)
    requires Parks(roles, schedule, atomic, kind, k)
    ensures FirstHalfAfter(roles, schedule, atomic, k, d)
  {
    var s := Play(roles, schedule, atomic);
    PlayTracks(roles, schedule, atomic, kind);
    PlayWillBeApplied(roles, schedule, atomic, kind);
    var o :| 0 <= o < |roles| && roles[o] == Create;
    assert RowNeeded(s.threads[o]);
    assert !StillParked(roles, schedule, atomic, kind);
    d := FirstHalf(roles, schedule, atomic, k, |schedule|);
  }

  lemma {:induction false} FirstHalf(roles: seq<Role>, schedule: seq<nat>, atomic: bool, k: nat, n: nat)
    returns (d: nat)
    requires Fits(schedule, roles) && k < n <= |schedule| && !NoneBetween(roles, schedule, atomic, k, n)
    ensures FirstHalfAfter(roles, schedule, atomic, k, d)
    decreases n
  {
    if k < n - 1 && !NoneBetween(roles, schedule, atomic, k, n - 1) {
      d := FirstHalf(roles, schedule, atomic, k, n - 1);
    } else {
      d := n - 1;
    }
  }

  /** Step `k` parks a report that the first half of an apply issued after it deletes. */
  ghost predicate ParkedInVain(roles: seq<Role>, schedule: seq<nat>, atomic: bool, k: nat)
    requires Fits(schedule, roles)
  {
    exists d: nat :: FirstHalfAfter(roles, schedule, atomic, k, d) && StatementAt(roles, schedule, atomic, d) == Delete
  }

  // ----- one call along a schedule -----

  /** Call `i` has parked its report. */
  ghost predicate HasParked(roles: seq<Role>, schedule: seq<nat>, atomic: bool, kind: Kind, i: nat)
    requires Fits(schedule, roles)
  {
    exists k: nat :: Parks(roles, schedule, atomic, kind, k) && schedule[k] == i
  }

  /** An UPDATE of call `i` has met the row. */
  ghost predicate HasMet(roles: seq<Role>, schedule: seq<nat>, atomic: bool, kind: Kind, i: nat)
    requires Fits(schedule, roles)
  {
    exists k: nat :: UpdateMeetsRow(roles, schedule, atomic, kind, k) && schedule[k] == i
  }

  lemma HasParkedSnoc(roles: seq<Role>, schedule: seq<nat>, before: seq<nat>, atomic: bool, kind: Kind, i: nat)
    requires Fits(schedule, roles) && IsFront(schedule, before)
    ensures HasParked(roles, schedule, atomic, kind, i)
            <==> HasParked(roles, before, atomic, kind, i)
                 || (Parks(roles, schedule, atomic, kind, |before|) && schedule[|before|] == i)
  {
    if HasParked(roles, schedule, atomic, kind, i) {
      var k: nat :| Parks(roles, schedule, atomic, kind, k) && schedule[k] == i;
      if k < |before| { ParksPrefix(roles, schedule, before, atomic, kind, k); }
    }
    if HasParked(roles, before, atomic, kind, i) {
      var k: nat :| Parks(roles, before, atomic, kind, k) && before[k] == i;
      ParksPrefix(roles, schedule, before, atomic, kind, k);
    }
  }

  lemma HasMetSnoc(roles: seq<Role>, schedule: seq<nat>, before: seq<nat>, atomic: bool, kind: Kind, i: nat)
    requires Fits(schedule, roles) && IsFront(schedule, before)
    ensures HasMet(roles, schedule, atomic, kind, i)
            <==> HasMet(roles, before, atomic, kind, i)
                 || (UpdateMeetsRow(roles, schedule, atomic, kind, |before|) && schedule[|before|] == i)
  {
    if HasMet(roles, schedule, atomic, kind, i) {
      var k: nat :| UpdateMeetsRow(roles, schedule, atomic, kind, k) && schedule[k] == i;
      if k < |before| { UpdateMeetsPrefix(roles, schedule, before, atomic, kind, k); }
    }
    if HasMet(roles, before, atomic, kind, i) {
      var k: nat :| UpdateMeetsRow(roles, before, atomic, kind, k) && before[k] == i;
      UpdateMeetsPrefix(roles, schedule, before, atomic, kind, k);
    }
  }

  /** Where a reporting call stands tells whether it has parked or met the row; when it is done, exactly one of them. */
  predicate StandsAt(pc: Pc, parked: bool, met: bool) {
    match pc
    case Done => parked != met
    case CheckAgain => parked && !met
    case Apply => parked && !met
    case Delete => parked && !met
    case _ => !parked && !met
  }

  lemma StandsAfter(cell: Cell, t: Thread, atomic: bool, kind: Kind, parked: bool, met: bool, parked': bool, met': bool)
    requires t.role == Mark(kind) && RightPc(t) && Markers(cell, kind) && (RowNeeded(t) ==> cell.row.Some?)
    requires StandsAt(t.pc, parked, met)
    requires parked' <==> parked || t.pc == ParkIt
    requires met' <==> met || (t.pc in {UpdateRow, RetryUpdate} && cell.row.Some?)
    ensures StandsAt(NextPc(cell, t, atomic), parked', met')
  {
  }

  lemma {:induction false} CallStands(roles: seq<Role>, schedule: seq<nat>, atomic: bool, kind: Kind, i: nat)
    requires Fits(schedule, roles) && NoRivals(roles, kind) && i < |roles| && roles[i] == Mark(kind)
    ensures StandsAt(Play(roles, schedule, atomic).threads[i].pc, HasParked(roles, schedule, atomic, kind, i),
                     HasMet(roles, schedule, atomic, kind, i))
  {
    if schedule != [] {
      var n := |schedule| - 1;
      var before := schedule[..n];
      var s := Play(roles, before, atomic);
      CallStands(roles, before, atomic, kind, i);
      PlayTracks(roles, before, atomic, kind);
      HasParkedSnoc(roles, schedule, before, atomic, kind, i);
      HasMetSnoc(roles, schedule, before, atomic, kind, i);
      UpdateMeetsLast(roles, schedule, before, atomic, kind);
      if schedule[n] == i {
        StandsAfter(s.cell, s.threads[i], atomic, kind, HasParked(roles, before, atomic, kind, i),
                    HasMet(roles, before, atomic, kind, i), HasParked(roles, schedule, atomic, kind, i),
                    HasMet(roles, schedule, atomic, kind, i));
      }
    }
  }

  /**
   Any number of reports of one kind, racing any number of row-creating calls, sweeps
   and other reports (but not cancels against refunds, which write one column): when
   every call is done the row does not show the kind if and only if each of its
   reports was parked, and after each parking the first half of an apply that any
   call issued was a DELETE.
   */
  lemma ReportLostIff(roles: seq<Role>, schedule: seq<nat>, atomic: bool, kind: Kind)
    requires Fits(schedule, roles) && NoRivals(roles, kind)
    requires Create in roles && AllDone(Play(roles, schedule, atomic))
    ensures !Landed(Play(roles, schedule, atomic).cell, kind)
            <==> && (forall i: nat :: i < |roles| && roles[i] == Mark(kind) ==> HasParked(roles, schedule, atomic, kind, i))
                 && (forall k: nat :: Parks(roles, schedule, atomic, kind, k) ==> ParkedInVain(roles, schedule, atomic, k))
  {
    PlayTracks(roles, schedule, atomic, kind);
    forall i: nat | i < |roles| && roles[i] == Mark(kind)
      ensures HasParked(roles, schedule, atomic, kind, i) <==> !HasMet(roles, schedule, atomic, kind, i)
    {
      CallStands(roles, schedule, atomic, kind, i);
    }
    if !Landed(Play(roles, schedule, atomic).cell, kind) {
      LostIsInVain(roles, schedule, atomic, kind);
    } else {
      LandedIsNot(roles, schedule, atomic, kind);
    }
  }

  lemma LostIsInVain(roles: seq<Role>, schedule: seq<nat>, atomic: bool, kind: Kind)
    requires Fits(schedule, roles) && NoRivals(roles, kind) && Create in roles && AllDone(Play(roles, schedule, atomic))
    requires !Landed(Play(roles, schedule, atomic).cell, kind)
    ensures forall i: nat :: !HasMet(roles, schedule, atomic, kind, i)
    ensures forall k: nat :: Parks(roles, schedule, atomic, kind, k) ==> ParkedInVain(roles, schedule, atomic, k)
  {
    PlayTracks(roles, schedule, atomic, kind);
    assert !SomeUpdateMeets(roles, schedule, atomic, kind);
    forall k: nat | Parks(roles, schedule, atomic, kind, k) ensures ParkedInVain(roles, schedule, atomic, k) {
      var d := ParkingIsFollowed(roles, schedule, atomic, kind, k);
      assert !AppliedAt(roles, schedule, atomic, kind, k, d);
    }
  }

  lemma LandedIsNot(roles: seq<Role>, schedule: seq<nat>, atomic: bool, kind: Kind)
    requires Fits(schedule, roles) && NoRivals(roles, kind) && Landed(Play(roles, schedule, atomic).cell, kind)
    ensures || (exists i: nat :: i < |roles| && roles[i] == Mark(kind) && HasMet(roles, schedule, atomic, kind, i))
            || (exists k: nat :: Parks(roles, schedule, atomic, kind, k) && !ParkedInVain(roles, schedule, atomic, k))
  {
    PlayTracks(roles, schedule, atomic, kind);
    if SomeUpdateMeets(roles, schedule, atomic, kind) {
      var k: nat :| UpdateMeetsRow(roles, schedule, atomic, kind, k);
      assert HasMet(roles, schedule, atomic, kind, schedule[k]);
    } else {
      var k: nat, d: nat :| AppliedAt(roles, schedule, atomic, kind, k, d);
      OneFirstHalf(roles, schedule, atomic, k, d);
    }
  }

  lemma OneFirstHalf(roles: seq<Role>, schedule: seq<nat>, atomic: bool, k: nat, d: nat)
    requires Fits(schedule, roles) && FirstHalfAfter(roles, schedule, atomic, k, d)
    ensures forall e: nat :: FirstHalfAfter(roles, schedule, atomic, k, e) ==> e == d
  {
  }

  // ----- the apply as one step -----

  /** A report past its parking is on the row or in the park table. */
  ghost predicate Accounted(s: State, roles: seq<Role>, kind: Kind) {
    && |s.threads| == |roles|
    && (forall i :: 0 <= i < |roles| ==> s.threads[i].pc != Delete)
    && forall i :: 0 <= i < |roles| && roles[i] == Mark(kind) && s.threads[i].pc in {CheckAgain, Apply, Done}
         ==> Landed(s.cell, kind) || Live(s.cell, kind)
  }

  lemma {:induction false} AtomicAccounts(roles: seq<Role>, schedule: seq<nat>, kind: Kind)
    requires Fits(schedule, roles) && NoRivals(roles, kind)
    ensures Accounted(Play(roles, schedule, true), roles, kind)
  {
    if schedule != [] {
      var n := |schedule| - 1;
      AtomicAccounts(roles, schedule[..n], kind);
      PlayTracks(roles, schedule[..n], true, kind);
      AtomicStep(Play(roles, schedule[..n], true), roles, schedule[n], kind);
    }
  }

  lemma AtomicStep(s: State, roles: seq<Role>, i: nat, kind: Kind)
    requires Placed(s, roles) && Markers(s.cell, kind) && NoRivals(roles, kind) && i < |roles| && Accounted(s, roles, kind)
    ensures Accounted(Step(s, i, true), roles, kind)
  {
    var r := Step(s, i, true);
    StepFollows(s, roles, i, true, kind);
    assert RightPc(s.threads[i]) && (RowNeeded(s.threads[i]) ==> s.cell.row.Some?);
    assert forall k :: 0 <= k < |roles| && k != i ==> r.threads[k] == s.threads[k];
  }

  /** With the two halves of the apply in one step, no interleaving loses a kind of report. */
  lemma AtomicApplyLosesNothing(roles: seq<Role>, schedule: seq<nat>, kind: Kind)
    requires Fits(schedule, roles) && NoRivals(roles, kind)
    requires Mark(kind) in roles && Create in roles && AllDone(Play(roles, schedule, true))
    ensures Landed(Play(roles, schedule, true).cell, kind)
  {
    var s := Play(roles, schedule, true);
    AtomicAccounts(roles, schedule, kind);
    PlayTracks(roles, schedule, true, kind);
    PlayWillBeApplied(roles, schedule, true, kind);
    var m :| 0 <= m < |roles| && roles[m] == Mark(kind);
    var o :| 0 <= o < |roles| && roles[o] == Create;
    assert RowNeeded(s.threads[o]);
  }

  // ----- a call that runs alone -----

  /** `n` steps of a single thread. */
  function Alone(s: State, n: nat, atomic: bool): State
    requires |s.threads| == 1
    decreases n, s
  {
    if n == 0 then s else Alone(Step(s, 0, atomic), n - 1, atomic)
  }

  function Solo(cell: Cell, role: Role, pc: Pc): State {
    State(cell, [Thread(role, pc)])
  }

  lemma AloneStep(before: State, after: State, n: nat, atomic: bool)
    requires |before.threads| == 1 && Step(before, 0, atomic) == after && n > 0
    ensures |after.threads| == 1 && Alone(before, n, atomic) == Alone(after, n - 1, atomic)
  {
  }

  lemma {:induction false} DoneStays(s: State, n: nat, atomic: bool)
    requires |s.threads| == 1 && s.threads[0].pc == Done
    ensures Alone(s, n, atomic) == s
    decreases n
  {
    if n > 0 {
      assert Step(s, 0, atomic).threads == s.threads;
      DoneStays(s, n - 1, atomic);
    }
  }

  /**
   Without another call in between, the statements of a report are the whole call:
   five steps take any cell to what the call is specified to leave.
   */
  lemma ReportAloneIsTheCall(cell: Cell, kind: Kind, n: nat, atomic: bool)
    requires n >= 5
    ensures Alone(Solo(cell, Mark(kind), UpdateRow), n, atomic)
            == Solo(Call(cell, Reported(kind, TX, Park)), Mark(kind), Done)
  {
    var role, after := Mark(kind), Call(cell, Reported(kind, TX, Park));
    if Matches(cell, kind) {
      AloneStep(Solo(cell, role, UpdateRow), Solo(after, role, Done), n, atomic);
      DoneStays(Solo(after, role, Done), n - 1, atomic);
    } else if cell.row.Some? {
      AloneStep(Solo(cell, role, UpdateRow), Solo(cell, role, CheckRow), n, atomic);
      AloneStep(Solo(cell, role, CheckRow), Solo(cell, role, RetryUpdate), n - 1, atomic);
      AloneStep(Solo(cell, role, RetryUpdate), Solo(after, role, Done), n - 2, atomic);
      DoneStays(Solo(after, role, Done), n - 3, atomic);
    } else {
      AloneStep(Solo(cell, role, UpdateRow), Solo(cell, role, CheckRow), n, atomic);
      AloneStep(Solo(cell, role, CheckRow), Solo(cell, role, ParkIt), n - 1, atomic);
      AloneStep(Solo(cell, role, ParkIt), Solo(after, role, CheckAgain), n - 2, atomic);
      AloneStep(Solo(after, role, CheckAgain), Solo(after, role, Done), n - 3, atomic);
      DoneStays(Solo(after, role, Done), n - 4, atomic);
    }
  }

  /** So are those of a row-creating call, whether or not its apply is one step. */
  lemma CreateAloneIsTheCall(cell: Cell, n: nat, atomic: bool)
    requires n >= 4
    ensures Alone(Solo(cell, Create, InsertIt), n, atomic) == Solo(Call(cell, RowSeen), Create, Done)
  {
    var row, after := InsertRow(cell), Call(cell, RowSeen);
    AloneStep(Solo(cell, Create, InsertIt), Solo(row, Create, Vouch), n, atomic);
    AloneStep(Solo(row, Create, Vouch), Solo(row, Create, Apply), n - 1, atomic);
    if atomic {
      AloneStep(Solo(row, Create, Apply), Solo(after, Create, Done), n - 2, atomic);
      DoneStays(Solo(after, Create, Done), n - 3, atomic);
    } else {
      AloneStep(Solo(row, Create, Apply), Solo(ApplyMarker(row), Create, Delete), n - 2, atomic);
      AloneStep(Solo(ApplyMarker(row), Create, Delete), Solo(after, Create, Done), n - 3, atomic);
      DoneStays(Solo(after, Create, Done), n - 4, atomic);
    }
  }

  // ----- schedules that go wrong -----

  ghost predicate At(roles: seq<Role>, schedule: seq<nat>, s: State) {
    Fits(schedule, roles) && Play(roles, schedule, false) == s
  }

  /** One more step of call `i`. */
  lemma Next(roles: seq<Role>, schedule: seq<nat>, s: State, i: nat, after: State)
    requires At(roles, schedule, s) && i < |roles| && |after.threads| == |roles|
    requires Step(s, i, false).cell == after.cell && Step(s, i, false).threads[i] == after.threads[i]
    requires forall k :: 0 <= k < |roles| && k != i ==> after.threads[k] == s.threads[k]
    ensures At(roles, schedule + [i], after)
  {
    assert (schedule + [i])[..|schedule|] == schedule;
    assert Step(s, i, false) == after;
  }

  function Two(cell: Cell, a: Thread, b: Thread): State {
    State(cell, [a, b])
  }

  /** The marker is parked between another call's UPDATE and its DELETE: the claim is lost. */
  lemma SplitApplyLosesClaim() returns (schedule: seq<nat>)
    ensures var roles := [Mark(ClaimSeen), Create];
            && Fits(schedule, roles) && AllDone(Play(roles, schedule, false))
            && Play(roles, schedule, false).cell == Cell(Some(FRESH_ROW), None)
  {
    var roles, row := [Mark(ClaimSeen), Create], Cell(Some(FRESH_ROW), None);
    var parked := ParkMarker(row, MarkerFor(ClaimSeen, TX));
    var m := (pc: Pc) => Thread(Mark(ClaimSeen), pc);
    var c := (pc: Pc) => Thread(Create, pc);
    schedule := [];
    assert Start(roles) == Two(ABSENT, m(UpdateRow), c(InsertIt));
    Next(roles, schedule, Two(ABSENT, m(UpdateRow), c(InsertIt)), 0, Two(ABSENT, m(CheckRow), c(InsertIt)));
    schedule := schedule + [0];
    Next(roles, schedule, Two(ABSENT, m(CheckRow), c(InsertIt)), 0, Two(ABSENT, m(ParkIt), c(InsertIt)));
    schedule := schedule + [0];
    Next(roles, schedule, Two(ABSENT, m(ParkIt), c(InsertIt)), 1, Two(row, m(ParkIt), c(Vouch)));
    schedule := schedule + [1];
    Next(roles, schedule, Two(row, m(ParkIt), c(Vouch)), 1, Two(row, m(ParkIt), c(Apply)));
    schedule := schedule + [1];
    Next(roles, schedule, Two(row, m(ParkIt), c(Apply)), 1, Two(row, m(ParkIt), c(Delete)));
    schedule := schedule + [1];
    schedule := SplitApplyEnds(roles, schedule, row, parked);
  }

  lemma SplitApplyEnds(roles: seq<Role>, begun: seq<nat>, row: Cell, parked: Cell) returns (schedule: seq<nat>)
    requires roles == [Mark(ClaimSeen), Create] && row == Cell(Some(FRESH_ROW), None)
    requires parked == ParkMarker(row, MarkerFor(ClaimSeen, TX))
    requires At(roles, begun, Two(row, Thread(Mark(ClaimSeen), ParkIt), Thread(Create, Delete)))
    ensures At(roles, schedule, Two(row, Thread(Mark(ClaimSeen), Done), Thread(Create, Done)))
  {
    var m := (pc: Pc) => Thread(Mark(ClaimSeen), pc);
    var c := (pc: Pc) => Thread(Create, pc);
    schedule := begun;
    Next(roles, schedule, Two(row, m(ParkIt), c(Delete)), 0, Two(parked, m(CheckAgain), c(Delete)));
    schedule := schedule + [0];
    Next(roles, schedule, Two(parked, m(CheckAgain), c(Delete)), 1, Two(row, m(CheckAgain), c(Done)));
    schedule := schedule + [1];
    Next(roles, schedule, Two(row, m(CheckAgain), c(Done)), 0, Two(row, m(Apply), c(Done)));
    schedule := schedule + [0];
    Next(roles, schedule, Two(row, m(Apply), c(Done)), 0, Two(row, m(Delete), c(Done)));
    schedule := schedule + [0];
    Next(roles, schedule, Two(row, m(Delete), c(Done)), 0, Two(row, m(Done), c(Done)));
    schedule := schedule + [0];
  }

  function Three(cell: Cell, a: Thread, b: Thread, c: Thread): State {
    State(cell, [a, b, c])
  }

  /** Call 0 finds no row. */
  lemma FindsNoRow(roles: seq<Role>, kind: Kind, w: Thread) returns (schedule: seq<nat>)
    requires roles == [Mark(kind), Create, w.role] && w.pc == First(w.role)
    ensures At(roles, schedule, Three(ABSENT, Thread(Mark(kind), ParkIt), Thread(Create, InsertIt), w))
  {
    var c := Thread(Create, InsertIt);
    var update, check, park := Thread(Mark(kind), UpdateRow), Thread(Mark(kind), CheckRow), Thread(Mark(kind), ParkIt);
    schedule := [];
    assert Start(roles).threads == [update, c, w];
    assert At(roles, schedule, Three(ABSENT, update, c, w));
    Next(roles, schedule, Three(ABSENT, update, c, w), 0, Three(ABSENT, check, c, w));
    schedule := schedule + [0];
    Next(roles, schedule, Three(ABSENT, check, c, w), 0, Three(ABSENT, park, c, w));
    schedule := schedule + [0];
  }

  /** Call 0 parks its report, then call 1 inserts the row. */
  lemma ParkThenInsert(roles: seq<Role>, kind: Kind, w: Thread, parked: Cell) returns (schedule: seq<nat>)
    requires roles == [Mark(kind), Create, w.role] && w.pc == First(w.role)
    requires parked == ParkMarker(ABSENT, MarkerFor(kind, TX))
    ensures At(roles, schedule,
               Three(InsertRow(parked), Thread(Mark(kind), CheckAgain), Thread(Create, Vouch), w))
  {
    var c, again := Thread(Create, InsertIt), Thread(Mark(kind), CheckAgain);
    schedule := FindsNoRow(roles, kind, w);
    Next(roles, schedule, Three(ABSENT, Thread(Mark(kind), ParkIt), c, w), 0, Three(parked, again, c, w));
    schedule := schedule + [0];
    Next(roles, schedule, Three(parked, again, c, w), 1, Three(InsertRow(parked), again, Thread(Create, Vouch), w));
    schedule := schedule + [1];
  }

  /** Call 0 parks its report, call 1 inserts the row, call 2 runs to its end, call 1 applies. */
  lemma ThirdInBetween(kind: Kind, third: Role, middle: Cell) returns (schedule: seq<nat>)
    requires var row := InsertRow(ParkMarker(ABSENT, MarkerFor(kind, TX)));
             || (third == Sweep && middle == SweepRow(row))
             || (third.Mark? && Matches(row, third.kind) && middle == Update(row, third.kind, TX))
    ensures var roles := [Mark(kind), Create, third];
            && Fits(schedule, roles) && AllDone(Play(roles, schedule, false))
            && Play(roles, schedule, false).cell == DropMarker(ApplyMarker(middle))
  {
    var roles, w := [Mark(kind), Create, third], Thread(third, First(third));
    var row := InsertRow(ParkMarker(ABSENT, MarkerFor(kind, TX)));
    var m, c := Thread(Mark(kind), CheckAgain), Thread(Create, Vouch);
    schedule := ParkThenInsert(roles, kind, w, ParkMarker(ABSENT, MarkerFor(kind, TX)));
    Next(roles, schedule, Three(row, m, c, w), 2, Three(middle, m, c, Thread(third, Done)));
    schedule := ApplyEnds(roles, schedule + [2], middle, Mark(kind), third);
  }

  lemma ApplyEnds(roles: seq<Role>, begun: seq<nat>, middle: Cell, first: Role, third: Role) returns (schedule: seq<nat>)
    requires roles == [first, Create, third] && middle.row.Some?
    requires At(roles, begun, Three(middle, Thread(first, CheckAgain), Thread(Create, Vouch), Thread(third, Done)))
    ensures At(roles, schedule,
               Three(DropMarker(ApplyMarker(middle)), Thread(first, Done), Thread(Create, Done), Thread(third, Done)))
  {
    var m := (pc: Pc) => Thread(first, pc);
    var c := (pc: Pc) => Thread(Create, pc);
    var w, taken, last := Thread(third, Done), ApplyMarker(middle), DropMarker(ApplyMarker(middle));
    schedule := begun;
    Next(roles, schedule, Three(middle, m(CheckAgain), c(Vouch), w), 1, Three(middle, m(CheckAgain), c(Apply), w));
    schedule := schedule + [1];
    Next(roles, schedule, Three(middle, m(CheckAgain), c(Apply), w), 1, Three(taken, m(CheckAgain), c(Delete), w));
    schedule := schedule + [1];
    Next(roles, schedule, Three(taken, m(CheckAgain), c(Delete), w), 1, Three(last, m(CheckAgain), c(Done), w));
    schedule := schedule + [1];
    Next(roles, schedule, Three(last, m(CheckAgain), c(Done), w), 0, Three(last, m(Apply), c(Done), w));
    schedule := schedule + [0];
    Next(roles, schedule, Three(last, m(Apply), c(Done), w), 0, Three(last, m(Delete), c(Done), w));
    schedule := schedule + [0];
    Next(roles, schedule, Three(last, m(Delete), c(Done), w), 0, Three(last, m(Done), c(Done), w));
    schedule := schedule + [0];
  }

  /**
   A sweep between the insert and the apply: the claim lands, but through the marker,
   which does not clear `eligible`. No run of whole calls ends so.
   */
  lemma AppliedClaimStaysEligible() returns (schedule: seq<nat>)
    ensures var roles := [Mark(ClaimSeen), Create, Sweep];
            && Fits(schedule, roles) && AllDone(Play(roles, schedule, false))
            && Play(roles, schedule, false).cell == Cell(Some(Row(Claimed, Eligible, Some(TX), None, None)), None)
  {
    schedule := ThirdInBetween(ClaimSeen, Sweep, SweepRow(InsertRow(ParkMarker(ABSENT, MarkerFor(ClaimSeen, TX)))));
  }

  /** A cancel parked before the row and applied after a refund has settled it: the row goes back to `cancelled`. */
  lemma LateApplyUndoesRefund() returns (schedule: seq<nat>)
    ensures var roles := [Mark(CancelSeen), Create, Mark(RefundSeen)];
            && Fits(schedule, roles) && AllDone(Play(roles, schedule, false))
            && Play(roles, schedule, false).cell == Cell(Some(Row(Signed, Cancelled, None, Some(TX), Some(TX))), None)
  {
    var row := InsertRow(ParkMarker(ABSENT, MarkerFor(CancelSeen, TX)));
    schedule := ThirdInBetween(CancelSeen, Mark(RefundSeen), Update(row, RefundSeen, TX));
  }
}
