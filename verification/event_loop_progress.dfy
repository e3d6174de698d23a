/** When a worker of the event loop can leave after `stop`: how much work is left, which due timers
    keep it, which callbacks are left behind, and runs that show it. */
module EventLoopProgress {
  import opened Wrappers
  import opened TaskQueue
  import opened Timers
  import opened EventLoop
  import opened EventLoopLaws

  // ---------------------------------------------------------------- work

  /** Twice the waiting callbacks plus the running ones. */
  ghost function Work(s: State): nat {
    2 * |BooksOf(s).pending| + |BooksOf(s).inHand|
  }

  ghost predicate Enqueues(a: Action) {
    a.Enqueue? || a.BatchEnqueue? || a.UserBatch?
  }

  /** Whether an action is a completion or a claim that finds a callback. */
  ghost predicate Works(s: State, a: Action) {
    a.Complete? || (a.Claim? && Pending(s.slots) != multiset{})
  }

  ghost function WorkDone(s: State, acts: seq<Action>): nat
    decreases |acts|
  {
    if acts == [] || !Enabled(s, acts[0]) then 0
    else (if Works(s, acts[0]) then 1 else 0) + WorkDone(Step(s, acts[0]), acts[1..])
  }

  lemma StepWork(s: State, a: Action)
    requires Enabled(s, a) && !Enqueues(a)
    ensures Work(s) == Work(Step(s, a)) + (if Works(s, a) then 1 else 0)
  {
    hide BooksOf, Pending, Sum, Take, ClaimedBy, FirstBusy, Insert, Drained, DueCount, Rewritten, Live, Nulls, Fill, Put;
    match a
    case Drain(w, read) => DrainMoves(s, w, read);
    case Rewrite(w, read) => RewriteMoves(s, w, read);
    case Restore(w) => RestoreMoves(s, w);
    case Claim(w) => ClaimWork(s, w);
    case Complete(w) => CompleteMoves(s, w);
    case AddTimer(_, _, _, _, _) => UserWork(s, a);
    case Cancel(_) => UserWork(s, a);
    case Refresh(_, _) => UserWork(s, a);
    case ResetGap(_, _, _, _) => UserWork(s, a);
    case Reset(_) => UserWork(s, a);
    case _ => QuietBooks(s, a);
  }

  lemma UserWork(s: State, a: Action)
    requires Enabled(s, a) && (a.AddTimer? || a.Cancel? || a.Refresh? || a.ResetGap? || a.Reset?)
    ensures BooksOf(Step(s, a)).pending == BooksOf(s).pending && BooksOf(Step(s, a)).inHand == BooksOf(s).inHand
  {
    hide Cancelled, Refreshed, Regapped, Disarmed, Added, Sum, Pending;
  }

  lemma ClaimWork(s: State, w: nat)
    requires w < |s.workers| && s.workers[w].Top?
    ensures Work(s) == Work(ClaimedIn(s, w)) + (if Pending(s.slots) != multiset{} then 1 else 0)
  {
    hide Sum, Pending, Take;
    ClaimMoves(s, w);
    TakeRemovesOne(s.slots);
  }

  lemma WorkOfTasks(s: State)
    requires Inv(s)
    ensures Work(s) <= 2 * s.taskNumber
  {
  }

  lemma {:induction false} WorkUsed(s: State, acts: seq<Action>, s': State)
    requires Run(s, acts, s') && forall i | 0 <= i < |acts| :: !Enqueues(acts[i])
    ensures Work(s) == Work(s') + WorkDone(s, acts)
    decreases |acts|
  {
    hide Work, Works, Enabled, Step;
    if acts != [] {
      StepWork(s, acts[0]);
      WorkUsed(Step(s, acts[0]), acts[1..], s');
    }
  }

  /** Once enqueues cease, the claims and completions of any run use up the work exactly,
      so there are at most twice `task_number` of them. */
  lemma WorkIsBounded(s: State, acts: seq<Action>, s': State)
    requires Reachable(s) && Run(s, acts, s') && forall i | 0 <= i < |acts| :: !Enqueues(acts[i])
    ensures Work(s) == Work(s') + WorkDone(s, acts)
    ensures WorkDone(s, acts) <= 2 * s.taskNumber
  {
    hide Work, Reachable;
    ReachableInv(s);
    WorkOfTasks(s);
    WorkUsed(s, acts, s');
  }

  // ---------------------------------------------------------------- a way out

  /** Some stored deadline is not later than `d`. */
  ghost predicate DueAt(ts: TimerSet<Job, Job>, d: u64) {
    exists t :: t in multiset(ts.order) && t in ts.recs && ts.recs[t].next <= d
  }

  /** Whether worker `w`, before it can leave, has to go through a pass of `idle`: after what it is
      doing now and the claim that may follow, a callback still waits. */
  ghost predicate MustPoll(s: State, w: nat)
    requires w < |s.workers|
  {
    match s.workers[w]
    case Top => |Pending(s.slots)| > 1
    case Idle(_, _, _) => |Pending(s.slots)| > 1
    case Running(_) => |Pending(s.slots)| > 0
    case Foot => |Pending(s.slots)| > 0
    case Wake => |Pending(s.slots)| > 0
    case Polling(_) => true
    case Exited => false
  }

  /** A live worker with no timers or callbacks in its hands, after `stop`, with no null callback
      about. */
  ghost predicate HandsFree(s: State, w: nat) {
    s.stopping && s.nulls == 0 && w < |s.workers| && (s.workers[w].Idle? ==> s.workers[w] == DONE)
  }

  ghost predicate CanWork(s: State, w: nat) {
    HandsFree(s, w) && (s.workers[w].Polling? ==> s.workers[w].since <= s.now)
  }

  lemma FreeCanWork(s: State, w: nat)
    requires Reachable(s) && HandsFree(s, w)
    ensures CanWork(s, w)
  {
    hide Reachable;
    ReachableClocked(s);
  }

  /** Nothing is due that the worker will have to look at. One that is already in a pass can still
      use the time at which it entered it, and needs to look again only if more than one callback
      waits. */
  ghost predicate Clear(s: State, w: nat)
    requires w < |s.workers|
  {
    if s.workers[w].Polling? then
      !DueAt(s.timers, s.workers[w].since) && (!DueAt(s.timers, s.now) || |Pending(s.slots)| <= 1)
    else !DueAt(s.timers, s.now) || !MustPoll(s, w)
  }

  /** How far worker `w` is from its next claim, or from its exit when no work is left. */
  ghost function Rank(s: State, w: nat): nat
    requires w < |s.workers|
  {
    match s.workers[w]
    case Top => if s.taskNumber > 0 then 0 else 2
    case Running(_) => 6
    case Foot => if s.taskNumber > 0 then 4 else 1
    case Wake => 3
    case Polling(_) => if s.taskNumber > 0 then 2 else 4
    case Idle(_, _, _) => if s.taskNumber > 0 then 1 else 3
    case Exited => 0
  }

  /** An action of the loop's own that enqueues nothing. */
  ghost predicate Own(a: Action) {
    a.Claim? || a.Complete? || a.ExitTest? || a.WakeTest? || a.Drain? || a.Yield?
  }

  ghost predicate Useful(s: State, a: Action, w: nat)
    requires w < |s.workers|
  {
    && Enabled(s, a) && Own(a) && CanWork(Step(s, a), w) && Clear(Step(s, a), w)
    && 8 * Work(Step(s, a)) + Rank(Step(s, a), w) < 8 * Work(s) + Rank(s, w)
  }

  lemma UsefulComplete(s: State, v: nat, w: nat)
    requires Known(s.timers) && CanWork(s, w) && Clear(s, w) && v < |s.workers| && s.workers[v].Running?
    ensures Useful(s, Complete(v), w)
  {
    hide Work, Pending, Sum, DueAt;
    StepWork(s, Complete(v));
  }

  lemma NobodyRuns(s: State)
    requires Inv(s) && s.nulls == 0 && forall v | 0 <= v < |s.workers| :: !s.workers[v].Running?
    ensures Work(s) == 2 * s.taskNumber && |Pending(s.slots)| == s.taskNumber
  {
    hide TimersGood, Conserved;
    SumEmpty(s.workers, RunOf);
  }

  lemma ClaimTakesOne(s: State, w: nat)
    requires w < |s.workers| && s.workers[w].Top?
    ensures var s' := ClaimedIn(s, w); var p, p' := |Pending(s.slots)|, |Pending(s'.slots)|;
            && (p > 0 ==> s'.workers[w].Running? && p' == p - 1 && Pending(s.slots) != multiset{})
            && (p == 0 ==> s'.workers[w].Foot? && p' == 0)
  {
    hide Sum, Pending, Take, FirstBusy;
    ClaimMoves(s, w);
    TakeRemovesOne(s.slots);
  }

  lemma UsefulClaim(s: State, w: nat)
    requires Known(s.timers) && CanWork(s, w) && Clear(s, w) && s.workers[w].Top? && |Pending(s.slots)| == s.taskNumber
    ensures Useful(s, Claim(w), w)
  {
    hide Work, Pending, Take, Sum, FirstBusy, DueAt;
    StepWork(s, Claim(w));
    ClaimTakesOne(s, w);
  }

  lemma UsefulTests(s: State, w: nat)
    requires Known(s.timers) && CanWork(s, w) && Clear(s, w) && |Pending(s.slots)| == s.taskNumber
    ensures s.workers[w].Foot? ==> Useful(s, ExitTest(w), w)
    ensures s.workers[w].Wake? ==> Useful(s, WakeTest(w), w)
    ensures s.workers[w].Idle? ==> Useful(s, Yield(w), w)
  {
    hide Work, Pending, Sum, DueAt;
    if s.workers[w].Foot? {
      StepWork(s, ExitTest(w));
    } else if s.workers[w].Wake? {
      StepWork(s, WakeTest(w));
    } else if s.workers[w].Idle? {
      StepWork(s, Yield(w));
    }
  }

  lemma NothingDrained(ts: TimerSet<Job, Job>, d: u64)
    requires Timers.Valid(ts) && !DueAt(ts, d)
    ensures DueCount(ts, d) == 0 && Drained(ts, d) == ts
  {
    if ts.order != [] {
      assert ts.order[0] in multiset(ts.order);
    }
  }

  lemma UsefulDrain(s: State, w: nat)
    requires Timers.Valid(s.timers) && CanWork(s, w) && Clear(s, w) && s.workers[w].Polling?
    ensures Useful(s, Drain(w, s.workers[w].since), w)
  {
    hide Work, Pending, Sum, DueAt, Increasing, Deadlines, Drained, DueCount;
    NothingDrained(s.timers, s.workers[w].since);
    StepWork(s, Drain(w, s.workers[w].since));
  }

  /** Complete a running callback if there is one, otherwise move worker `w` on. */
  lemma NextUseful(s: State, w: nat) returns (a: Action)
    requires Inv(s) && CanWork(s, w) && Clear(s, w) && !s.workers[w].Exited?
    ensures Useful(s, a, w)
  {
    hide Useful, CanWork, Clear;
    SetIsValid(s);
    MayMove(s, w);
    if v :| 0 <= v < |s.workers| && s.workers[v].Running? {
      a := Complete(v);
      UsefulComplete(s, v, w);
    } else {
      NobodyRuns(s);
      UsefulTests(s, w);
      match s.workers[w] {
        case Top =>
          a := Claim(w);
          UsefulClaim(s, w);
        case Foot => a := ExitTest(w);
        case Wake => a := WakeTest(w);
        case Idle(_, _, _) => a := Yield(w);
        case Polling(_) =>
          a := Drain(w, s.workers[w].since);
          UsefulDrain(s, w);
      }
    }
  }

  lemma MayMove(s: State, w: nat)
    requires CanWork(s, w)
    ensures w < |s.workers| && s.nulls == 0
  {
  }

  /** A run in which no callback is enqueued and no user touches a timer. */
  ghost predicate QuietRun(s: State, acts: seq<Action>, s': State) {
    Run(s, acts, s') && forall i | 0 <= i < |acts| :: Own(acts[i])
  }

  lemma QuietCons(s: State, a: Action, rest: seq<Action>, s': State)
    requires Enabled(s, a) && Own(a) && QuietRun(Step(s, a), rest, s')
    ensures QuietRun(s, [a] + rest, s')
  {
    assert ([a] + rest)[1..] == rest;
  }

  lemma {:induction false} FinishRun(s: State, w: nat) returns (acts: seq<Action>, s': State)
    requires Inv(s) && CanWork(s, w) && Clear(s, w) && !s.workers[w].Exited?
    ensures QuietRun(s, acts, s') && |acts| <= 8 * Work(s) + Rank(s, w)
    ensures w < |s'.workers| && s'.workers[w].Exited? && s'.taskNumber == 0 && Work(s') == 0
    decreases 8 * Work(s) + Rank(s, w)
  {
    hide Work, Rank, CanWork, Clear, Enabled, Step, QuietRun, Inv;
    MayMove(s, w);
    var a := NextUseful(s, w);
    var next := Step(s, a);
    StepKeepsInv(s, a);
    NullsGrow(s, a);
    MayMove(next, w);
    var rest;
    if next.workers[w].Exited? {
      ExitedIsDone(s, a, w);
      NoMore(next);
      rest, s' := [], next;
    } else {
      rest, s' := FinishRun(next, w);
    }
    QuietCons(s, a, rest, s');
    acts := [a] + rest;
  }

  lemma NoMore(s: State)
    ensures QuietRun(s, [], s)
  {
  }

  lemma ExitedIsDone(s: State, a: Action, w: nat)
    requires Enabled(s, a) && Own(a) && w < |s.workers| && |Step(s, a).workers| == |s.workers| && Inv(Step(s, a))
    requires !s.workers[w].Exited? && Step(s, a).workers[w].Exited?
    ensures Step(s, a).taskNumber == 0 && Work(Step(s, a)) == 0
  {
    hide Work, Inv;
    LeavingIsATest(s, a, w);
    WorkOfTasks(Step(s, a));
  }

  /** After `stop`, from every reachable state without null callbacks, a live worker with nothing in
      its hands can bring all work to its end and leave, by actions of the loop alone, with no
      enqueue and in a number of actions bounded by `task_number`, if no timer is due that it will have
      to look at. The claims and completions among them are exactly those the waiting and running
      callbacks need. */
  lemma CanFinish(s: State, w: nat) returns (acts: seq<Action>, s': State)
    requires Reachable(s) && HandsFree(s, w) && !s.workers[w].Exited? && Clear(s, w)
    ensures QuietRun(s, acts, s') && |acts| <= 16 * s.taskNumber + 6 && WorkDone(s, acts) == Work(s)
    ensures w < |s'.workers| && s'.workers[w].Exited? && s'.taskNumber == 0
  {
    hide Work, CanWork, Clear, Reachable, Rank, Inv, WorkDone;
    FreeCanWork(s, w);
    ReachableInv(s);
    RankIsSmall(s, w);
    acts, s' := FinishRun(s, w);
    OwnEnqueuesNothing(acts);
    WorkUsed(s, acts, s');
    WorkOfTasks(s);
  }

  lemma RankIsSmall(s: State, w: nat)
    requires CanWork(s, w)
    ensures Rank(s, w) <= 6
  {
  }

  lemma OwnEnqueuesNothing(acts: seq<Action>)
    requires forall i | 0 <= i < |acts| :: Own(acts[i])
    ensures forall i | 0 <= i < |acts| :: !Enqueues(acts[i])
  {
  }

  // ---------------------------------------------------------------- no way out

  /** Worker `w` is the only one left. */
  ghost predicate Alone(s: State, w: nat) {
    w < |s.workers| && forall v | 0 <= v < |s.workers| && v != w :: s.workers[v].Exited?
  }

  /** Nobody enqueues and nobody takes a timer away; adding timers is allowed. */
  ghost predicate Unhelped(a: Action) {
    !Enqueues(a) && !a.Cancel? && !a.Refresh? && !a.ResetGap? && !a.Reset?
  }

  /** The worker has drained something, or it will. */
  ghost predicate Stuck(s: State, w: nat)
    requires w < |s.workers|
  {
    if s.workers[w].Idle? && s.workers[w] != DONE then s.workers[w].temp != [] || s.workers[w].obs != []
    else !Clear(s, w)
  }

  lemma DueStays(ts: TimerSet<Job, Job>, r: TimerSet<Job, Job>, d: u64, d': u64)
    requires DueAt(ts, d) && d <= d' && multiset(ts.order) <= multiset(r.order)
    requires forall t | t in ts.recs && t in ts.order :: t in r.recs && r.recs[t].next == ts.recs[t].next
    ensures DueAt(r, d')
  {
    var t :| t in multiset(ts.order) && t in ts.recs && ts.recs[t].next <= d;
    assert t in multiset(r.order) && t in ts.order;
  }

  lemma DrainFindsIt(ts: TimerSet<Job, Job>, d: u64, read: u64)
    requires Timers.Valid(ts) && DueAt(ts, d) && d <= read
    ensures ts.order[..DueCount(ts, read)] != []
  {
    var t :| t in multiset(ts.order) && t in ts.recs && ts.recs[t].next <= d;
    assert t in ts.order;
    var i :| 0 <= i < |ts.order| && ts.order[i] == t;
    var keys := Deadlines(ts);
    assert keys[i] <= read;
    assert keys[0] <= keys[i];
  }

  lemma PendingMeansTasks(s: State)
    requires Inv(s)
    ensures |Pending(s.slots)| <= s.taskNumber
  {
  }

  lemma AddedKeepsOld(ts: TimerSet<Job, Job>, t: Job, live: bool, gap: u64, recurring: bool, read: u64)
    requires Timers.Valid(ts) && t !in ts.recs
    ensures var r := Added(ts, t, gap, if live then Some(t) else None, recurring, read);
            && multiset(ts.order) <= multiset(r.order)
            && forall x | x in ts.recs :: x in r.recs && r.recs[x] == ts.recs[x]
  {
    AddedKeepsValid(ts, t, gap, if live then Some(t) else None, recurring, read);
  }

  lemma StuckClaim(s: State, w: nat)
    requires w < |s.workers| && s.workers[w].Top? && Stuck(s, w)
    ensures w < |ClaimedIn(s, w).workers| && Stuck(ClaimedIn(s, w), w) && !ClaimedIn(s, w).workers[w].Exited?
  {
    hide Pending, Sum, DueAt, Take, FirstBusy;
    ClaimTakesOne(s, w);
  }

  lemma StuckDrain(s: State, w: nat, read: u64)
    requires Timers.Valid(s.timers) && Polls(s, w) && Stuck(s, w) && s.workers[w].since <= read <= s.now
    ensures w < |DrainedBy(s, w, read).workers| && Stuck(DrainedBy(s, w, read), w)
  {
    hide Pending, DueCount, Drained, DueAt, Increasing, Deadlines;
    if DueAt(s.timers, s.workers[w].since) {
      DrainFindsIt(s.timers, s.workers[w].since, read);
    } else if DueAt(s.timers, read) {
      DrainFindsIt(s.timers, read, read);
    } else {
      NothingDrained(s.timers, read);
    }
  }

  lemma StuckTests(s: State, a: Action, w: nat)
    requires Inv(s) && w < |s.workers| && Stuck(s, w) && Enabled(s, a)
    requires a == Complete(w) || a == ExitTest(w) || a == WakeTest(w) || a == Yield(w)
    ensures w < |Step(s, a).workers| && !Step(s, a).workers[w].Exited? && Stuck(Step(s, a), w)
  {
    hide Pending, Sum, DueAt, Inv;
    PendingMeansTasks(s);
  }

  lemma DueOutside(s: State, a: Action, d: u64, d': u64)
    requires Inv(s) && Enabled(s, a) && (a.Tick? || a.AddTimer? || a.CheckStopping? || a.Stop?)
    requires DueAt(s.timers, d) && d <= d'
    ensures DueAt(Step(s, a).timers, d')
  {
    hide Pending, Sum, Inv, Added, DueAt;
    SetIsValid(s);
    if a.AddTimer? {
      AddedKeepsOld(s.timers, Fire(a.timer), a.live, a.gap, a.recurring, a.read);
    }
    DueStays(s.timers, Step(s, a).timers, d, d');
  }

  lemma StuckOutside(s: State, a: Action, w: nat)
    requires Inv(s) && w < |s.workers| && Stuck(s, w) && Enabled(s, a)
    requires a.Tick? || a.AddTimer? || a.CheckStopping? || a.Stop?
    ensures Step(s, a).workers == s.workers && Stuck(Step(s, a), w)
  {
    hide Pending, Sum, DueAt, Inv, Added;
    if DueAt(s.timers, s.now) {
      DueOutside(s, a, s.now, Step(s, a).now);
    }
    if s.workers[w].Polling? && DueAt(s.timers, s.workers[w].since) {
      DueOutside(s, a, s.workers[w].since, s.workers[w].since);
    }
  }

  /** Whatever happens without enqueues and without users touching timers, it stays so. */
  lemma StuckStays(s: State, a: Action, w: nat)
    requires Inv(s) && Alone(s, w) && Stuck(s, w) && Enabled(s, a) && Unhelped(a)
    ensures Alone(Step(s, a), w) && (!s.workers[w].Exited? ==> !Step(s, a).workers[w].Exited?) && Stuck(Step(s, a), w)
  {
    hide Pending, Sum, Stuck, Inv, Added, Timers.Valid, ClaimedBy, FirstBusy, Take, Drained, DueCount, Rewritten, Insert;
    SetIsValid(s);
    match a
    case Tick(_) => StuckOutside(s, a, w);
    case AddTimer(_, _, _, _, _) => StuckOutside(s, a, w);
    case CheckStopping => StuckOutside(s, a, w);
    case Stop => StuckOutside(s, a, w);
    case Drain(_, read) => StuckDrain(s, w, read);
    case Rewrite(_, _) => StuckRewrite(s, a, w);
    case Restore(_) => StuckRewrite(s, a, w);
    case Claim(_) => StuckClaim(s, w);
    case _ => StuckTests(s, a, w);
  }

  lemma StuckRewrite(s: State, a: Action, w: nat)
    requires w < |s.workers| && Stuck(s, w) && Enabled(s, a) && (a.Rewrite? || a == Restore(w)) && a.w == w
    ensures !Step(s, a).workers[w].Exited? && Stuck(Step(s, a), w)
  {
    hide Pending, Sum, DueAt, Rewritten, Insert, MustPoll;
  }

  lemma {:induction false} StuckForGood(s: State, acts: seq<Action>, s': State, w: nat)
    requires Inv(s) && Alone(s, w) && Stuck(s, w) && !s.workers[w].Exited? && Run(s, acts, s')
    requires forall i | 0 <= i < |acts| :: Unhelped(acts[i])
    ensures w < |s'.workers| && !s'.workers[w].Exited?
    decreases |acts|
  {
    hide Stuck, Enabled, Step, Inv;
    if acts != [] {
      StuckStays(s, acts[0], w);
      StepKeepsInv(s, acts[0]);
      StuckForGood(Step(s, acts[0]), acts[1..], s', w);
    }
  }

  ghost predicate UnhelpedRun(s: State, acts: seq<Action>, s': State) {
    Run(s, acts, s') && forall i | 0 <= i < |acts| :: Unhelped(acts[i])
  }

  /** The last worker, after `stop`: without another enqueue, and without a user taking a timer away,
      it can leave if and only if no timer is due that it will have to look at. One that it must look
      at forces an enqueue, and so one more round. */
  lemma FinishesIffNothingDue(s: State, w: nat)
    requires Reachable(s) && HandsFree(s, w) && !s.workers[w].Exited? && Alone(s, w)
    ensures (exists acts, s' :: UnhelpedRun(s, acts, s') && w < |s'.workers| && s'.workers[w].Exited?) <==> Clear(s, w)
  {
    hide Reachable, Clear;
    ReachableInv(s);
    if Clear(s, w) {
      var acts, s' := CanFinish(s, w);
      OwnIsUnhelped(acts);
      assert UnhelpedRun(s, acts, s');
    } else {
      forall acts, s' | UnhelpedRun(s, acts, s') ensures w < |s'.workers| && !s'.workers[w].Exited? {
        StuckForGood(s, acts, s', w);
      }
    }
  }

  lemma OwnIsUnhelped(acts: seq<Action>)
    requires forall i | 0 <= i < |acts| :: Own(acts[i])
    ensures forall i | 0 <= i < |acts| :: Unhelped(acts[i])
  {
  }

  // ---------------------------------------------------------------- two workers

  /** How far worker `v` is from a drain or from its exit. */
  ghost function Way(s: State, v: nat): nat
    requires v < |s.workers|
  {
    match s.workers[v]
    case Idle(_, _, _) => if s.taskNumber > 0 then 6 else 3
    case Top => if s.taskNumber > 0 then 5 else 2
    case Running(_) => 4
    case Foot => if s.taskNumber > 0 then 3 else 1
    case Wake => if s.taskNumber > 0 then 2 else 3
    case _ => 0
  }

  /** The next action of worker `v` on that way. */
  ghost function Onward(s: State, v: nat): Action
    requires v < |s.workers|
  {
    match s.workers[v]
    case Idle(_, _, _) => Yield(v)
    case Top => Claim(v)
    case Running(_) => Complete(v)
    case Foot => ExitTest(v)
    case _ => WakeTest(v)
  }

  lemma OnwardGoes(s: State, v: nat)
    requires Inv(s) && HandsFree(s, v) && !s.workers[v].Exited? && !s.workers[v].Polling?
    ensures Enabled(s, Onward(s, v)) && Own(Onward(s, v))
    ensures var s' := Step(s, Onward(s, v)); HandsFree(s', v) && Way(s', v) < Way(s, v) && OnlyMoved(s, s', v)
  {
    hide Pending, Sum, Inv, Take, FirstBusy;
    TimersKnown(s);
    PendingMeansTasks(s);
    if s.workers[v].Top? {
      ClaimTakesOne(s, v);
    }
  }

  /** Nothing but worker `v`, the slots and the count has changed. */
  ghost predicate OnlyMoved(s: State, s': State, v: nat) {
    && |s'.workers| == |s.workers| && s'.nulls == s.nulls && s'.stopping == s.stopping
    && forall w | 0 <= w < |s.workers| && w != v :: s'.workers[w] == s.workers[w]
  }

  lemma AllDrained(ts: TimerSet<Job, Job>, now: u64, d: u64)
    requires Timers.Valid(ts) && d <= now
    ensures !DueAt(Drained(ts, now), d)
  {
    var keys, k, r := Deadlines(ts), DueCount(ts, now), Drained(ts, now);
    forall t | t in multiset(r.order) && t in r.recs ensures r.recs[t].next > d {
      assert t in r.order;
      var i :| 0 <= i < |r.order| && r.order[i] == t;
      assert ts.order[k + i] == t && keys[k + i] == ts.recs[t].next;
      var low := LowerBound(keys, now);
      assert low <= k + i && keys[low] <= keys[k + i];
    }
  }

  lemma ParkedIsClear(s: State, v: nat, w: nat)
    requires Inv(s) && Clocked(s) && Polls(s, v) && HandsFree(s, w) && v != w
    ensures var s' := DrainedBy(s, v, s.now); HandsFree(s', w) && Clear(s', w) && s'.workers[w] == s.workers[w]
  {
    hide Pending, DueAt, Inv, Drained, DueCount;
    SetIsValid(s);
    AllDrained(s.timers, s.now, s.now);
    if s.workers[w].Polling? {
      AllDrained(s.timers, s.now, s.workers[w].since);
    }
  }

  /** With two live workers whose hands are free, one can always leave without an enqueue: the other
      may hold what is due. */
  lemma {:induction false} EitherCanLeave(s: State, v: nat, w: nat) returns (acts: seq<Action>, s': State, who: nat)
    requires Reachable(s) && v != w && HandsFree(s, v) && HandsFree(s, w)
    requires !s.workers[v].Exited? && !s.workers[w].Exited?
    ensures QuietRun(s, acts, s') && who in {v, w} && who < |s'.workers| && s'.workers[who].Exited?
    decreases Way(s, v)
  {
    hide Reachable, Step, Enabled, QuietRun, Inv, Way, Onward, Clear, Own;
    ReachableInv(s);
    ReachableClocked(s);
    var rest, a, next;
    if s.workers[v].Polling? {
      TimersKnown(s);
      ParkStep(s, v);
      a, next := Drain(v, s.now), DrainedBy(s, v, s.now);
      ParkedIsClear(s, v, w);
      rest, s' := CanFinish(next, w);
      who := w;
    } else {
      OnwardGoes(s, v);
      a, next := Onward(s, v), Step(s, Onward(s, v));
      ReachableStep(s, a);
      if next.workers[v].Exited? {
        NoMore(next);
        rest, s', who := [], next, v;
      } else {
        rest, s', who := EitherCanLeave(next, v, w);
      }
    }
    QuietCons(s, a, rest, s');
    acts := [a] + rest;
  }

  lemma ParkStep(s: State, v: nat)
    requires Reachable(s) && Inv(s) && Clocked(s) && Polls(s, v)
    ensures Enabled(s, Drain(v, s.now)) && Own(Drain(v, s.now))
    ensures Step(s, Drain(v, s.now)) == DrainedBy(s, v, s.now) && Reachable(DrainedBy(s, v, s.now))
  {
    hide Reachable, Inv, DrainedBy;
    TimersKnown(s);
    ReachableStep(s, Drain(v, s.now));
  }

  // ---------------------------------------------------------------- work that never ends

  /** The worker owes more than it can pay before its next pass. */
  ghost predicate Owes(s: State, w: nat)
    requires w < |s.workers|
  {
    match s.workers[w]
    case Top => s.taskNumber >= 2
    case Running(_) => s.taskNumber >= 2
    case Idle(temp, obs, _) => s.taskNumber >= 1 && s.taskNumber + |temp| + |obs| >= 2
    case Exited => false
    case _ => s.taskNumber >= 1
  }

  /** Every drain of the run takes at least one timer. */
  ghost predicate AlwaysDue(s: State, acts: seq<Action>)
    decreases |acts|
  {
    acts == []
    || (Enabled(s, acts[0])
        && (acts[0].Drain? ==> s.timers.order[..DueCount(s.timers, acts[0].read)] != [])
        && AlwaysDue(Step(s, acts[0]), acts[1..]))
  }

  ghost predicate OfWorker(a: Action) {
    Own(a) || a.Rewrite? || a.Restore? || a.BatchEnqueue?
  }

  lemma UsersOweNothing(s: State, a: Action)
    requires Enabled(s, a) && !OfWorker(a)
    ensures Step(s, a).workers == s.workers && Step(s, a).taskNumber >= s.taskNumber
  {
    hide Put, Added, Cancelled, Refreshed, Regapped, Disarmed, Bag;
  }

  lemma OwesAfterPass(s: State, a: Action, w: nat)
    requires Enabled(s, a) && w < |s.workers| && Owes(s, w)
    requires a == BatchEnqueue(w) || a == Restore(w) || (a.Rewrite? && a.w == w) || (a.Drain? && a.w == w)
    requires a.Drain? ==> s.timers.order[..DueCount(s.timers, a.read)] != []
    ensures |Step(s, a).workers| == |s.workers| && Owes(Step(s, a), w)
  {
    hide DueCount, Drained, Fill, Rewritten, Insert;
  }

  lemma OwesAfterTest(s: State, a: Action, w: nat)
    requires Enabled(s, a) && w < |s.workers| && Owes(s, w)
    requires a == Yield(w) || a == ExitTest(w) || a == WakeTest(w) || a == Claim(w) || a == Complete(w)
    ensures |Step(s, a).workers| == |s.workers| && Owes(Step(s, a), w)
  {
    hide Take, FirstBusy;
  }

  lemma OnePassActs(s: State, a: Action)
    requires Enabled(s, a) && (a.Drain? || a.Rewrite? || a.Restore? || a.BatchEnqueue?)
    ensures a.w < |s.workers| && !s.workers[a.w].Exited? && |Step(s, a).workers| == |s.workers|
    ensures forall v | 0 <= v < |s.workers| && v != a.w :: Step(s, a).workers[v] == s.workers[v]
  {
    hide Drained, DueCount, Rewritten, Insert, Fill, Live, Nulls;
  }

  lemma OneTestActs(s: State, a: Action)
    requires Enabled(s, a) && (a.Claim? || a.Complete? || a.ExitTest? || a.WakeTest? || a.Yield?)
    ensures a.w < |s.workers| && !s.workers[a.w].Exited? && |Step(s, a).workers| == |s.workers|
    ensures forall v | 0 <= v < |s.workers| && v != a.w :: Step(s, a).workers[v] == s.workers[v]
  {
    hide Take, ClaimedBy, FirstBusy;
  }

  lemma OneWorkerActs(s: State, a: Action, w: nat)
    requires Enabled(s, a) && Alone(s, w) && OfWorker(a)
    ensures a.w == w && |Step(s, a).workers| == |s.workers|
    ensures forall v | 0 <= v < |s.workers| && v != w :: Step(s, a).workers[v] == s.workers[v]
  {
    hide Step, Enabled;
    if a.Drain? || a.Rewrite? || a.Restore? || a.BatchEnqueue? {
      OnePassActs(s, a);
    } else {
      OneTestActs(s, a);
    }
  }

  lemma OwesMore(s: State, a: Action, w: nat)
    requires Enabled(s, a) && Alone(s, w) && Owes(s, w)
    requires a.Drain? ==> s.timers.order[..DueCount(s.timers, a.read)] != []
    ensures Alone(Step(s, a), w) && Owes(Step(s, a), w)
  {
    hide Step, DueCount;
    if !OfWorker(a) {
      UsersOweNothing(s, a);
    } else {
      OneWorkerActs(s, a, w);
      if a.Drain? || a.Rewrite? || a.Restore? || a.BatchEnqueue? {
        OwesAfterPass(s, a, w);
      } else {
        OwesAfterTest(s, a, w);
      }
    }
  }

  /** One timer due on each pass is enough: the last worker runs one callback for each pass, so with
      one callback waiting at its exit test it never leaves, before `stop` or after. */
  lemma {:induction false} NeverCatchesUp(s: State, acts: seq<Action>, s': State, w: nat)
    requires Alone(s, w) && Owes(s, w) && Run(s, acts, s') && AlwaysDue(s, acts)
    ensures w < |s'.workers| && !s'.workers[w].Exited? && s'.taskNumber > 0
    decreases |acts|
  {
    if acts != [] {
      hide Owes, Enabled, Step, DueCount;
      OwesMore(s, acts[0], w);
      NeverCatchesUp(Step(s, acts[0]), acts[1..], s', w);
    }
  }

  /** The loop's only timer is recurring with interval 0 and has passed its deadline; it is stored, or
      in worker `w`'s hands. */
  ghost predicate Spins(s: State, w: nat, t: Job)
    requires w < |s.workers|
  {
    && Timers.Valid(s.timers) && s.timers.recs.Keys == {t}
    && s.timers.recs[t].recurring && s.timers.recs[t].gap == 0 && s.timers.recs[t].next <= s.now
    && match s.workers[w]
       case Polling(since) => s.timers.order == [t] && s.timers.recs[t].next <= since
       case Idle(temp, _, held) =>
         || (s.timers.order == [t] && temp == [] && held == None)
         || (s.timers.order == [] && temp == [t] && held == None)
         || (s.timers.order == [] && temp == [] && held == Some(t))
       case _ => s.timers.order == [t]
  }

  /** No user adds, moves or takes away a timer; enqueues are allowed. */
  ghost predicate LeavesTimers(a: Action) {
    !a.AddTimer? && !a.Cancel? && !a.Refresh? && !a.ResetGap? && !a.Reset?
  }

  lemma OneDue(ts: TimerSet<Job, Job>, t: Job, read: u64)
    requires Known(ts) && ts.order == [t] && t in ts.recs && ts.recs[t].next <= read
    ensures DueCount(ts, read) == 1 && Drained(ts, read) == ts.(order := []) && ts.order[..1] == [t]
  {
    assert Deadlines(ts) == [ts.recs[t].next];
  }

  lemma StoredAlone(ts: TimerSet<Job, Job>, t: Job)
    requires ts.order == [] && t in ts.recs
    ensures Known(ts) && Insert(ts, t) == ts.(order := [t]) && Timers.Valid(Insert(ts, t))
  {
    assert Deadlines(ts) == [];
    assert Deadlines(ts.(order := [t])) == [ts.recs[t].next];
  }

  lemma NoneStoredIsValid(ts: TimerSet<Job, Job>)
    requires ts.order == []
    ensures Timers.Valid(ts)
  {
  }

  lemma SpinsInDrain(s: State, w: nat, t: Job, read: u64)
    requires Polls(s, w) && Spins(s, w, t) && s.workers[w].since <= read
    ensures w < |DrainedBy(s, w, read).workers| && Spins(DrainedBy(s, w, read), w, t)
    ensures s.timers.order[..DueCount(s.timers, read)] != []
  {
    hide DueCount, Drained, Deadlines, Increasing;
    OneDue(s.timers, t, read);
    NoneStoredIsValid(s.timers.(order := []));
  }

  lemma SpinsInRewrite(s: State, w: nat, t: Job, read: u64)
    requires CanRewrite(s, w) && Spins(s, w, t) && read <= s.now
    ensures w < |RewrittenBy(s, w, read).workers| && Spins(RewrittenBy(s, w, read), w, t)
  {
    hide Deadlines, Increasing;
    NoneStoredIsValid(Rewritten(s.timers, t, read));
  }

  lemma SpinsInRestore(s: State, w: nat, t: Job)
    requires Known(s.timers) && CanRestore(s, w) && Spins(s, w, t)
    ensures w < |RestoredBy(s, w).workers| && Spins(RestoredBy(s, w), w, t)
  {
    hide Insert, Timers.Valid;
    StoredAlone(s.timers, t);
  }

  lemma SpinsInTests(s: State, a: Action, w: nat, t: Job)
    requires w < |s.workers| && Spins(s, w, t) && Enabled(s, a)
    requires a == BatchEnqueue(w) || a == Claim(w) || a == Complete(w) || a == ExitTest(w) || a == WakeTest(w) || a == Yield(w)
    ensures w < |Step(s, a).workers| && Spins(Step(s, a), w, t)
  {
    hide Fill, Take, FirstBusy, Timers.Valid, Live, Nulls;
  }

  lemma SpinsOn(s: State, a: Action, w: nat, t: Job)
    requires w < |s.workers| && Spins(s, w, t) && Enabled(s, a) && OfWorker(a) && a.w == w
    ensures w < |Step(s, a).workers| && Spins(Step(s, a), w, t)
    ensures a.Drain? ==> s.timers.order[..DueCount(s.timers, a.read)] != []
  {
    hide Spins, DueCount, DrainedBy, RewrittenBy, RestoredBy, BatchedBy, ClaimedIn, CompletedBy;
    match a
    case Drain(_, read) => SpinsInDrain(s, w, t, read);
    case Rewrite(_, read) => SpinsInRewrite(s, w, t, read);
    case Restore(_) => SpinsInRestore(s, w, t);
    case _ => SpinsInTests(s, a, w, t);
  }

  lemma SpinsOutside(s: State, a: Action, w: nat, t: Job)
    requires w < |s.workers| && Spins(s, w, t) && Enabled(s, a) && !OfWorker(a) && LeavesTimers(a)
    ensures w < |Step(s, a).workers| && Spins(Step(s, a), w, t)
  {
    hide Fill, Put, Deadlines, Increasing, Live, Nulls;
  }

  lemma SpinsStays(s: State, a: Action, w: nat, t: Job)
    requires Alone(s, w) && Spins(s, w, t) && Enabled(s, a) && LeavesTimers(a)
    ensures w < |Step(s, a).workers| && Spins(Step(s, a), w, t)
    ensures a.Drain? ==> s.timers.order[..DueCount(s.timers, a.read)] != []
  {
    hide Spins, Step, DueCount;
    if OfWorker(a) {
      OneWorkerActs(s, a, w);
      SpinsOn(s, a, w, t);
    } else {
      SpinsOutside(s, a, w, t);
    }
  }

  lemma {:induction false} SpinningIsAlwaysDue(s: State, acts: seq<Action>, s': State, w: nat, t: Job)
    requires Alone(s, w) && Owes(s, w) && Spins(s, w, t) && Run(s, acts, s')
    requires forall i | 0 <= i < |acts| :: LeavesTimers(acts[i])
    ensures AlwaysDue(s, acts)
    decreases |acts|
  {
    if acts != [] {
      hide Alone, Owes, Spins, Step, LeavesTimers, DueCount;
      AloneIsThere(s, w);
      SpinsStays(s, acts[0], w, t);
      OwesMore(s, acts[0], w);
      SpinningIsAlwaysDue(Step(s, acts[0]), acts[1..], s', w, t);
    }
  }

  lemma AloneIsThere(s: State, w: nat)
    requires Alone(s, w)
    ensures w < |s.workers|
  {
  }

  /** A recurring timer with interval 0 keeps the last worker for ever once a callback waits at its
      exit test, in every run in which no user touches a timer. */
  lemma SpinsForGood(s: State, acts: seq<Action>, s': State, w: nat, t: Job)
    requires Alone(s, w) && Owes(s, w) && Spins(s, w, t) && Run(s, acts, s')
    requires forall i | 0 <= i < |acts| :: LeavesTimers(acts[i])
    ensures w < |s'.workers| && !s'.workers[w].Exited? && s'.taskNumber > 0
  {
    SpinningIsAlwaysDue(s, acts, s', w, t);
    NeverCatchesUp(s, acts, s', w);
  }

  // ---------------------------------------------------------------- stranded callbacks

  ghost predicate AllGone(s: State) {
    forall w | 0 <= w < |s.workers| :: s.workers[w].Exited?
  }

  /** The callbacks that an action of a user enqueues. */
  ghost function Given(a: Action): multiset<Job> {
    if a.Enqueue? && a.live then multiset{Direct(a.call)} else if a.UserBatch? then Live(a.cbs) else multiset{}
  }

  ghost predicate SomeGiven(acts: seq<Action>) {
    exists i :: 0 <= i < |acts| && Given(acts[i]) != multiset{}
  }

  lemma UsersGive(s: State, a: Action)
    requires Enabled(s, a) && !OfWorker(a)
    ensures var s' := Step(s, a);
            && s'.workers == s.workers && s'.finished == s.finished && s'.enqueued == s.enqueued + Given(a)
            && (s.stopping ==> s'.stopping) && (s.stopping && !a.Enqueue? ==> s'.passed == s.passed)
  {
    hide Live, Nulls, Fill, Put, Added, Cancelled, Refreshed, Regapped, Disarmed;
  }

  lemma OnlyUsersAct(s: State, a: Action)
    requires AllGone(s) && Enabled(s, a)
    ensures !OfWorker(a)
  {
  }

  lemma AloneStep(s: State, a: Action)
    requires AllGone(s) && Enabled(s, a)
    ensures var s' := Step(s, a);
            && AllGone(s') && s'.finished == s.finished && s'.enqueued == s.enqueued + Given(a)
            && (s.stopping ==> s'.stopping) && (s.stopping && !a.Enqueue? ==> s'.passed == s.passed)
  {
    hide Step, Enabled, Given, OfWorker;
    OnlyUsersAct(s, a);
    UsersGive(s, a);
  }

  /** Once every worker has left, whatever is enqueued stays. */
  lemma {:induction false} StrandedByLateEnqueue(s: State, acts: seq<Action>, s': State)
    requires AllGone(s) && s.finished <= s.enqueued && Run(s, acts, s')
    ensures AllGone(s') && s'.finished == s.finished && s.enqueued <= s'.enqueued
    ensures s'.finished == s'.enqueued <==> s.finished == s.enqueued && !SomeGiven(acts)
    decreases |acts|
  {
    if acts != [] {
      hide AllGone, Enabled, Step, Given;
      var next := Step(s, acts[0]);
      AloneStep(s, acts[0]);
      assert s.enqueued <= next.enqueued;
      StrandedByLateEnqueue(next, acts[1..], s');
      SomeGivenSplit(acts);
      if Given(acts[0]) != multiset{} {
        assert |next.enqueued| == |s.enqueued| + |Given(acts[0])|;
        FewerInSubset(s.finished, s.enqueued);
      }
    }
  }

  lemma SomeGivenSplit(acts: seq<Action>)
    requires acts != []
    ensures SomeGiven(acts) <==> Given(acts[0]) != multiset{} || SomeGiven(acts[1..])
  {
    hide Given;
    if i :| 0 <= i < |acts[1..]| && Given(acts[1..][i]) != multiset{} {
      assert Given(acts[i + 1]) != multiset{};
    }
    if i :| 0 < i < |acts| && Given(acts[i]) != multiset{} {
      assert Given(acts[1..][i - 1]) != multiset{};
    }
  }

  lemma FewerInSubset(a: multiset<Job>, b: multiset<Job>)
    requires a <= b
    ensures |a| <= |b|
  {
    assert b == a + (b - a);
  }

  ghost predicate NoUserBatch(acts: seq<Action>) {
    forall i | 0 <= i < |acts| :: !acts[i].UserBatch?
  }

  lemma {:induction false} NobodyComesLate(s: State, acts: seq<Action>, s': State)
    requires AllGone(s) && s.stopping && s.passed == 0 && Run(s, acts, s') && NoUserBatch(acts)
    ensures !SomeGiven(acts)
    decreases |acts|
  {
    if acts != [] {
      assert !acts[0].Enqueue? && !acts[0].UserBatch?;
      hide AllGone, Enabled, Step;
      AloneStep(s, acts[0]);
      NobodyComesLate(Step(s, acts[0]), acts[1..], s');
      SomeGivenSplit(acts);
    }
  }

  /** What the last worker's leaving establishes. */
  lemma LeftBehind(s: State, w: nat)
    requires Reachable(s) && Enabled(s, ExitTest(w)) && Step(s, ExitTest(w)).workers[w].Exited?
    ensures var left := Step(s, ExitTest(w));
            left.stopping && left.passed == s.passed && left.finished == left.enqueued && Known(left.timers)
  {
    hide Reachable;
    LeavingMeansDone(s, w);
  }

  /** The last worker leaves: all enqueued callbacks have run in every continuation in which no user
      calls the batch form if and only if at that moment no caller of the single `schedule` is
      between its test of `m_stopping` and its lock. */
  lemma NoneStrandedIffNonePassed(s: State, w: nat)
    requires Reachable(s) && Enabled(s, ExitTest(w)) && Step(s, ExitTest(w)).workers[w].Exited?
    requires AllGone(Step(s, ExitTest(w)))
    ensures (forall acts, s' :: Run(Step(s, ExitTest(w)), acts, s') && NoUserBatch(acts) ==> s'.finished == s'.enqueued)
            <==> s.passed == 0
  {
    hide Reachable, AllGone, Run;
    LeftBehind(s, w);
    var left := Step(s, ExitTest(w));
    hide Step;
    if s.passed == 0 {
      forall acts, s' | Run(left, acts, s') && NoUserBatch(acts) ensures s'.finished == s'.enqueued {
        NobodyComesLate(left, acts, s');
        StrandedByLateEnqueue(left, acts, s');
      }
    } else {
      LateOne(left, Enqueue(0, true, ANY_THREAD));
    }
  }

  lemma LateOne(left: State, late: Action)
    requires AllGone(left) && left.finished == left.enqueued && Enabled(left, late)
    ensures Run(left, [late], Step(left, late))
    ensures Step(left, late).finished == Step(left, late).enqueued <==> Given(late) == multiset{}
    ensures late.UserBatch? || NoUserBatch([late])
  {
    hide AllGone, Step, Enabled, Given;
    RunOfOne(left, late);
    StrandedByLateEnqueue(left, [late], Step(left, late));
    SomeGivenSplit([late]);
  }

  /** The batch form has no test: called after the last worker has left, it strands a callback exactly
      when it is given one, whether or not anybody had passed the test. */
  lemma LateBatchStrands(s: State, w: nat, cbs: seq<Option<Job>>)
    requires Reachable(s) && Enabled(s, ExitTest(w)) && Step(s, ExitTest(w)).workers[w].Exited?
    requires AllGone(Step(s, ExitTest(w))) && AllDirect(cbs)
    ensures var left := Step(s, ExitTest(w));
            Enabled(left, UserBatch(cbs))
            && (UserBatched(left, cbs).finished == UserBatched(left, cbs).enqueued
                <==> forall i | 0 <= i < |cbs| :: cbs[i].None?)
  {
    hide Reachable, AllGone, Run, Live, Fill;
    LeftBehind(s, w);
    LiveIsEmpty(cbs);
    LateOne(Step(s, ExitTest(w)), UserBatch(cbs));
  }

  lemma {:induction false} LiveIsEmpty(cbs: seq<Option<Job>>)
    ensures Live(cbs) == multiset{} <==> forall i | 0 <= i < |cbs| :: cbs[i].None?
  {
    if cbs != [] {
      LiveIsEmpty(cbs[1..]);
      assert forall i | 0 <= i < |cbs| - 1 :: cbs[1..][i] == cbs[i + 1];
      if cbs[0].Some? {
        assert cbs[0].value in Live(cbs);
      } else {
        assert Live(cbs) == Live(cbs[1..]);
        assert forall i | 0 < i < |cbs| :: cbs[i] == cbs[1..][i - 1];
      }
    }
  }

  lemma RunOfOne(s: State, a: Action)
    requires Enabled(s, a)
    ensures Run(s, [a], Step(s, a))
  {
    assert Run(Step(s, a), [], Step(s, a));
    assert [a][1..] == [];
  }

  // ---------------------------------------------------------------- runs that show it

  /** A loop with one worker and no timers or callbacks. */
  ghost function Solo(w: Worker, stopping: bool, passed: nat): State {
    State(0, NoTimers(), [], 0, stopping, passed, [w], multiset{}, multiset{}, multiset{}, multiset{}, 0, {})
  }

  lemma Then(s: State, a: Action, s': State)
    requires Reachable(s) && Enabled(s, a) && Step(s, a) == s'
    ensures Reachable(s')
  {
    hide Reachable, Enabled, Step;
    ReachableStep(s, a);
  }

  lemma SoloStarts()
    ensures Init(Solo(Polling(0), false, 0)) && Reachable(Solo(Polling(0), false, 0))
  {
    var s := Solo(Polling(0), false, 0);
    assert Run(s, [], s);
  }

  lemma SoloPass(stopping: bool, passed: nat)
    requires Reachable(Solo(Polling(0), stopping, passed))
    ensures Reachable(Solo(Top, stopping, passed))
  {
    hide Reachable;
    var s, done := Solo(Polling(0), stopping, passed), Solo(DONE, stopping, passed);
    EmptyDrain();
    assert Step(s, Drain(0, 0)) == done;
    Then(s, Drain(0, 0), done);
    assert Step(done, Yield(0)) == Solo(Top, stopping, passed);
    Then(done, Yield(0), Solo(Top, stopping, passed));
  }

  lemma EmptyDrain()
    ensures var none := NoTimers<Job, Job>(); DueCount(none, 0) == 0 && Drained(none, 0) == none
  {
  }

  lemma SoloLeaves(passed: nat)
    requires Reachable(Solo(Top, true, passed))
    ensures Reachable(Solo(Exited, true, passed))
  {
    hide Reachable;
    var s, foot := Solo(Top, true, passed), Solo(Foot, true, passed);
    assert Step(s, Claim(0)) == foot;
    Then(s, Claim(0), foot);
    assert Step(foot, ExitTest(0)) == Solo(Exited, true, passed);
    Then(foot, ExitTest(0), Solo(Exited, true, passed));
  }

  /** A callback can be stranded: its caller passes the test, the loop is stopped, its one worker
      finds nothing and leaves, and the caller then enqueues. */
  lemma TaskCanBeStranded() returns (s: State)
    ensures Reachable(s) && AllGone(s) && |s.workers| == 1 && Pending(s.slots) == multiset{Direct(7)}
  {
    hide Reachable;
    SoloStarts();
    SoloPass(false, 0);
    Then(Solo(Top, false, 0), CheckStopping, Solo(Top, false, 1));
    Then(Solo(Top, false, 1), Stop, Solo(Top, true, 1));
    SoloLeaves(1);
    s := Enqueued(Solo(Exited, true, 1), Some(Direct(7)), ANY_THREAD);
    Then(Solo(Exited, true, 1), Enqueue(7, true, ANY_THREAD), s);
    PutKeepsCallbacks<Job>([], Slot(Some(Direct(7)), ANY_THREAD));
  }

  lemma ResetDrained(s: State, w: nat, t: Job) returns (s': State)
    requires Reachable(s) && w < |s.workers| && s.workers[w] == Idle([t], [], None) && Attached(s, t)
    ensures Reachable(s') && s'.workers == s.workers && s'.nulls == s.nulls
    ensures t in s'.timers.recs && s'.timers.recs[t] == TimerRec(0, 0, false, None, false)
  {
    hide Reachable, Cancelled, Sum, Pending, BooksGood;
    ReachableInv(s);
    SetIsValid(s);
    DisarmedKeepsValid(s.timers, t);
    s' := WithTimers(s, Disarmed(s.timers, t));
    Then(s, Reset(t), s');
  }

  lemma CopyNull(s: State, w: nat, t: Job) returns (s': State)
    requires Reachable(s) && w < |s.workers| && s.workers[w] == Idle([t], [], None)
    requires t in s.timers.recs && !s.timers.recs[t].recurring && s.timers.recs[t].cb.None?
    ensures Reachable(s') && s'.workers == s.workers[w := Idle([], [None], None)] && s'.nulls == s.nulls
  {
    hide Reachable, Rewritten, Inv;
    ReachableInv(s);
    TimersKnown(s);
    s' := RewrittenBy(s, w, s.now);
    assert s'.workers[w] == Idle([], [None], None);
    Then(s, Rewrite(w, s.now), s');
  }

  lemma EnqueueNull(s: State, w: nat) returns (s': State)
    requires Reachable(s) && w < |s.workers| && s.workers[w] == Idle([], [None], None)
    ensures Reachable(s') && s'.workers == s.workers[w := DONE] && s'.nulls == s.nulls + 1
  {
    hide Reachable, Fill, Inv;
    ReachableInv(s);
    TimersKnown(s);
    s' := BatchedBy(s, w);
    Then(s, BatchEnqueue(w), s');
    assert s.workers[w].obs[1..] == [];
  }

  /** `reset()` on the one timer a worker has drained: a null callback is enqueued. */
  lemma ResetMakesNull(s: State, w: nat, t: Job) returns (s': State)
    requires Reachable(s) && w < |s.workers| && s.workers[w] == Idle([t], [], None) && Attached(s, t)
    ensures Reachable(s') && s'.nulls == s.nulls + 1 && s'.workers == s.workers[w := DONE]
  {
    hide Reachable;
    var s1 := ResetDrained(s, w, t);
    var s2 := CopyNull(s1, w, t);
    s' := EnqueueNull(s2, w);
  }

  lemma FirstTimer(t: Job, cb: Option<Job>, recurring: bool)
    ensures Added(NoTimers<Job, Job>(), t, 0, cb, recurring, 0)
         == TimerSet(map[t := TimerRec(0, 0, recurring, cb, true)], [t])
  {
  }

  lemma OnlyTimer(ts: TimerSet<Job, Job>, t: Job)
    requires ts.order == [t] && t in ts.recs && ts.recs[t].next == 0
    ensures Known(ts) && DueCount(ts, 0) == 1
  {
    assert Deadlines(ts) == [0];
  }

  lemma DrainKeepsRecs(ts: TimerSet<Job, Job>)
    requires Known(ts)
    ensures Drained(ts, 0).recs == ts.recs
  {
  }

  /** A null callback can be enqueued by the loop itself, so that no worker ever leaves. */
  lemma NullCanBlock() returns (s: State)
    ensures Reachable(s) && s.nulls > 0 && |s.workers| == 1 && !s.workers[0].Exited?
    ensures forall acts, s' :: Run(s, acts, s') ==> |s'.workers| == 1 && !s'.workers[0].Exited?
  {
    hide Reachable, Run, Added, Drained, DueCount;
    SoloStarts();
    var t := Fire(0);
    FirstTimer(t, Some(t), false);
    var s0 := Solo(Polling(0), false, 0);
    var s1 := AddedTimer(s0, t, true, 0, false, 0);
    Then(s0, AddTimer(0, true, 0, false, 0), s1);
    OnlyTimer(s1.timers, t);
    var s2 := DrainedBy(s1, 0, 0);
    Then(s1, Drain(0, 0), s2);
    assert s2.workers[0] == Idle([t], [], None);
    assert s2.timers.recs == s1.timers.recs by {
      DrainKeepsRecs(s1.timers);
    }
    s := ResetMakesNull(s2, 0, t);
    ReachableInv(s);
    forall acts, s' | Run(s, acts, s') ensures |s'.workers| == 1 && !s'.workers[0].Exited? {
      NullsBlockLeaving(s, acts, s');
    }
  }

  /** A due timer can keep the last worker: a timer is added, the loop is stopped, and the worker
      cannot leave without another enqueue. */
  lemma DueTimerKeepsWorker() returns (s: State)
    ensures Reachable(s) && HandsFree(s, 0) && Alone(s, 0)
    ensures forall acts, s' :: UnhelpedRun(s, acts, s') ==> !(0 < |s'.workers| && s'.workers[0].Exited?)
  {
    hide Reachable, Added, Run;
    SoloStarts();
    var t := Fire(0);
    FirstTimer(t, Some(t), true);
    var s0 := Solo(Polling(0), false, 0);
    var s1 := AddedTimer(s0, t, true, 0, true, 0);
    Then(s0, AddTimer(0, true, 0, true, 0), s1);
    s := s1.(stopping := true);
    Then(s1, Stop, s);
    assert s.timers.order == [t];
    assert t in multiset(s.timers.order);
    assert DueAt(s.timers, s.now) && MustPoll(s, 0);
    FinishesIffNothingDue(s, 0);
  }

  /** Two calls bring the loop there, and after `stop` its worker never leaves. */
  lemma ZeroIntervalNeverLeaves() returns (s: State)
    ensures Reachable(s) && s.stopping && |s.workers| == 1
    ensures forall acts, s' :: Run(s, acts, s') && (forall i | 0 <= i < |acts| :: LeavesTimers(acts[i]))
              ==> 0 < |s'.workers| && !s'.workers[0].Exited? && s'.taskNumber > 0
  {
    hide Reachable, Added, Run, Spins, Put;
    SoloStarts();
    var t := Fire(0);
    FirstTimer(t, Some(t), true);
    var s0 := Solo(Polling(0), false, 0);
    var s1 := AddedTimer(s0, t, true, 0, true, 0);
    Then(s0, AddTimer(0, true, 0, true, 0), s1);
    var s2 := s1.(passed := 1);
    OnlyTimer(s1.timers, t);
    Then(s1, CheckStopping, s2);
    var s3 := Enqueued(s2, Some(Direct(7)), ANY_THREAD);
    Then(s2, Enqueue(7, true, ANY_THREAD), s3);
    s := s3.(stopping := true);
    Then(s3, Stop, s);
    StartsToSpin(s, t);
    forall acts, s' | Run(s, acts, s') && (forall i | 0 <= i < |acts| :: LeavesTimers(acts[i]))
      ensures 0 < |s'.workers| && !s'.workers[0].Exited? && s'.taskNumber > 0
    {
      SpinsForGood(s, acts, s', 0, t);
    }
  }

  lemma StartsToSpin(s: State, t: Job)
    requires s.workers == [Polling(0)] && s.timers.order == [t] && s.timers.recs.Keys == {t}
    requires s.timers.recs[t].recurring && s.timers.recs[t].gap == 0 && s.timers.recs[t].next == 0
    ensures Spins(s, 0, t)
  {
    assert Deadlines(s.timers) == [0];
  }
}
