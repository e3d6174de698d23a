/** What holds in every run of the event loop: conservation, what a leaving worker can rely
    on, where null callbacks come from and what they do, when a worker can leave after `stop`, and
    stranded callbacks. */
module EventLoopLaws {
  import opened Wrappers
  import opened TaskQueue
  import opened Timers
  import opened TimerLaws
  import opened EventLoop

  lemma {:induction false} RunKeepsInv(s: State, acts: seq<Action>, s': State)
    requires Inv(s) && Run(s, acts, s')
    ensures Inv(s')
    decreases |acts|
  {
    if acts != [] {
      StepKeepsInv(s, acts[0]);
      RunKeepsInv(Step(s, acts[0]), acts[1..], s');
    }
  }

  lemma ReachableInv(s: State)
    requires Reachable(s)
    ensures Inv(s)
  {
    var s0, acts :| Init(s0) && Run(s0, acts, s);
    InitInv(s0);
    RunKeepsInv(s0, acts, s);
  }

  lemma {:induction false} RunOneMore(s: State, acts: seq<Action>, s': State, a: Action)
    requires Run(s, acts, s') && Enabled(s', a)
    ensures Run(s, acts + [a], Step(s', a))
    decreases |acts|
  {
    hide Enabled, Step;
    if acts == [] {
      assert Run(Step(s, a), [], Step(s, a));
      assert [a][1..] == [] && acts + [a] == [a];
    } else {
      RunOneMore(Step(s, acts[0]), acts[1..], s', a);
      assert (acts + [a])[1..] == acts[1..] + [a];
    }
  }

  lemma ReachableStep(s: State, a: Action)
    requires Reachable(s) && Enabled(s, a)
    ensures Reachable(Step(s, a))
  {
    hide Init, Run, Enabled, Step;
    var s0, acts :| Init(s0) && Run(s0, acts, s);
    RunOneMore(s0, acts, s, a);
  }

  /** No worker has entered its pass in the future. */
  ghost predicate Clocked(s: State) {
    forall w | 0 <= w < |s.workers| && s.workers[w].Polling? :: s.workers[w].since <= s.now
  }

  lemma StepKeepsClocked(s: State, a: Action)
    requires Clocked(s) && Enabled(s, a)
    ensures Clocked(Step(s, a))
  {
    hide Fill, Put, Take, FirstBusy, Insert, Added, Cancelled, Refreshed, Regapped, Disarmed, Drained, Rewritten;
  }

  lemma {:induction false} RunKeepsClocked(s: State, acts: seq<Action>, s': State)
    requires Clocked(s) && Run(s, acts, s')
    ensures Clocked(s')
    decreases |acts|
  {
    hide Clocked;
    if acts != [] {
      StepKeepsClocked(s, acts[0]);
      RunKeepsClocked(Step(s, acts[0]), acts[1..], s');
    }
  }

  lemma ReachableClocked(s: State)
    requires Reachable(s)
    ensures Clocked(s)
  {
    var s0, acts :| Init(s0) && Run(s0, acts, s);
    RunKeepsClocked(s0, acts, s);
  }

  // ---------------------------------------------------------------- conservation

  /** In every reachable state each accepted arming and each accepted call is in exactly one
      place: the timer set, a drained batch, a worker's list, a task slot, a running worker,
      the finished callbacks, or those dropped by cancel, reset or a collision. A drained
      timer has passed its deadline. */
  lemma EveryJobInOnePlace(s: State, j: Job)
    requires Reachable(s)
    ensures var b := BooksOf(s);
            s.accepted[j] == b.stored[j] + b.draining[j] + b.collected[j] + b.pending[j] + b.inHand[j]
                             + b.finished[j] + b.dropped[j]
    ensures j in BooksOf(s).draining ==> j in s.timers.recs && s.timers.recs[j].next <= s.now
  {
    ReachableInv(s);
  }

  /** A one-shot timer is in at most one place and its callback runs at most once. */
  lemma OneShotRunsAtMostOnce(s: State, t: Job)
    requires Reachable(s) && t in s.once
    ensures var b := BooksOf(s);
            b.stored[t] + b.draining[t] + b.collected[t] + b.pending[t] + b.inHand[t] + b.finished[t] + b.dropped[t] <= 1
    ensures s.finished[t] <= 1
  {
    ReachableInv(s);
  }

  /** An operation of a user on a timer. */
  ghost predicate OnTimer(a: Action) {
    a.Cancel? || a.Refresh? || a.ResetGap? || a.Reset?
  }

  /** What drops an arming: `cancel` and `reset()` the one timer their lookup finds, `refresh` and
      `reset(gap, from_now)` that timer when another stored timer has its new deadline. */
  lemma WhatDrops(s: State, a: Action, x: Job)
    requires Timers.Valid(s.timers) && Enabled(s, a) && OnTimer(a) && Meets(s.timers, a.t, x)
    ensures var next :=
              if a.Refresh? then (a.read + s.timers.recs[a.t].gap) % 0x1_0000_0000_0000_0000
              else if a.ResetGap? && a.fromNow then (a.read + a.gap) % 0x1_0000_0000_0000_0000
              else if a.ResetGap? then (s.timers.recs[x].next - a.gap) % 0x1_0000_0000_0000_0000
              else s.timers.recs[x].next;
            var stays := (a.Refresh? || a.ResetGap?) && !HasOther(s.timers, x, next);
            Step(s, a).dropped == s.dropped + if stays then multiset{} else multiset{x}
  {
    hide HasOther, Meets, Refreshed, Regapped, Cancelled, Disarmed, WithTimers;
    if a.Refresh? {
      RefreshDrops(s, a.t, x, a.read);
    } else if a.ResetGap? {
      ResetGapDrops(s, a.t, x, a.gap, a.fromNow, a.read);
    } else {
      CancelDrops(s, a.t, x);
    }
  }

  lemma CancelDrops(s: State, t: Job, x: Job)
    requires Timers.Valid(s.timers) && Meets(s.timers, t, x)
    ensures WithTimers(s, Cancelled(s.timers, t)).dropped == s.dropped + multiset{x}
    ensures WithTimers(s, Disarmed(s.timers, t)).dropped == s.dropped + multiset{x}
  {
    var ts, k := s.timers, Found(s.timers, t);
    MeetsItself(ts, t, x);
    EraseKeepsValid(ts, k);
    Difference(multiset(ts.order), multiset(Erase(ts, k).order), multiset{x});
  }

  lemma RefreshDrops(s: State, t: Job, x: Job, read: u64)
    requires Timers.Valid(s.timers) && Meets(s.timers, t, x)
    ensures WithTimers(s, Refreshed(s.timers, t, read)).dropped
         == s.dropped + (if HasOther(s.timers, x, (read + s.timers.recs[t].gap) % 0x1_0000_0000_0000_0000)
                         then multiset{x} else multiset{})
  {
    hide Moved, HasOther, Found, WithTimers;
    var ts := s.timers;
    MeetsItself(ts, t, x);
    SumsWrap(read, ts.recs[t].gap);
    MovedDrops(s, Found(ts, t), ts.recs[x].gap, Add64(read, ts.recs[t].gap));
  }

  lemma ResetGapDrops(s: State, t: Job, x: Job, gap: u64, fromNow: bool, read: u64)
    requires Timers.Valid(s.timers) && Meets(s.timers, t, x)
    ensures var next := if fromNow then (read + gap) % 0x1_0000_0000_0000_0000
                        else (s.timers.recs[x].next - gap) % 0x1_0000_0000_0000_0000;
            WithTimers(s, Regapped(s.timers, t, gap, fromNow, read)).dropped
            == s.dropped + (if HasOther(s.timers, x, next) then multiset{x} else multiset{})
  {
    hide Moved, HasOther, Found, WithTimers;
    var ts := s.timers;
    MeetsItself(ts, t, x);
    SumsWrap(read, gap);
    SumsWrap(ts.recs[x].next, gap);
    MovedDrops(s, Found(ts, t), gap, if fromNow then Add64(read, gap) else Sub64(ts.recs[x].next, gap));
  }

  lemma Difference(a: multiset<Job>, b: multiset<Job>, x: multiset<Job>)
    requires a == b + x
    ensures a - b == x
  {
  }

  lemma MovedDrops(s: State, k: nat, gap: u64, next: u64)
    requires Timers.Valid(s.timers) && k < |s.timers.order|
    ensures var x := s.timers.order[k];
            WithTimers(s, Moved(s.timers, k, gap, next)).dropped
            == s.dropped + (if HasOther(s.timers, x, next) then multiset{x} else multiset{})
  {
    hide Insert, Increasing, Deadlines, Moved, Erase, HasOther;
    var ts, r, x := s.timers, Moved(s.timers, k, gap, next), s.timers.order[k];
    TakenByAnother(ts, k, next);
    MovedKeepsValid(ts, k, gap, next);
    Difference(multiset(ts.order), multiset(r.order), if x in r.order then multiset{} else multiset{x});
  }

  // ---------------------------------------------------------------- leaving

  /** When a worker leaves `run`, no slot is occupied, no worker is in a callback, and
      exactly the enqueued callbacks have run. */
  lemma LeavingMeansDone(s: State, w: nat)
    requires Reachable(s) && Enabled(s, ExitTest(w)) && Step(s, ExitTest(w)).workers[w].Exited?
    ensures forall i | 0 <= i < |s.slots| :: s.slots[i].cb.None?
    ensures forall v | 0 <= v < |s.workers| :: !s.workers[v].Running?
    ensures s.finished == s.enqueued && s.nulls == 0
  {
    ReachableInv(s);
    NothingLeft(s);
  }

  lemma NothingLeft(s: State)
    requires Inv(s) && s.taskNumber == 0
    ensures forall i | 0 <= i < |s.slots| :: s.slots[i].cb.None?
    ensures forall v | 0 <= v < |s.workers| :: !s.workers[v].Running?
    ensures s.finished == s.enqueued && s.nulls == 0
  {
    hide TimersGood, Conserved;
    var b := BooksOf(s);
    assert |b.pending| + |b.inHand| + s.nulls == 0;
    assert b.pending == multiset{} && b.inHand == multiset{};
    NothingPending(s.slots);
    SumEmpty(s.workers, RunOf);
    forall v | 0 <= v < |s.workers| ensures !s.workers[v].Running? {
      assert RunOf(s.workers[v]) == multiset{};
    }
  }

  /** `task_number` in every reachable state. */
  lemma TaskNumberCounts(s: State)
    requires Reachable(s)
    ensures s.taskNumber == |Pending(s.slots)| + |Sum(s.workers, RunOf)| + s.nulls
  {
    ReachableInv(s);
  }

  /** Free slots stay as `reset()` leaves them, exactly until a user enqueues a null callback with
      a thread id of its own. */
  lemma SlotsStayClear(s: State, a: Action)
    requires FreeSlotsClear(s.slots) && Enabled(s, a)
    ensures FreeSlotsClear(Step(s, a).slots) <==> !(a.Enqueue? && !a.live && a.thread != ANY_THREAD)
  {
    hide FreeSlotsClear;
    match a
    case BatchEnqueue(w) => FillKeepsFreeClear(s.slots, s.workers[w].obs);
    case Enqueue(call, live, thread) => PutKeepsFreeClear(s.slots, Slot(if live then Some(Direct(call)) else None, thread));
    case UserBatch(cbs) => FillKeepsFreeClear(s.slots, cbs);
    case Claim(_) => TakeKeepsFreeClear(s.slots);
    case _ =>
  }

  // ---------------------------------------------------------------- null callbacks

  /** The timers that can still hand over a callback. */
  ghost function Armed(b: Books): multiset<Job> {
    b.stored + b.draining + b.held
  }

  ghost predicate ArmedLive(ts: TimerSet<Job, Job>, armed: multiset<Job>) {
    forall t | t in armed :: t in ts.recs && ts.recs[t].cb.Some?
  }

  ghost predicate ListsLive(ws: seq<Worker>) {
    forall w | 0 <= w < |ws| && ws[w].Idle? :: AllLive(ws[w].obs)
  }

  /** No null callback has been enqueued, is collected, or will be copied from a timer. */
  ghost predicate NullFree(s: State) {
    s.nulls == 0 && ListsLive(s.workers) && ArmedLive(s.timers, Armed(BooksOf(s)))
  }

  /** A null callback scheduled by a user, alone or in a batch, a null callback stored with a timer,
      or `reset()` on a timer between its drain and its being stored again. */
  ghost predicate MakesNull(s: State, a: Action)
    requires Enabled(s, a)
  {
    || (a.Enqueue? && !a.live)
    || (a.UserBatch? && !AllLive(a.cbs))
    || (a.AddTimer? && !a.live && !Taken(s.timers, Add64(a.read, a.gap)))
    || (a.Reset? && a.t in BooksOf(s).draining + BooksOf(s).held)
  }

  lemma FewerArmed(ts: TimerSet<Job, Job>, r: TimerSet<Job, Job>, armed: multiset<Job>, armed': multiset<Job>)
    requires ArmedLive(ts, armed) && armed' <= armed
    requires forall t | t in ts.recs && t in armed' :: t in r.recs && r.recs[t].cb == ts.recs[t].cb
    ensures ArmedLive(r, armed')
  {
  }

  lemma MovedKeepsCallbacks(ts: TimerSet<Job, Job>, k: nat, gap: u64, next: u64)
    requires Timers.Valid(ts) && k < |ts.order|
    ensures forall t | t in ts.recs :: t in Moved(ts, k, gap, next).recs && Moved(ts, k, gap, next).recs[t].cb == ts.recs[t].cb
    ensures multiset(Moved(ts, k, gap, next).order) <= multiset(ts.order)
  {
    MovedKeepsValid(ts, k, gap, next);
  }

  lemma UserNulls(s: State, ts: TimerSet<Job, Job>)
    requires NullFree(s) && multiset(ts.order) <= multiset(s.timers.order)
    requires forall t | t in s.timers.recs :: t in ts.recs && ts.recs[t].cb == s.timers.recs[t].cb
    ensures NullFree(WithTimers(s, ts))
  {
    hide Sum, Pending;
    var b, b' := BooksOf(s), BooksOf(WithTimers(s, ts));
    assert Armed(b') <= Armed(b);
    FewerArmed(s.timers, ts, Armed(b), Armed(b'));
  }

  lemma CancelNulls(s: State, t: Job)
    requires NullFree(s) && Timers.Valid(s.timers) && t in s.timers.recs
    ensures NullFree(WithTimers(s, Cancelled(s.timers, t)))
  {
    hide NullFree, Increasing, Deadlines;
    var k := Found(s.timers, t);
    if k < |s.timers.order| {
      EraseKeepsValid(s.timers, k);
    }
    UserNulls(s, Cancelled(s.timers, t));
  }

  lemma RefreshNulls(s: State, t: Job, read: u64)
    requires NullFree(s) && Timers.Valid(s.timers) && t in s.timers.recs
    ensures NullFree(WithTimers(s, Refreshed(s.timers, t, read)))
  {
    hide NullFree, Moved, Increasing, Deadlines;
    var ts, k := s.timers, Found(s.timers, t);
    if k < |ts.order| {
      MovedKeepsCallbacks(ts, k, ts.recs[ts.order[k]].gap, Add64(read, ts.recs[t].gap));
    }
    UserNulls(s, Refreshed(ts, t, read));
  }

  lemma ResetGapNulls(s: State, t: Job, gap: u64, fromNow: bool, read: u64)
    requires NullFree(s) && Timers.Valid(s.timers) && t in s.timers.recs
    ensures NullFree(WithTimers(s, Regapped(s.timers, t, gap, fromNow, read)))
  {
    hide NullFree, Moved, Increasing, Deadlines;
    var ts, k := s.timers, Found(s.timers, t);
    if k < |ts.order| {
      MovedKeepsCallbacks(ts, k, gap, if fromNow then Add64(read, gap) else Sub64(ts.recs[ts.order[k]].next, gap));
    }
    UserNulls(s, Regapped(ts, t, gap, fromNow, read));
  }

  lemma ResetNulls(s: State, t: Job)
    requires NullFree(s) && Timers.Valid(s.timers) && t in s.timers.recs
    ensures NullFree(WithTimers(s, Disarmed(s.timers, t))) <==> t !in BooksOf(s).draining + BooksOf(s).held
  {
    hide Sum, Pending, Cancelled, Increasing, Deadlines;
    var ts, r, s' := s.timers, Disarmed(s.timers, t), WithTimers(s, Disarmed(s.timers, t));
    CancelNulls(s, t);
    DisarmedKeepsValid(ts, t);
    assert t !in multiset(r.order);
    var b, b' := BooksOf(s), BooksOf(s');
    assert b'.draining == b.draining && b'.held == b.held;
    assert t in Armed(b') <==> t in b.draining + b.held;
    assert Armed(b') == Armed(BooksOf(WithTimers(s, Cancelled(ts, t))));
  }

  lemma OneMoreArmed(ts: TimerSet<Job, Job>, r: TimerSet<Job, Job>, armed: multiset<Job>, t: Job, rec: TimerRec<Job>,
                     taken: bool)
    requires ArmedLive(ts, armed) && t !in armed && r.recs == ts.recs[t := rec]
    ensures ArmedLive(r, armed + (if taken then multiset{} else multiset{t})) <==> rec.cb.Some? || taken
  {
    assert !taken ==> t in armed + multiset{t};
  }

  lemma NotArmedYet(s: State, t: Job)
    requires Inv(s) && t !in s.timers.recs
    ensures t !in Armed(BooksOf(s))
  {
    hide BooksGood, Increasing, Deadlines;
    NewIsNowhere(s.timers, BooksOf(s).draining + BooksOf(s).held, t);
  }

  lemma AddTimerNulls(s: State, t: Job, live: bool, gap: u64, recurring: bool, read: u64)
    requires Inv(s) && NullFree(s) && t.Fire? && t !in s.timers.recs
    ensures NullFree(AddedTimer(s, t, live, gap, recurring, read)) <==> live || Taken(s.timers, Add64(read, gap))
  {
    hide Sum, Pending, Added, BooksGood, TimersGood, ListsLive, ArmedLive, Armed, Taken, Increasing, Deadlines;
    SetIsValid(s);
    NotArmedYet(s, t);
    var ts, cb, d := s.timers, if live then Some(t) else None, Add64(read, gap);
    AddedKeepsValid(ts, t, gap, cb, recurring, read);
    OneMoreArmed(ts, Added(ts, t, gap, cb, recurring, read), Armed(BooksOf(s)), t,
                 TimerRec(gap, d, recurring, cb, true), Taken(ts, d));
    ArmedGrows(BooksOf(s), BooksOf(AddedTimer(s, t, live, gap, recurring, read)),
               if Taken(ts, d) then multiset{} else multiset{t});
  }

  lemma ArmedGrows(b: Books, b': Books, x: multiset<Job>)
    requires b'.stored == b.stored + x && b'.draining == b.draining && b'.held == b.held
    ensures Armed(b') == Armed(b) + x
  {
  }

  lemma DrainNulls(s: State, w: nat, read: u64)
    requires Inv(s) && NullFree(s) && Polls(s, w)
    ensures NullFree(DrainedBy(s, w, read))
  {
    hide Sum, Pending, BooksGood, Increasing, Deadlines, DueCount;
    var ts, s' := s.timers, DrainedBy(s, w, read);
    DrainMoves(s, w, read);
    DrainedKeepsValid(ts, read);
    assert Armed(BooksOf(s')) == Armed(BooksOf(s));
  }

  lemma RewriteNulls(s: State, w: nat, read: u64)
    requires Inv(s) && NullFree(s) && CanRewrite(s, w)
    ensures NullFree(RewrittenBy(s, w, read))
  {
    hide Sum, Pending, BooksGood, Timers.Valid;
    var t, s' := s.workers[w].temp[0], RewrittenBy(s, w, read);
    var b, b' := BooksOf(s), BooksOf(s');
    RewriteMoves(s, w, read);
    assert t in Armed(b);
    assert Armed(b') <= Armed(b);
    if !s.timers.recs[t].recurring {
      OutOfReach(s.timers, b, b', t);
    }
    FewerArmed(s.timers, s'.timers, Armed(b), Armed(b'));
  }

  lemma OutOfReach(ts: TimerSet<Job, Job>, b: Books, b': Books, t: Job)
    requires TimersOk(ts, b.draining + b.held) && b.stored == multiset(ts.order) == b'.stored
    requires b.draining == b'.draining + multiset{t} && b'.held == b.held
    ensures t !in Armed(b')
  {
    assert multiset(ts.order)[t] + (b.draining + b.held)[t] <= 1;
  }

  lemma RestoreNulls(s: State, w: nat)
    requires Inv(s) && NullFree(s) && CanRestore(s, w)
    ensures NullFree(RestoredBy(s, w))
  {
    hide Sum, Pending, BooksGood, Insert, Increasing, Deadlines;
    var t, s' := s.workers[w].held.value, RestoredBy(s, w);
    var b, b' := BooksOf(s), BooksOf(s');
    RestoreMoves(s, w);
    RestoredAdds(s.timers, b, t);
    assert Armed(b') <= Armed(b);
    FewerArmed(s.timers, s'.timers, Armed(b), Armed(b'));
  }

  lemma BatchNulls(s: State, w: nat)
    requires NullFree(s) && CanBatch(s, w)
    ensures NullFree(BatchedBy(s, w))
  {
    hide Sum, Pending, Fill;
    BatchMoves(s, w);
    LiveAndNulls(s.workers[w].obs);
    assert Armed(BooksOf(BatchedBy(s, w))) == Armed(BooksOf(s));
  }

  /** Actions that touch no timer, and make no list. */
  lemma OtherNulls(s: State, s': State)
    requires NullFree(s) && s'.timers == s.timers && Armed(BooksOf(s')) == Armed(BooksOf(s))
    requires forall w | 0 <= w < |s'.workers| && s'.workers[w].Idle? :: w < |s.workers| && s'.workers[w] == s.workers[w]
    ensures NullFree(s') <==> s'.nulls == 0
  {
  }

  lemma ClaimNulls(s: State, w: nat)
    requires NullFree(s) && w < |s.workers| && s.workers[w].Top?
    ensures NullFree(ClaimedIn(s, w))
  {
    hide ArmedLive, ListsLive, BooksOf;
    ClaimMoves(s, w);
    OtherNulls(s, ClaimedIn(s, w));
  }

  lemma CompleteNulls(s: State, w: nat)
    requires NullFree(s) && w < |s.workers| && s.workers[w].Running?
    ensures NullFree(CompletedBy(s, w))
  {
    hide ArmedLive, ListsLive, BooksOf;
    CompleteMoves(s, w);
    OtherNulls(s, CompletedBy(s, w));
  }

  lemma QuietNulls(s: State, a: Action)
    requires NullFree(s) && Enabled(s, a) && Quiet(a)
    ensures NullFree(Step(s, a))
  {
    hide BooksOf;
    QuietBooks(s, a);
    OtherNulls(s, Step(s, a));
  }

  /** A null callback comes up exactly in these four ways; no other action of the loop or its
      users makes one. */
  lemma NullsNeedACause(s: State, a: Action)
    requires Inv(s) && NullFree(s) && Enabled(s, a)
    ensures NullFree(Step(s, a)) <==> !MakesNull(s, a)
  {
    hide NullFree, BooksOf, TimersOk, Passed, OnceOk, BooksGood, Timers.Valid, Taken, WithTimers, AddedTimer, DrainedBy,
         RewrittenBy, RestoredBy, BatchedBy, Enqueued, UserBatched, ClaimedIn, CompletedBy;
    SetIsValid(s);
    match a
    case AddTimer(n, live, gap, recurring, read) => AddTimerNulls(s, Fire(n), live, gap, recurring, read);
    case Cancel(t) => CancelNulls(s, t);
    case Refresh(t, read) => RefreshNulls(s, t, read);
    case ResetGap(t, gap, fromNow, read) => ResetGapNulls(s, t, gap, fromNow, read);
    case Reset(t) => ResetNulls(s, t);
    case Drain(w, read) => DrainNulls(s, w, read);
    case Rewrite(w, read) => RewriteNulls(s, w, read);
    case Restore(w) => RestoreNulls(s, w);
    case BatchEnqueue(w) => BatchNulls(s, w);
    case Claim(w) => ClaimNulls(s, w);
    case Complete(w) => CompleteNulls(s, w);
    case UserBatch(cbs) => UserBatchNulls(s, cbs);
    case Enqueue(call, live, thread) => EnqueueNulls(s, if live then Some(Direct(call)) else None, thread);
    case _ => QuietNulls(s, a);
  }

  lemma SetIsValid(s: State)
    requires Inv(s)
    ensures Timers.Valid(s.timers)
  {
  }

  lemma EnqueueNulls(s: State, cb: Option<Job>, thread: int)
    requires NullFree(s) && s.passed > 0
    ensures NullFree(Enqueued(s, cb, thread)) <==> cb.Some?
  {
    hide Sum, Pending, Put;
    OtherNulls(s, Enqueued(s, cb, thread));
  }

  lemma UserBatchNulls(s: State, cbs: seq<Option<Job>>)
    requires NullFree(s)
    ensures NullFree(UserBatched(s, cbs)) <==> AllLive(cbs)
  {
    hide Sum, Pending, Fill, Live;
    LiveAndNulls(cbs);
    OtherNulls(s, UserBatched(s, cbs));
  }

  ghost predicate NeverMakesNull(s: State, acts: seq<Action>)
    decreases |acts|
  {
    acts == [] || (Enabled(s, acts[0]) && !MakesNull(s, acts[0]) && NeverMakesNull(Step(s, acts[0]), acts[1..]))
  }

  /** In every run in which none of the four happens every callback that reaches the task vector
      is non-null, so `task_number` then counts real work only. */
  lemma {:induction false} NoNullsWithoutCause(s: State, acts: seq<Action>, s': State)
    requires Inv(s) && NullFree(s) && Run(s, acts, s') && NeverMakesNull(s, acts)
    ensures NullFree(s') && s'.taskNumber == |Pending(s'.slots)| + |Sum(s'.workers, RunOf)|
    decreases |acts|
  {
    if acts != [] {
      hide NullFree, Inv, MakesNull;
      NullsNeedACause(s, acts[0]);
      StepKeepsInv(s, acts[0]);
      NoNullsWithoutCause(Step(s, acts[0]), acts[1..], s');
    }
  }

  /** After a null callback has been enqueued no worker ever leaves again: the count it
      added is never taken down. */
  lemma {:induction false} NullsBlockLeaving(s: State, acts: seq<Action>, s': State)
    requires Inv(s) && s.nulls > 0 && Run(s, acts, s')
    ensures s'.nulls >= s.nulls && |s'.workers| == |s.workers|
    ensures forall w | 0 <= w < |s.workers| :: s'.workers[w].Exited? ==> s.workers[w].Exited?
    decreases |acts|
  {
    if acts != [] {
      var next := Step(s, acts[0]);
      StepKeepsInv(s, acts[0]);
      NullsGrow(s, acts[0]);
      CountIsPositive(s);
      forall w | 0 <= w < |s.workers| ensures next.workers[w].Exited? ==> s.workers[w].Exited? {
        LeavingIsATest(s, acts[0], w);
      }
      NullsBlockLeaving(next, acts[1..], s');
    }
  }

  lemma CountIsPositive(s: State)
    requires Inv(s) && s.nulls > 0
    ensures s.taskNumber > 0
  {
  }

  lemma NullsGrow(s: State, a: Action)
    requires Enabled(s, a)
    ensures Step(s, a).nulls >= s.nulls && |Step(s, a).workers| == |s.workers|
  {
  }

  /** A worker leaves only by its own exit test. */
  lemma LeavingIsATest(s: State, a: Action, w: nat)
    requires Enabled(s, a) && w < |s.workers| && |Step(s, a).workers| == |s.workers|
    ensures Step(s, a).workers[w].Exited? && !s.workers[w].Exited? ==> a == ExitTest(w) && MayLeave(s)
  {
  }
}
