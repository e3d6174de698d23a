/** The event loop as a transition system: the timer set, the task vector and the workers of
    `Schedule::run` and `IOmanager::idle`. One action is one locked region of the source, or
    one unlocked step that another thread can come after. */
module EventLoop {
  import opened Wrappers
  import opened TaskQueue
  import opened Timers

  /** A callback is known by the timer it was armed with or by the call that scheduled it. */
  datatype Job = Fire(timer: nat) | Direct(call: nat)

  /** Where a worker is: before the claim, running a callback, before the exit test; resumed in
      `idle` before its test; in `idle` with the clock read at the latest when it entered the pass,
      before the drain; after it, with the drained timers still to re-arm, the callbacks collected
      so far and perhaps one timer rewritten but not yet stored again; or gone. */
  datatype Worker =
    | Top
    | Running(job: Job)
    | Foot
    | Wake
    | Polling(since: u64)
    | Idle(temp: seq<Job>, obs: seq<Option<Job>>, held: Option<Job>)
    | Exited

  /** A pass with nothing left to do. */
  const DONE: Worker := Idle([], [], None)

  datatype State = State(
    now: u64,
    timers: TimerSet<Job, Job>,
    slots: seq<Slot<Job>>,
    taskNumber: int,
    stopping: bool,
    passed: nat,               // callers of `schedule` between its test and its lock
    workers: seq<Worker>,
    // history
    accepted: multiset<Job>,   // armings stored in the timer set and calls enqueued
    enqueued: multiset<Job>,   // callbacks put into the task vector
    finished: multiset<Job>,   // callbacks that have run
    dropped: multiset<Job>,    // armings that left the set without expiring, or were cleared
    nulls: nat,                // null callbacks enqueued
    once: set<Job>             // timers created as one-shot
  )

  /** `live` says whether a user's callback is non-null; `UserBatch` is the batch `schedule` called
      from outside the loop, which tests nothing. */
  datatype Action =
    | Tick(to: u64)
    | AddTimer(timer: nat, live: bool, gap: u64, recurring: bool, read: u64)
    | Cancel(t: Job)
    | Refresh(t: Job, read: u64)
    | ResetGap(t: Job, gap: u64, fromNow: bool, read: u64)
    | Reset(t: Job)
    | Drain(w: nat, read: u64)
    | Rewrite(w: nat, read: u64)
    | Restore(w: nat)
    | BatchEnqueue(w: nat)
    | Yield(w: nat)
    | CheckStopping
    | Enqueue(call: nat, live: bool, thread: int)
    | UserBatch(cbs: seq<Option<Job>>)
    | Claim(w: nat)
    | Complete(w: nat)
    | ExitTest(w: nat)
    | WakeTest(w: nat)
    | Stop

  ghost predicate Attached(s: State, t: Job) {
    t in s.timers.recs && s.timers.recs[t].attached
  }

  ghost predicate Idles(s: State, w: nat) {
    w < |s.workers| && s.workers[w].Idle?
  }

  ghost predicate Polls(s: State, w: nat) {
    w < |s.workers| && s.workers[w].Polling?
  }

  ghost predicate CanRewrite(s: State, w: nat) {
    Idles(s, w) && s.workers[w].held.None? && s.workers[w].temp != [] && s.workers[w].temp[0] in s.timers.recs
  }

  ghost predicate CanRestore(s: State, w: nat) {
    Idles(s, w) && s.workers[w].held.Some? && s.workers[w].held.value in s.timers.recs
  }

  ghost predicate CanBatch(s: State, w: nat) {
    Idles(s, w) && s.workers[w].held.None? && s.workers[w].temp == []
  }

  ghost predicate AllDirect(cbs: seq<Option<Job>>) {
    forall i | 0 <= i < |cbs| && cbs[i].Some? :: cbs[i].value.Direct?
  }

  ghost predicate Enabled(s: State, a: Action) {
    && Known(s.timers)
    && match a
       case Tick(to) => s.now <= to
       case AddTimer(n, live, gap, recurring, read) => Fire(n) !in s.timers.recs && read <= s.now
       case Cancel(t) => Attached(s, t)
       case Refresh(t, read) => Attached(s, t) && read <= s.now
       case ResetGap(t, gap, fromNow, read) => Attached(s, t) && read <= s.now
       case Reset(t) => Attached(s, t)
       case Drain(w, read) => Polls(s, w) && s.workers[w].since <= read <= s.now
       case Rewrite(w, read) => CanRewrite(s, w) && read <= s.now
       case Restore(w) => CanRestore(s, w)
       case BatchEnqueue(w) => CanBatch(s, w) && s.workers[w].obs != []
       case Yield(w) => w < |s.workers| && s.workers[w] == DONE
       case CheckStopping => !s.stopping
       case Enqueue(call, live, thread) => s.passed > 0
       case UserBatch(cbs) => AllDirect(cbs)
       case Claim(w) => w < |s.workers| && s.workers[w].Top?
       case Complete(w) => w < |s.workers| && s.workers[w].Running?
       case ExitTest(w) => w < |s.workers| && s.workers[w].Foot?
       case WakeTest(w) => w < |s.workers| && s.workers[w].Wake?
       case Stop => true
  }

  /** The timer set after an operation by a user; the armings that leave it are dropped. */
  ghost function WithTimers(s: State, ts: TimerSet<Job, Job>): State {
    s.(timers := ts, dropped := s.dropped + (multiset(s.timers.order) - multiset(ts.order)))
  }

  /** The worker after its claim: running the callback in the lowest busy slot, if any. */
  ghost function ClaimedBy(slots: seq<Slot<Job>>): Worker {
    var k := FirstBusy(slots);
    if k < |slots| then Running(slots[k].cb.value) else Foot
  }

  /** The timer set after an insertion; the arming, if it was stored, is accepted. */
  ghost function WithMore(s: State, ts: TimerSet<Job, Job>): State {
    s.(timers := ts, accepted := s.accepted + (multiset(ts.order) - multiset(s.timers.order)))
  }

  ghost function AddedTimer(s: State, t: Job, live: bool, gap: u64, recurring: bool, read: u64): State
    requires Known(s.timers) && t !in s.timers.recs
  {
    WithMore(s, Added(s.timers, t, gap, if live then Some(t) else None, recurring, read))
      .(once := if recurring then s.once else s.once + {t})
  }

  /** The locked part of `GetExpiredCb`. */
  ghost function DrainedBy(s: State, w: nat, read: u64): State
    requires Known(s.timers) && Polls(s, w)
  {
    var batch := s.timers.order[..DueCount(s.timers, read)];
    s.(timers := Drained(s.timers, read), workers := s.workers[w := Idle(batch, [], None)])
  }

  /** The unlocked part of one round of its loop: the callback is copied and the timer's fields are
      rewritten; a recurring timer is then in the worker's hand. */
  ghost function RewrittenBy(s: State, w: nat, read: u64): State
    requires CanRewrite(s, w)
  {
    var Idle(temp, obs, _) := s.workers[w];
    var t, r := temp[0], s.timers.recs[temp[0]];
    s.(timers := Rewritten(s.timers, t, read),
       workers := s.workers[w := Idle(temp[1..], obs + [r.cb], if r.recurring then Some(t) else None)],
       dropped := if r.cb.Some? then s.dropped else s.dropped + multiset{t})
  }

  /** The locked part, `addTimer` on the timer in hand. */
  ghost function RestoredBy(s: State, w: nat): State
    requires Known(s.timers) && CanRestore(s, w)
  {
    var Idle(temp, obs, held) := s.workers[w];
    WithMore(s, Insert(s.timers, held.value)).(workers := s.workers[w := Idle(temp, obs, None)])
  }

  /** The batch `schedule` of the collected callbacks. */
  ghost function BatchedBy(s: State, w: nat): State
    requires Idles(s, w)
  {
    var obs := s.workers[w].obs;
    s.(slots := Fill(s.slots, obs), taskNumber := s.taskNumber + |obs|, workers := s.workers[w := DONE],
       enqueued := s.enqueued + Live(obs), nulls := s.nulls + Nulls(obs))
  }

  ghost function Bag(cb: Option<Job>): multiset<Job> {
    if cb.Some? then multiset{cb.value} else multiset{}
  }

  ghost function Enqueued(s: State, cb: Option<Job>, thread: int): State
    requires s.passed > 0
  {
    s.(slots := Put(s.slots, Slot(cb, thread)), taskNumber := s.taskNumber + 1, passed := s.passed - 1,
       accepted := s.accepted + Bag(cb), enqueued := s.enqueued + Bag(cb),
       nulls := if cb.Some? then s.nulls else s.nulls + 1)
  }

  ghost function UserBatched(s: State, cbs: seq<Option<Job>>): State {
    s.(slots := Fill(s.slots, cbs), taskNumber := s.taskNumber + |cbs|, accepted := s.accepted + Live(cbs),
       enqueued := s.enqueued + Live(cbs), nulls := s.nulls + Nulls(cbs))
  }

  ghost function ClaimedIn(s: State, w: nat): State
    requires w < |s.workers|
  {
    s.(slots := Take(s.slots), workers := s.workers[w := ClaimedBy(s.slots)])
  }

  ghost function CompletedBy(s: State, w: nat): State
    requires w < |s.workers| && s.workers[w].Running?
  {
    s.(taskNumber := s.taskNumber - 1, workers := s.workers[w := Foot],
       finished := s.finished + multiset{s.workers[w].job})
  }

  ghost predicate MayLeave(s: State) {
    s.stopping && s.taskNumber == 0
  }

  ghost function Step(s: State, a: Action): State
    requires Enabled(s, a)
  {
    match a
    case Tick(to) => s.(now := to)
    case AddTimer(n, live, gap, recurring, read) => AddedTimer(s, Fire(n), live, gap, recurring, read)
    case Cancel(t) => WithTimers(s, Cancelled(s.timers, t))
    case Refresh(t, read) => WithTimers(s, Refreshed(s.timers, t, read))
    case ResetGap(t, gap, fromNow, read) => WithTimers(s, Regapped(s.timers, t, gap, fromNow, read))
    case Reset(t) => WithTimers(s, Disarmed(s.timers, t))
    case Drain(w, read) => DrainedBy(s, w, read)
    case Rewrite(w, read) => RewrittenBy(s, w, read)
    case Restore(w) => RestoredBy(s, w)
    case BatchEnqueue(w) => BatchedBy(s, w)
    case Yield(w) => s.(workers := s.workers[w := Top])
    case CheckStopping => s.(passed := s.passed + 1)
    case Enqueue(call, live, thread) => Enqueued(s, if live then Some(Direct(call)) else None, thread)
    case UserBatch(cbs) => UserBatched(s, cbs)
    case Claim(w) => ClaimedIn(s, w)
    case Complete(w) => CompletedBy(s, w)
    case ExitTest(w) => s.(workers := s.workers[w := if MayLeave(s) then Exited else Wake])
    case WakeTest(w) => s.(workers := s.workers[w := if MayLeave(s) then Top else Polling(s.now)])
    case Stop => s.(stopping := true)
  }

  /** Making the coroutine of `idle` enters it, so every worker begins with a pass. */
  ghost predicate Init(s: State) {
    && s.timers == NoTimers() && s.slots == [] && s.taskNumber == 0 && !s.stopping && s.passed == 0
    && (forall w | 0 <= w < |s.workers| :: s.workers[w] == Polling(s.now))
    && s.accepted == s.enqueued == s.finished == s.dropped == multiset{} && s.nulls == 0 && s.once == {}
  }

  /** `acts` can be taken in this order from `s`, and lead to `s'`. */
  ghost predicate Run(s: State, acts: seq<Action>, s': State)
    decreases |acts|
  {
    if acts == [] then s == s' else Enabled(s, acts[0]) && Run(Step(s, acts[0]), acts[1..], s')
  }

  ghost predicate Reachable(s: State) {
    exists s0, acts :: Init(s0) && Run(s0, acts, s)
  }

  // ---------------------------------------------------------------- where jobs are

  ghost function TempOf(w: Worker): multiset<Job> {
    if w.Idle? then multiset(w.temp) else multiset{}
  }

  ghost function ObsOf(w: Worker): multiset<Job> {
    if w.Idle? then Live(w.obs) else multiset{}
  }

  ghost function HeldOf(w: Worker): multiset<Job> {
    if w.Idle? then Bag(w.held) else multiset{}
  }

  ghost function RunOf(w: Worker): multiset<Job> {
    if w.Running? then multiset{w.job} else multiset{}
  }

  ghost function Sum(ws: seq<Worker>, f: Worker -> multiset<Job>): multiset<Job> {
    if ws == [] then multiset{} else f(ws[0]) + Sum(ws[1..], f)
  }

  lemma {:induction false} SumUpdate(ws: seq<Worker>, i: nat, w: Worker, f: Worker -> multiset<Job>)
    requires i < |ws|
    ensures Sum(ws[i := w], f) + f(ws[i]) == Sum(ws, f) + f(w)
  {
    var ws' := ws[i := w];
    if i == 0 {
      assert ws'[1..] == ws[1..];
    } else {
      SumUpdate(ws[1..], i - 1, w, f);
      assert ws'[1..] == ws[1..][i - 1 := w];
      var first, rest, rest' := f(ws[0]), Sum(ws[1..], f), Sum(ws'[1..], f);
      assert first + rest' + f(ws[i]) == first + (rest' + f(ws[i]));
      assert first + rest + f(w) == first + (rest + f(w));
    }
  }

  lemma {:induction false} SumEmpty(ws: seq<Worker>, f: Worker -> multiset<Job>)
    ensures Sum(ws, f) == multiset{} <==> forall i | 0 <= i < |ws| :: f(ws[i]) == multiset{}
  {
    if ws != [] {
      SumEmpty(ws[1..], f);
      assert forall i | 0 <= i < |ws| - 1 :: ws[1..][i] == ws[i + 1];
      if Sum(ws, f) == multiset{} {
        assert |f(ws[0])| + |Sum(ws[1..], f)| == 0;
      }
    }
  }

  /** What is where: accepted armings and calls, and the places they can be in. A timer in a
      worker's hand is between two armings and counts in neither. */
  datatype Books = Books(
    accepted: multiset<Job>,
    stored: multiset<Job>,     // in the timer set
    draining: multiset<Job>,   // drained, callback not yet copied
    held: multiset<Job>,       // rewritten, not yet stored again
    collected: multiset<Job>,  // in a worker's list of callbacks
    pending: multiset<Job>,    // in a task slot
    inHand: multiset<Job>,     // claimed and not completed
    finished: multiset<Job>,
    dropped: multiset<Job>
  )

  ghost function BooksOf(s: State): Books {
    Books(s.accepted, multiset(s.timers.order), Sum(s.workers, TempOf), Sum(s.workers, HeldOf), Sum(s.workers, ObsOf),
          Pending(s.slots), Sum(s.workers, RunOf), s.finished, s.dropped)
  }

  // ---------------------------------------------------------------- invariants

  /** Every accepted arming and call is in exactly one place. */
  ghost predicate Conserved(b: Books) {
    forall j :: b.accepted[j] == b.stored[j] + b.draining[j] + b.collected[j] + b.pending[j] + b.inHand[j]
                                 + b.finished[j] + b.dropped[j]
  }

  /** `task_number` counts the waiting and the running callbacks, and the null ones. */
  ghost predicate Counted(b: Books, enqueued: multiset<Job>, taskNumber: int, nulls: nat) {
    && taskNumber == |b.pending| + |b.inHand| + nulls
    && enqueued == b.pending + b.inHand + b.finished
  }

  /** The timer set is in order, and every timer outside it that a worker still has, `apart`, is
      there once. */
  ghost predicate TimersOk(ts: TimerSet<Job, Job>, apart: multiset<Job>) {
    && Timers.Valid(ts)
    && (forall t | t in ts.recs :: t.Fire? && ts.recs[t].cb in {None, Some(t)})
    && (forall t :: multiset(ts.order)[t] + apart[t] <= 1)
    && (forall t | t in apart :: t in ts.recs)
  }

  /** Drained timers have passed their deadlines. */
  ghost predicate Passed(ts: TimerSet<Job, Job>, draining: multiset<Job>, now: u64) {
    forall t | t in draining :: t in ts.recs && ts.recs[t].next <= now
  }

  /** A one-shot timer is accepted at most once and never stored again; a timer not yet made is
      never accepted. */
  ghost predicate OnceOk(ts: TimerSet<Job, Job>, accepted: multiset<Job>, once: set<Job>, held: multiset<Job>) {
    && (forall t | t in once :: t in ts.recs && !ts.recs[t].recurring && accepted[t] <= 1 && t !in held)
    && (forall t: Job | t.Fire? && t !in ts.recs :: t !in accepted)
  }

  ghost predicate BooksGood(b: Books, enqueued: multiset<Job>, taskNumber: int, nulls: nat) {
    Conserved(b) && Counted(b, enqueued, taskNumber, nulls)
  }

  ghost predicate TimersGood(ts: TimerSet<Job, Job>, b: Books, now: u64, once: set<Job>) {
    TimersOk(ts, b.draining + b.held) && Passed(ts, b.draining, now) && OnceOk(ts, b.accepted, once, b.held)
  }

  ghost predicate Inv(s: State) {
    BooksGood(BooksOf(s), s.enqueued, s.taskNumber, s.nulls) && TimersGood(s.timers, BooksOf(s), s.now, s.once)
  }

  lemma InitInv(s: State)
    requires Init(s)
    ensures Inv(s)
  {
    InitBooks(s);
    hide BooksOf;
  }

  lemma InitBooks(s: State)
    requires Init(s)
    ensures var none: multiset<Job> := multiset{}; BooksOf(s) == Books(none, none, none, none, none, none, none, none, none)
  {
    SumEmpty(s.workers, TempOf);
    SumEmpty(s.workers, ObsOf);
    SumEmpty(s.workers, HeldOf);
    SumEmpty(s.workers, RunOf);
  }

  // ---------------------------------------------------------------- user operations on timers

  /** An operation that takes armings out of the set, or moves them, and leaves the timers that the
      workers have as they are, except for clearing one. */
  ghost predicate UserOp(before: TimerSet<Job, Job>, ts: TimerSet<Job, Job>, apart: multiset<Job>) {
    && TimersOk(ts, apart) && ts.recs.Keys == before.recs.Keys
    && multiset(ts.order) <= multiset(before.order)
    && (forall t | t in ts.recs :: ts.recs[t].recurring ==> before.recs[t].recurring)
    && (forall t | t in apart :: ts.recs[t].next <= before.recs[t].next)
  }

  lemma UserOpKeepsInv(s: State, ts: TimerSet<Job, Job>)
    requires Inv(s) && UserOp(s.timers, ts, BooksOf(s).draining + BooksOf(s).held)
    ensures Inv(WithTimers(s, ts))
  {
    hide BooksGood, TimersGood, UserOp, Sum, Pending;
    UserOpShrinks(s.timers, ts, BooksOf(s).draining + BooksOf(s).held);
    UserOpBalances(BooksOf(s), BooksOf(WithTimers(s, ts)), s.enqueued, s.taskNumber, s.nulls);
    UserOpTimers(s.timers, ts, BooksOf(s), BooksOf(WithTimers(s, ts)), s.now, s.once);
  }

  lemma UserOpShrinks(before: TimerSet<Job, Job>, ts: TimerSet<Job, Job>, apart: multiset<Job>)
    requires UserOp(before, ts, apart)
    ensures multiset(ts.order) <= multiset(before.order)
  {
  }

  lemma UserOpBalances(b: Books, b': Books, enqueued: multiset<Job>, taskNumber: int, nulls: nat)
    requires BooksGood(b, enqueued, taskNumber, nulls) && b'.stored <= b.stored
    requires b' == b.(stored := b'.stored, dropped := b.dropped + (b.stored - b'.stored))
    ensures BooksGood(b', enqueued, taskNumber, nulls)
  {
  }

  lemma UserOpTimers(before: TimerSet<Job, Job>, ts: TimerSet<Job, Job>, b: Books, b': Books, now: u64, once: set<Job>)
    requires TimersGood(before, b, now, once) && UserOp(before, ts, b.draining + b.held)
    requires b'.draining == b.draining && b'.held == b.held && b'.accepted == b.accepted
    ensures TimersGood(ts, b', now, once)
  {
    hide TimersOk;
    assert forall t | t in b.draining :: t in b.draining + b.held;
  }

  lemma MovedIsUserOp(ts: TimerSet<Job, Job>, apart: multiset<Job>, k: nat, gap: u64, next: u64)
    requires TimersOk(ts, apart) && k < |ts.order|
    ensures UserOp(ts, Moved(ts, k, gap, next), apart)
  {
    var x, r := ts.order[k], Moved(ts, k, gap, next);
    MovedKeepsValid(ts, k, gap, next);
    assert x in multiset(ts.order);
    assert multiset(ts.order)[x] + apart[x] <= 1;
    assert x !in apart;
    assert x in ts.recs;
  }

  lemma CancelledIsUserOp(ts: TimerSet<Job, Job>, apart: multiset<Job>, t: Job)
    requires TimersOk(ts, apart) && t in ts.recs
    ensures UserOp(ts, Cancelled(ts, t), apart)
  {
    if Found(ts, t) < |ts.order| {
      EraseKeepsValid(ts, Found(ts, t));
    }
  }

  lemma DisarmedIsUserOp(ts: TimerSet<Job, Job>, apart: multiset<Job>, t: Job)
    requires TimersOk(ts, apart) && t in ts.recs
    ensures UserOp(ts, Disarmed(ts, t), apart)
  {
    CancelledIsUserOp(ts, apart, t);
    DisarmedKeepsValid(ts, t);
  }

  lemma RefreshedIsUserOp(ts: TimerSet<Job, Job>, apart: multiset<Job>, t: Job, read: u64)
    requires TimersOk(ts, apart) && t in ts.recs
    ensures UserOp(ts, Refreshed(ts, t, read), apart)
  {
    hide Moved, UserOp;
    var k := Found(ts, t);
    if k < |ts.order| {
      MovedIsUserOp(ts, apart, k, ts.recs[ts.order[k]].gap, Add64(read, ts.recs[t].gap));
    } else {
      NothingIsUserOp(ts, apart);
    }
  }

  lemma NothingIsUserOp(ts: TimerSet<Job, Job>, apart: multiset<Job>)
    requires TimersOk(ts, apart)
    ensures UserOp(ts, ts, apart)
  {
  }

  lemma RegappedIsUserOp(ts: TimerSet<Job, Job>, apart: multiset<Job>, t: Job, gap: u64, fromNow: bool, read: u64)
    requires TimersOk(ts, apart) && t in ts.recs
    ensures UserOp(ts, Regapped(ts, t, gap, fromNow, read), apart)
  {
    hide Moved, UserOp;
    var k := Found(ts, t);
    if k < |ts.order| {
      MovedIsUserOp(ts, apart, k, gap, if fromNow then Add64(read, gap) else Sub64(ts.recs[ts.order[k]].next, gap));
    } else {
      NothingIsUserOp(ts, apart);
    }
  }

  lemma UserKeepsInv(s: State, a: Action)
    requires Inv(s) && Enabled(s, a) && (a.Cancel? || a.Refresh? || a.ResetGap? || a.Reset?)
    ensures Inv(Step(s, a))
  {
    hide Inv, UserOp, Cancelled, Refreshed, Regapped, Disarmed, Sum, Pending;
    var ts, apart := s.timers, BooksOf(s).draining + BooksOf(s).held;
    TimersAreOk(s);
    match a {
      case Cancel(t) =>
        CancelledIsUserOp(ts, apart, t);
        UserOpKeepsInv(s, Cancelled(ts, t));
      case Refresh(t, read) =>
        RefreshedIsUserOp(ts, apart, t, read);
        UserOpKeepsInv(s, Refreshed(ts, t, read));
      case ResetGap(t, gap, fromNow, read) =>
        RegappedIsUserOp(ts, apart, t, gap, fromNow, read);
        UserOpKeepsInv(s, Regapped(ts, t, gap, fromNow, read));
      case Reset(t) =>
        DisarmedIsUserOp(ts, apart, t);
        UserOpKeepsInv(s, Disarmed(ts, t));
    }
  }

  lemma TimersAreOk(s: State)
    requires Inv(s)
    ensures TimersOk(s.timers, BooksOf(s).draining + BooksOf(s).held)
  {
  }

  // ---------------------------------------------------------------- timers that may become stored

  /** What is left to check of `TimersOk` when only timer `t` may have become stored. */
  lemma StoredOrApart(ts: TimerSet<Job, Job>, apart: multiset<Job>, r: TimerSet<Job, Job>, apart': multiset<Job>, t: Job)
    requires TimersOk(ts, apart) && Timers.Valid(r) && t.Fire?
    requires apart' <= apart && t !in apart' && t !in multiset(ts.order)
    requires multiset(r.order) <= multiset(ts.order) + multiset{t}
    requires r.recs.Keys == ts.recs.Keys + {t} && r.recs[t].cb in {None, Some(t)}
    requires forall x | x in ts.recs && x != t :: r.recs[x] == ts.recs[x]
    ensures TimersOk(r, apart')
  {
    hide Timers.Valid;
    forall x ensures multiset(r.order)[x] + apart'[x] <= 1 {
      assert multiset(ts.order)[x] + apart[x] <= 1;
      assert multiset(r.order)[x] <= multiset(ts.order)[x] + multiset{t}[x];
      assert apart'[x] <= apart[x];
    }
  }

  lemma NewIsNowhere(ts: TimerSet<Job, Job>, apart: multiset<Job>, t: Job)
    requires TimersOk(ts, apart) && t !in ts.recs
    ensures t !in apart && t !in multiset(ts.order)
  {
  }

  /** `ts` is the timer set with the new timer `t`, which may have been stored. */
  ghost predicate GrownBy(before: TimerSet<Job, Job>, ts: TimerSet<Job, Job>, t: Job, recurring: bool) {
    && Timers.Valid(ts) && t !in before.recs && t.Fire?
    && ts.recs.Keys == before.recs.Keys + {t} && ts.recs[t].cb in {None, Some(t)}
    && ts.recs[t].recurring == recurring
    && (forall x | x in before.recs :: ts.recs[x] == before.recs[x])
    && multiset(before.order) <= multiset(ts.order) <= multiset(before.order) + multiset{t}
  }

  lemma AddedGrows(ts: TimerSet<Job, Job>, t: Job, live: bool, gap: u64, recurring: bool, read: u64)
    requires Timers.Valid(ts) && t.Fire? && t !in ts.recs
    ensures GrownBy(ts, Added(ts, t, gap, if live then Some(t) else None, recurring, read), t, recurring)
  {
    AddedKeepsValid(ts, t, gap, if live then Some(t) else None, recurring, read);
  }

  lemma AddTimerKeepsInv(s: State, t: Job, live: bool, gap: u64, recurring: bool, read: u64)
    requires Inv(s) && t.Fire? && t !in s.timers.recs
    ensures Inv(AddedTimer(s, t, live, gap, recurring, read))
  {
    hide Added, Sum, Pending;
    AddedGrows(s.timers, t, live, gap, recurring, read);
    GrowthKeepsInv(s, Added(s.timers, t, gap, if live then Some(t) else None, recurring, read), t, recurring);
  }

  lemma GrowthKeepsInv(s: State, ts: TimerSet<Job, Job>, t: Job, recurring: bool)
    requires Inv(s) && GrownBy(s.timers, ts, t, recurring)
    ensures Inv(WithMore(s, ts).(once := if recurring then s.once else s.once + {t}))
  {
    hide BooksGood, TimersGood, GrownBy, Sum, Pending;
    var s' := WithMore(s, ts).(once := if recurring then s.once else s.once + {t});
    GrowthIsOne(s.timers, ts, t, recurring);
    InflowBalances(BooksOf(s), BooksOf(s'), t, s.enqueued, s.taskNumber, s.nulls);
    GrowthTimers(s.timers, ts, t, recurring, BooksOf(s), BooksOf(s'), s.now, s.once);
  }

  lemma GrowthIsOne(before: TimerSet<Job, Job>, ts: TimerSet<Job, Job>, t: Job, recurring: bool)
    requires GrownBy(before, ts, t, recurring)
    ensures multiset(before.order) <= multiset(ts.order) <= multiset(before.order) + multiset{t}
  {
  }

  lemma InflowBalances(b: Books, b': Books, t: Job, enqueued: multiset<Job>, taskNumber: int, nulls: nat)
    requires BooksGood(b, enqueued, taskNumber, nulls) && b.stored <= b'.stored <= b.stored + multiset{t}
    requires b' == b.(accepted := b.accepted + (b'.stored - b.stored), stored := b'.stored, held := b'.held)
    ensures BooksGood(b', enqueued, taskNumber, nulls) && b.accepted <= b'.accepted <= b.accepted + multiset{t}
  {
  }

  lemma GrowthTimers(before: TimerSet<Job, Job>, ts: TimerSet<Job, Job>, t: Job, recurring: bool, b: Books, b': Books,
                     now: u64, once: set<Job>)
    requires TimersGood(before, b, now, once) && GrownBy(before, ts, t, recurring)
    requires b'.draining == b.draining && b'.held == b.held && b.accepted <= b'.accepted <= b.accepted + multiset{t}
    ensures TimersGood(ts, b', now, if recurring then once else once + {t})
  {
    hide TimersOk, Timers.Valid;
    var apart := b.draining + b.held;
    GrownIsOk(before, ts, t, recurring, apart);
    AcceptedOnce(before, ts, t, b.accepted, b'.accepted, once, b.held);
    assert forall x | x in b.draining :: x != t;
  }

  lemma GrownIsOk(before: TimerSet<Job, Job>, ts: TimerSet<Job, Job>, t: Job, recurring: bool, apart: multiset<Job>)
    requires TimersOk(before, apart) && GrownBy(before, ts, t, recurring)
    ensures TimersOk(ts, apart) && t !in apart
  {
    NewIsNowhere(before, apart, t);
    StoredOrApart(before, apart, ts, apart, t);
  }

  lemma AcceptedOnce(before: TimerSet<Job, Job>, ts: TimerSet<Job, Job>, t: Job, accepted: multiset<Job>,
                     accepted': multiset<Job>, once: set<Job>, held: multiset<Job>)
    requires OnceOk(before, accepted, once, held) && t.Fire? && t !in before.recs && t !in held
    requires accepted <= accepted' <= accepted + multiset{t}
    requires ts.recs.Keys == before.recs.Keys + {t} && forall x | x in before.recs :: ts.recs[x] == before.recs[x]
    ensures OnceOk(ts, accepted', if ts.recs[t].recurring then once else once + {t}, held)
  {
  }

  // ---------------------------------------------------------------- moves of one worker

  /** The ledgers follow when worker `i` becomes `w`. */
  lemma WorkerMoves(s: State, ws: seq<Worker>, i: nat, w: Worker)
    requires i < |s.workers| && ws == s.workers[i := w]
    ensures Sum(ws, TempOf) + TempOf(s.workers[i]) == BooksOf(s).draining + TempOf(w)
    ensures Sum(ws, ObsOf) + ObsOf(s.workers[i]) == BooksOf(s).collected + ObsOf(w)
    ensures Sum(ws, HeldOf) + HeldOf(s.workers[i]) == BooksOf(s).held + HeldOf(w)
    ensures Sum(ws, RunOf) + RunOf(s.workers[i]) == BooksOf(s).inHand + RunOf(w)
    ensures TempOf(s.workers[i]) == TempOf(w) ==> Sum(ws, TempOf) == BooksOf(s).draining
    ensures ObsOf(s.workers[i]) == ObsOf(w) ==> Sum(ws, ObsOf) == BooksOf(s).collected
    ensures HeldOf(s.workers[i]) == HeldOf(w) ==> Sum(ws, HeldOf) == BooksOf(s).held
    ensures RunOf(s.workers[i]) == RunOf(w) ==> Sum(ws, RunOf) == BooksOf(s).inHand
  {
    hide Sum, TempOf, ObsOf, HeldOf, RunOf, Pending;
    SumUpdate(s.workers, i, w, TempOf);
    SumUpdate(s.workers, i, w, ObsOf);
    SumUpdate(s.workers, i, w, HeldOf);
    SumUpdate(s.workers, i, w, RunOf);
    SameRest(Sum(ws, TempOf), BooksOf(s).draining, TempOf(w));
    SameRest(Sum(ws, ObsOf), BooksOf(s).collected, ObsOf(w));
    SameRest(Sum(ws, HeldOf), BooksOf(s).held, HeldOf(w));
    SameRest(Sum(ws, RunOf), BooksOf(s).inHand, RunOf(w));
  }

  lemma SameRest(a: multiset<Job>, b: multiset<Job>, c: multiset<Job>)
    ensures a + c == b + c ==> a == b
  {
    if a + c == b + c {
      forall j ensures a[j] == b[j] {
        assert (a + c)[j] == (b + c)[j];
      }
    }
  }

  // ---------------------------------------------------------------- the drain

  lemma DueHavePassed(ts: TimerSet<Job, Job>, read: u64, t: Job)
    requires Timers.Valid(ts) && t in ts.order[..DueCount(ts, read)]
    ensures t in ts.recs && ts.recs[t].next <= read
  {
  }

  lemma DrainedIsOk(ts: TimerSet<Job, Job>, draining: multiset<Job>, held: multiset<Job>, read: u64)
    requires TimersOk(ts, draining + held)
    ensures var batch := multiset(ts.order[..DueCount(ts, read)]);
            && TimersOk(Drained(ts, read), draining + batch + held)
            && multiset(ts.order) == batch + multiset(Drained(ts, read).order)
  {
    hide Increasing, Deadlines, DueCount;
    var batch, r := multiset(ts.order[..DueCount(ts, read)]), Drained(ts, read);
    DrainedKeepsValid(ts, read);
    SameRecs(ts, read);
    forall t ensures multiset(r.order)[t] + (draining + batch + held)[t] <= 1 {
      assert multiset(ts.order)[t] + (draining + held)[t] <= 1;
    }
    assert forall t | t in batch :: t in multiset(ts.order);
  }

  lemma SameRecs(ts: TimerSet<Job, Job>, read: u64)
    requires Known(ts)
    ensures Drained(ts, read).recs == ts.recs && forall t | t in multiset(ts.order) :: t in ts.recs
  {
  }

  lemma DrainedHavePassed(ts: TimerSet<Job, Job>, draining: multiset<Job>, now: u64, read: u64)
    requires Timers.Valid(ts) && Passed(ts, draining, now) && read <= now
    ensures Passed(Drained(ts, read), draining + multiset(ts.order[..DueCount(ts, read)]), now)
  {
    var batch := ts.order[..DueCount(ts, read)];
    forall t | t in draining + multiset(batch) ensures t in ts.recs && ts.recs[t].next <= now {
      if t !in draining {
        assert t in batch;
        DueHavePassed(ts, read, t);
      }
    }
  }

  lemma DrainTimers(ts: TimerSet<Job, Job>, b: Books, b': Books, now: u64, once: set<Job>, read: u64)
    requires TimersGood(ts, b, now, once) && read <= now
    requires b'.draining == b.draining + multiset(ts.order[..DueCount(ts, read)])
    requires b'.held == b.held && b'.accepted == b.accepted
    ensures TimersGood(Drained(ts, read), b', now, once)
    ensures multiset(ts.order) == multiset(ts.order[..DueCount(ts, read)]) + multiset(Drained(ts, read).order)
  {
    hide Increasing, Deadlines, DueCount;
    DrainedIsOk(ts, b.draining, b.held, read);
    DrainedHavePassed(ts, b.draining, now, read);
  }

  lemma DrainKeepsInv(s: State, w: nat, read: u64)
    requires Inv(s) && Polls(s, w) && read <= s.now
    ensures Inv(DrainedBy(s, w, read))
  {
    hide BooksGood, Sum, Pending, Drained, TimersOk, Passed, OnceOk, DueCount;
    TimersKnown(s);
    var s' := DrainedBy(s, w, read);
    DrainMoves(s, w, read);
    DrainTimers(s.timers, BooksOf(s), BooksOf(s'), s.now, s.once, read);
    DrainBalances(BooksOf(s), BooksOf(s'), multiset(s.timers.order[..DueCount(s.timers, read)]),
                  s.enqueued, s.taskNumber, s.nulls);
  }

  lemma TimersKnown(s: State)
    requires Inv(s)
    ensures Known(s.timers)
  {
  }

  lemma DrainMoves(s: State, w: nat, read: u64)
    requires Known(s.timers) && Polls(s, w)
    ensures var s', b := DrainedBy(s, w, read), BooksOf(s);
            BooksOf(s') == b.(stored := multiset(s'.timers.order),
                              draining := b.draining + multiset(s.timers.order[..DueCount(s.timers, read)]))
  {
    hide Sum, Pending, Drained;
    var next := Idle(s.timers.order[..DueCount(s.timers, read)], [], None);
    WorkerMoves(s, s.workers[w := next], w, next);
  }

  lemma DrainBalances(b: Books, b': Books, batch: multiset<Job>, enqueued: multiset<Job>, taskNumber: int, nulls: nat)
    requires BooksGood(b, enqueued, taskNumber, nulls) && b.stored == batch + b'.stored
    requires b' == b.(stored := b'.stored, draining := b.draining + batch)
    ensures BooksGood(b', enqueued, taskNumber, nulls)
  {
  }

  // ---------------------------------------------------------------- one round of re-arming

  lemma {:induction false} LiveWithOne(obs: seq<Option<Job>>, cb: Option<Job>)
    ensures Live(obs + [cb]) == Live(obs) + Bag(cb)
  {
    if obs == [] {
      assert [cb][1..] == [] && [] + [cb] == [cb];
    } else {
      LiveWithOne(obs[1..], cb);
      BagAssoc(Bag(obs[0]), Live(obs[1..]), Bag(cb));
      assert (obs + [cb])[1..] == obs[1..] + [cb];
    }
  }

  lemma RewriteMoves(s: State, w: nat, read: u64)
    requires CanRewrite(s, w)
    ensures var b, b', t := BooksOf(s), BooksOf(RewrittenBy(s, w, read)), s.workers[w].temp[0];
            && b.draining == b'.draining + multiset{t}
            && b'.collected == b.collected + Bag(s.timers.recs[t].cb)
            && b'.held == b.held + (if s.timers.recs[t].recurring then multiset{t} else multiset{})
            && b' == b.(draining := b'.draining, held := b'.held, collected := b'.collected, dropped := b'.dropped)
  {
    hide Sum, Pending, Rewritten, Live;
    var Idle(temp, obs, _) := s.workers[w];
    var t, s' := temp[0], RewrittenBy(s, w, read);
    var r := s.timers.recs[t];
    var next := Idle(temp[1..], obs + [r.cb], if r.recurring then Some(t) else None);
    WorkerMoves(s, s'.workers, w, next);
    LiveWithOne(obs, r.cb);
    assert temp == [t] + temp[1..];
    OneMoved(BooksOf(s').draining, BooksOf(s).draining, multiset{t}, TempOf(next));
    OneMoved(BooksOf(s).collected, BooksOf(s').collected, Bag(r.cb), Live(obs));
  }

  lemma OneMoved(a: multiset<Job>, b: multiset<Job>, x: multiset<Job>, c: multiset<Job>)
    ensures a + (x + c) == b + c ==> b == a + x
    ensures b + c == a + (c + x) ==> b == a + x
  {
    assert a + (x + c) == (a + x) + c;
    assert a + (c + x) == (a + x) + c;
    SameRest(a + x, b, c);
  }

  lemma RewrittenIsOk(ts: TimerSet<Job, Job>, draining: multiset<Job>, held: multiset<Job>, now: u64, t: Job, read: u64)
    requires TimersOk(ts, draining + multiset{t} + held) && Passed(ts, draining, now) && t in ts.recs
    ensures var r := Rewritten(ts, t, read);
            && TimersOk(r, draining + held + multiset{t}) && TimersOk(r, draining + held + multiset{})
            && Passed(r, draining, now)
  {
    var apart := draining + multiset{t} + held;
    assert multiset(ts.order)[t] + apart[t] <= 1;
    assert t !in draining && t !in multiset(ts.order);
    RewrittenKeepsValid(ts, t, read);
    assert draining + held + multiset{t} == apart;
    forall x ensures multiset(ts.order)[x] + (draining + held)[x] <= 1 {
      assert multiset(ts.order)[x] + apart[x] <= 1;
    }
  }

  lemma RewriteTimers(ts: TimerSet<Job, Job>, b: Books, b': Books, now: u64, once: set<Job>, t: Job, read: u64)
    requires TimersGood(ts, b, now, once) && t in ts.recs && b'.accepted == b.accepted
    requires b.draining == b'.draining + multiset{t}
    requires b'.held == b.held + (if ts.recs[t].recurring then multiset{t} else multiset{})
    ensures TimersGood(Rewritten(ts, t, read), b', now, once)
  {
    hide TimersOk, Rewritten, OnceOk;
    var x := if ts.recs[t].recurring then multiset{t} else multiset{};
    assert b'.draining + b'.held == b'.draining + b.held + x;
    assert b.draining + b.held == b'.draining + multiset{t} + b.held;
    assert b'.draining + (b.held + multiset{t}) == b'.draining + b.held + multiset{t};
    RewrittenIsOk(ts, b'.draining, b.held, now, t, read);
    RewrittenOnce(ts, b.accepted, once, b.held, t, read);
  }

  lemma RewriteKeepsInv(s: State, w: nat, read: u64)
    requires Inv(s) && CanRewrite(s, w)
    ensures Inv(RewrittenBy(s, w, read))
  {
    hide BooksGood, TimersOk, Passed, OnceOk, Sum, Pending, Rewritten;
    var t, s' := s.workers[w].temp[0], RewrittenBy(s, w, read);
    RewriteMoves(s, w, read);
    OwnCallback(s, t);
    RewriteTimers(s.timers, BooksOf(s), BooksOf(s'), s.now, s.once, t, read);
    RewriteBalances(BooksOf(s), BooksOf(s'), t, s.timers.recs[t].cb, s.enqueued, s.taskNumber, s.nulls);
  }

  lemma OwnCallback(s: State, t: Job)
    requires Inv(s) && t in s.timers.recs
    ensures s.timers.recs[t].cb in {None, Some(t)}
  {
  }

  lemma RewriteBalances(b: Books, b': Books, t: Job, cb: Option<Job>, enqueued: multiset<Job>, taskNumber: int, nulls: nat)
    requires BooksGood(b, enqueued, taskNumber, nulls) && cb in {None, Some(t)}
    requires b' == b.(draining := b'.draining, held := b'.held, collected := b.collected + Bag(cb),
                      dropped := if cb.Some? then b.dropped else b.dropped + multiset{t})
    requires b.draining == b'.draining + multiset{t}
    ensures BooksGood(b', enqueued, taskNumber, nulls)
  {
  }

  lemma RewrittenOnce(ts: TimerSet<Job, Job>, accepted: multiset<Job>, once: set<Job>, held: multiset<Job>, t: Job, read: u64)
    requires OnceOk(ts, accepted, once, held) && t in ts.recs
    ensures OnceOk(Rewritten(ts, t, read), accepted, once,
                   held + (if ts.recs[t].recurring then multiset{t} else multiset{}))
  {
  }

  lemma RestoreMoves(s: State, w: nat)
    requires Known(s.timers) && CanRestore(s, w)
    ensures var b, b', t := BooksOf(s), BooksOf(RestoredBy(s, w)), s.workers[w].held.value;
            && b.held == b'.held + multiset{t}
            && b' == b.(accepted := b.accepted + (b'.stored - b.stored), stored := b'.stored, held := b'.held)
  {
    hide Sum, Pending, Insert, Live;
    var Idle(temp, obs, held) := s.workers[w];
    var next := Idle(temp, obs, None);
    WorkerMoves(s, s.workers[w := next], w, next);
  }

  lemma RestoredIsOk(ts: TimerSet<Job, Job>, apart: multiset<Job>, t: Job)
    requires TimersOk(ts, apart + multiset{t}) && t in ts.recs
    ensures var r := Insert(ts, t);
            && TimersOk(r, apart) && r.recs == ts.recs
            && multiset(ts.order) <= multiset(r.order) <= multiset(ts.order) + multiset{t}
  {
    var before := apart + multiset{t};
    assert multiset(ts.order)[t] + before[t] <= 1;
    assert t !in multiset(ts.order) && t !in apart;
    InsertKeepsValid(ts, t);
    StoredOrApart(ts, before, Insert(ts, t), apart, t);
  }

  lemma RestoreTimers(ts: TimerSet<Job, Job>, b: Books, b': Books, now: u64, once: set<Job>, t: Job)
    requires TimersGood(ts, b, now, once) && t in ts.recs && b'.draining == b.draining
    requires b.held == b'.held + multiset{t} && b'.accepted <= b.accepted + multiset{t}
    ensures Known(ts) && TimersGood(Insert(ts, t), b', now, once)
    ensures multiset(ts.order) <= multiset(Insert(ts, t).order) <= multiset(ts.order) + multiset{t}
  {
    hide Insert, Increasing, Deadlines;
    assert b.draining + b.held == b.draining + b'.held + multiset{t};
    RestoredIsOk(ts, b.draining + b'.held, t);
    assert t in b.held;
  }

  lemma RestoreKeepsInv(s: State, w: nat)
    requires Inv(s) && CanRestore(s, w)
    ensures Inv(RestoredBy(s, w))
  {
    hide BooksGood, TimersOk, Passed, OnceOk, Sum, Pending, Insert;
    TimersKnown(s);
    var t, s' := s.workers[w].held.value, RestoredBy(s, w);
    RestoreMoves(s, w);
    RestoredAdds(s.timers, BooksOf(s), t);
    InflowBalances(BooksOf(s), BooksOf(s'), t, s.enqueued, s.taskNumber, s.nulls);
    RestoreTimers(s.timers, BooksOf(s), BooksOf(s'), s.now, s.once, t);
  }

  lemma RestoredAdds(ts: TimerSet<Job, Job>, b: Books, t: Job)
    requires TimersOk(ts, b.draining + b.held) && t in b.held
    ensures multiset(ts.order) <= multiset(Insert(ts, t).order) <= multiset(ts.order) + multiset{t}
  {
    assert multiset(ts.order)[t] + (b.draining + b.held)[t] <= 1;
    assert t !in multiset(ts.order);
    InsertKeepsValid(ts, t);
  }

  // ---------------------------------------------------------------- the other actions

  /** The timers' invariants follow when an action leaves the timer set and the workers' timers
      alone. */
  lemma TimersUntouched(ts: TimerSet<Job, Job>, b: Books, b': Books, now: u64, now': u64, once: set<Job>)
    requires TimersGood(ts, b, now, once) && now <= now'
    requires b'.draining == b.draining && b'.held == b.held
    requires forall t: Job | t.Fire? :: b'.accepted[t] == b.accepted[t]
    ensures TimersGood(ts, b', now', once)
  {
  }

  lemma BatchKeepsInv(s: State, w: nat)
    requires Inv(s) && CanBatch(s, w)
    ensures Inv(BatchedBy(s, w))
  {
    hide BooksGood, TimersGood, Sum, Pending, Fill;
    var s' := BatchedBy(s, w);
    BatchMoves(s, w);
    LiveAndNulls(s.workers[w].obs);
    BatchBalances(BooksOf(s), BooksOf(s'), Live(s.workers[w].obs), s.enqueued, s.taskNumber, s.nulls,
                  Nulls(s.workers[w].obs));
    TimersUntouched(s.timers, BooksOf(s), BooksOf(s'), s.now, s.now, s.once);
  }

  lemma BatchMoves(s: State, w: nat)
    requires CanBatch(s, w)
    ensures var b, b', live := BooksOf(s), BooksOf(BatchedBy(s, w)), Live(s.workers[w].obs);
            b' == b.(collected := b'.collected, pending := b.pending + live) && b.collected == b'.collected + live
  {
    hide Sum, Pending, Fill;
    WorkerMoves(s, s.workers[w := DONE], w, DONE);
    FillKeepsCallbacks(s.slots, s.workers[w].obs);
  }

  lemma BatchBalances(b: Books, b': Books, live: multiset<Job>, enqueued: multiset<Job>, taskNumber: int, nulls: nat,
                      more: nat)
    requires BooksGood(b, enqueued, taskNumber, nulls)
    requires b' == b.(collected := b'.collected, pending := b.pending + live) && b.collected == b'.collected + live
    ensures BooksGood(b', enqueued + live, taskNumber + |live| + more, nulls + more)
  {
  }

  lemma EnqueueKeepsInv(s: State, cb: Option<Job>, thread: int)
    requires Inv(s) && s.passed > 0 && (cb.Some? ==> cb.value.Direct?)
    ensures Inv(Enqueued(s, cb, thread))
  {
    hide BooksGood, TimersGood, Sum, Pending, Put;
    var s' := Enqueued(s, cb, thread);
    PutKeepsCallbacks(s.slots, Slot(cb, thread));
    EnqueueBalances(BooksOf(s), BooksOf(s'), Bag(cb), s.enqueued, s.taskNumber, s.nulls, if cb.Some? then 0 else 1);
    TimersUntouched(s.timers, BooksOf(s), BooksOf(s'), s.now, s.now, s.once);
  }

  lemma {:induction false} DirectsOnly(cbs: seq<Option<Job>>)
    requires AllDirect(cbs)
    ensures forall t: Job | t.Fire? :: t !in Live(cbs)
  {
    if cbs != [] {
      assert forall i | 0 <= i < |cbs| - 1 :: cbs[1..][i] == cbs[i + 1];
      DirectsOnly(cbs[1..]);
    }
  }

  lemma UserBatchKeepsInv(s: State, cbs: seq<Option<Job>>)
    requires Inv(s) && AllDirect(cbs)
    ensures Inv(UserBatched(s, cbs))
  {
    hide BooksGood, TimersGood, Sum, Pending, Fill, Live, Nulls, AllDirect;
    var s' := UserBatched(s, cbs);
    FillKeepsCallbacks(s.slots, cbs);
    LiveAndNulls(cbs);
    DirectsOnly(cbs);
    EnqueueBalances(BooksOf(s), BooksOf(s'), Live(cbs), s.enqueued, s.taskNumber, s.nulls, Nulls(cbs));
    TimersUntouched(s.timers, BooksOf(s), BooksOf(s'), s.now, s.now, s.once);
  }

  lemma EnqueueBalances(b: Books, b': Books, x: multiset<Job>, enqueued: multiset<Job>, taskNumber: int, nulls: nat,
                        more: nat)
    requires BooksGood(b, enqueued, taskNumber, nulls)
    requires b' == b.(accepted := b.accepted + x, pending := b.pending + x)
    ensures BooksGood(b', enqueued + x, taskNumber + |x| + more, nulls + more)
  {
  }

  lemma ClaimKeepsInv(s: State, w: nat)
    requires Inv(s) && w < |s.workers| && s.workers[w].Top?
    ensures Inv(ClaimedIn(s, w))
  {
    hide BooksGood, TimersGood, Sum, Pending, Take;
    var s' := ClaimedIn(s, w);
    ClaimMoves(s, w);
    ClaimBalances(BooksOf(s), BooksOf(s'), RunOf(ClaimedBy(s.slots)), s.enqueued, s.taskNumber, s.nulls);
    TimersUntouched(s.timers, BooksOf(s), BooksOf(s'), s.now, s.now, s.once);
  }

  lemma ClaimMoves(s: State, w: nat)
    requires w < |s.workers| && s.workers[w].Top?
    ensures var b, b', x := BooksOf(s), BooksOf(ClaimedIn(s, w)), RunOf(ClaimedBy(s.slots));
            b' == b.(pending := b'.pending, inHand := b.inHand + x) && b.pending == b'.pending + x
  {
    hide Sum, Pending, Take, FirstBusy;
    var next := ClaimedBy(s.slots);
    WorkerMoves(s, s.workers[w := next], w, next);
    TakenIsClaimed(s.slots);
  }

  lemma TakenIsClaimed(slots: seq<Slot<Job>>)
    ensures Pending(slots) == Pending(Take(slots)) + RunOf(ClaimedBy(slots))
  {
    TakeRemovesOne(slots);
  }

  lemma ClaimBalances(b: Books, b': Books, x: multiset<Job>, enqueued: multiset<Job>, taskNumber: int, nulls: nat)
    requires BooksGood(b, enqueued, taskNumber, nulls)
    requires b' == b.(pending := b'.pending, inHand := b.inHand + x) && b.pending == b'.pending + x
    ensures BooksGood(b', enqueued, taskNumber, nulls)
  {
  }

  lemma CompleteKeepsInv(s: State, w: nat)
    requires Inv(s) && w < |s.workers| && s.workers[w].Running?
    ensures Inv(CompletedBy(s, w))
  {
    hide BooksGood, TimersGood, Sum, Pending;
    var s' := CompletedBy(s, w);
    CompleteMoves(s, w);
    CompleteBalances(BooksOf(s), BooksOf(s'), RunOf(s.workers[w]), s.enqueued, s.taskNumber, s.nulls);
    TimersUntouched(s.timers, BooksOf(s), BooksOf(s'), s.now, s.now, s.once);
  }

  lemma CompleteMoves(s: State, w: nat)
    requires w < |s.workers| && s.workers[w].Running?
    ensures var b, b', x := BooksOf(s), BooksOf(CompletedBy(s, w)), RunOf(s.workers[w]);
            && b' == b.(inHand := b'.inHand, finished := b.finished + x)
            && b.inHand == b'.inHand + x && |x| == 1
  {
    hide Sum, Pending;
    WorkerMoves(s, s.workers[w := Foot], w, Foot);
  }

  lemma CompleteBalances(b: Books, b': Books, x: multiset<Job>, enqueued: multiset<Job>, taskNumber: int, nulls: nat)
    requires BooksGood(b, enqueued, taskNumber, nulls) && |x| == 1
    requires b' == b.(inHand := b'.inHand, finished := b.finished + x) && b.inHand == b'.inHand + x
    ensures BooksGood(b', enqueued, taskNumber - 1, nulls)
  {
  }

  ghost predicate Quiet(a: Action) {
    a.Tick? || a.Yield? || a.CheckStopping? || a.ExitTest? || a.WakeTest? || a.Stop?
  }

  /** Actions that leave every job where it is. */
  lemma QuietKeepsInv(s: State, a: Action)
    requires Inv(s) && Enabled(s, a) && Quiet(a)
    ensures Inv(Step(s, a))
  {
    hide BooksGood, TimersGood, BooksOf;
    QuietBooks(s, a);
    TimersUntouched(s.timers, BooksOf(s), BooksOf(s), s.now, Step(s, a).now, s.once);
  }

  lemma QuietBooks(s: State, a: Action)
    requires Enabled(s, a) && Quiet(a)
    ensures BooksOf(Step(s, a)) == BooksOf(s)
  {
    hide Sum, Pending;
    match a
    case Yield(w) => QuietMoves(s, w, Top);
    case ExitTest(w) => QuietMoves(s, w, if MayLeave(s) then Exited else Wake);
    case WakeTest(w) => QuietMoves(s, w, if MayLeave(s) then Top else Polling(s.now));
    case _ =>
  }

  lemma QuietMoves(s: State, w: nat, next: Worker)
    requires w < |s.workers| && (s.workers[w] == DONE || s.workers[w].Foot? || s.workers[w].Wake?)
    requires next.Top? || next.Exited? || next.Wake? || next.Polling?
    ensures BooksOf(s.(workers := s.workers[w := next])) == BooksOf(s)
  {
    hide Sum, Pending;
    WorkerMoves(s, s.workers[w := next], w, next);
  }

  // ---------------------------------------------------------------- all runs

  lemma StepKeepsInv(s: State, a: Action)
    requires Inv(s) && Enabled(s, a)
    ensures Inv(Step(s, a))
  {
    hide Inv;
    match a
    case AddTimer(n, live, gap, recurring, read) => AddTimerKeepsInv(s, Fire(n), live, gap, recurring, read);
    case Drain(w, read) => DrainKeepsInv(s, w, read);
    case Rewrite(w, read) => RewriteKeepsInv(s, w, read);
    case Restore(w) => RestoreKeepsInv(s, w);
    case BatchEnqueue(w) => BatchKeepsInv(s, w);
    case Enqueue(call, live, thread) => EnqueueKeepsInv(s, if live then Some(Direct(call)) else None, thread);
    case UserBatch(cbs) => UserBatchKeepsInv(s, cbs);
    case Claim(w) => ClaimKeepsInv(s, w);
    case Complete(w) => CompleteKeepsInv(s, w);
    case Cancel(_) => UserKeepsInv(s, a);
    case Refresh(_, _) => UserKeepsInv(s, a);
    case ResetGap(_, _, _, _) => UserKeepsInv(s, a);
    case Reset(_) => UserKeepsInv(s, a);
    case _ => QuietKeepsInv(s, a);
  }
}
