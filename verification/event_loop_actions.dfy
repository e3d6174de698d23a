/** What single actions of the event loop do, and what a pass of one worker comes to when no other
    thread acts in between: the very `GetExpiredCb` and batch `schedule` of module IdleRound. */
module EventLoopActions {
  import opened Wrappers
  import opened TaskQueue
  import opened Timers
  import opened TimerLaws
  import opened IdleRound
  import opened EventLoop
  import opened EventLoopLaws

  // ---------------------------------------------------------------- users and timers

  /** A user's operation on a timer, when a stored timer `x` has its deadline: `x` is the timer itself
      if that is stored. `refresh` and `reset(gap, from_now)` reschedule it, `cancel` and `reset()` take
      it out, and nothing else changes. */
  lemma UserMovesTheFound(s: State, a: Action, x: Job)
    requires Timers.Valid(s.timers) && Enabled(s, a) && OnTimer(a) && Meets(s.timers, a.t, x)
    ensures a.t in s.timers.order ==> x == a.t
    ensures a.Refresh? ==>
              Rescheduled(s.timers, Step(s, a).timers, x, s.timers.recs[x].gap,
                          (a.read + s.timers.recs[a.t].gap) % 0x1_0000_0000_0000_0000)
    ensures a.ResetGap? ==>
              Rescheduled(s.timers, Step(s, a).timers, x, a.gap,
                          if a.fromNow then (a.read + a.gap) % 0x1_0000_0000_0000_0000
                          else (s.timers.recs[x].next - a.gap) % 0x1_0000_0000_0000_0000)
    ensures a.Cancel? ==> Step(s, a).timers == TimerSet(s.timers.recs, Without(s.timers.order, x))
    ensures a.Reset? ==>
              Step(s, a).timers ==
              TimerSet(s.timers.recs[a.t := TimerRec(0, 0, false, None, false)], Without(s.timers.order, x))
    ensures Step(s, a) == s.(timers := Step(s, a).timers, dropped := Step(s, a).dropped)
  {
    hide Rescheduled, Meets, Refreshed, Regapped, Cancelled, Disarmed, Without;
    MeetsItself(s.timers, a.t, x);
    if a.Refresh? {
      FoundIsRescheduled(s.timers, a.t, x, 0, true, a.read);
    } else if a.ResetGap? {
      FoundIsRescheduled(s.timers, a.t, x, a.gap, a.fromNow, a.read);
    } else {
      FoundIsCancelled(s.timers, a.t, x);
    }
  }

  /** Without a stored timer of that deadline only `reset()` does anything: it clears its timer. */
  lemma UserFindsNobody(s: State, a: Action)
    requires Timers.Valid(s.timers) && Enabled(s, a) && OnTimer(a) && forall x :: !Meets(s.timers, a.t, x)
    ensures Step(s, a) == if a.Reset? then s.(timers := Step(s, a).timers) else s
    ensures a.Reset? ==> Step(s, a).timers == s.timers.(recs := s.timers.recs[a.t := TimerRec(0, 0, false, None, false)])
  {
    hide Meets, Refreshed, Regapped, Cancelled, Disarmed;
    assert s.dropped + (multiset(s.timers.order) - multiset(s.timers.order)) == s.dropped;
    if a.ResetGap? {
      NobodyIsFound(s.timers, a.t, a.gap, a.fromNow, a.read);
    } else {
      NobodyIsFound(s.timers, a.t, 0, true, if a.Refresh? then a.read else 0);
    }
  }

  /** A new timer has the fields asked for and a deadline one interval from the reading; it is stored,
      and its arming accepted, unless a stored timer has that deadline. */
  lemma UserAddsATimer(s: State, n: nat, live: bool, gap: u64, recurring: bool, read: u64)
    requires Timers.Valid(s.timers) && Enabled(s, AddTimer(n, live, gap, recurring, read))
    ensures var s', t, next := Step(s, AddTimer(n, live, gap, recurring, read)), Fire(n), (read + gap) % 0x1_0000_0000_0000_0000;
            && Timers.Valid(s'.timers)
            && s'.timers.recs == s.timers.recs[t := TimerRec(gap, next, recurring, if live then Some(t) else None, true)]
            && Without(s'.timers.order, t) == s.timers.order
            && (t in s'.timers.order <==> !HasOther(s.timers, t, next))
            && s' == s.(timers := s'.timers,
                        accepted := s.accepted + (if t in s'.timers.order then multiset{t} else multiset{}),
                        once := if recurring then s.once else s.once + {t})
  {
    hide Added, HasOther, Without, Timers.Valid, Taken;
    var t, cb := Fire(n), if live then Some(Fire(n)) else None;
    var r := Added(s.timers, t, gap, cb, recurring, read);
    AddedIsStored(s.timers, t, gap, cb, recurring, read);
    AddedKeepsValid(s.timers, t, gap, cb, recurring, read);
    NewTimerIsOneMore(s.timers, t);
    var taken := Taken(s.timers, Add64(read, gap));
    OneMore(s.timers.order, r.order, t, !taken);
    Difference(multiset(r.order), multiset(s.timers.order), if taken then multiset{} else multiset{t});
  }

  lemma NewTimerIsOneMore(ts: TimerSet<Job, Job>, t: Job)
    requires Timers.Valid(ts) && t !in ts.recs
    ensures t !in ts.order
  {
  }

  // ---------------------------------------------------------------- users and workers at the task vector

  /** A call past the test puts its callback, thread id and all, into the lowest free slot or a new one,
      and counts it. */
  lemma EnqueueFillsLowest(s: State, a: Action, k: nat)
    requires a.Enqueue? && Enabled(s, a) && k <= |s.slots|
    requires (forall i | 0 <= i < k :: s.slots[i].cb.Some?) && (k < |s.slots| ==> s.slots[k].cb.None?)
    ensures var job := Slot(if a.live then Some(Direct(a.call)) else None, a.thread);
            Step(s, a).slots == if k < |s.slots| then s.slots[..k] + [job] + s.slots[k + 1..] else s.slots + [job]
    ensures Step(s, a).taskNumber == s.taskNumber + 1 && Step(s, a).passed == s.passed - 1
    ensures Step(s, a).timers == s.timers && Step(s, a).workers == s.workers && Step(s, a).now == s.now
            && Step(s, a).stopping == s.stopping
  {
    hide Put;
    PutTakesLowest(s.slots, k, Slot(if a.live then Some(Direct(a.call)) else None, a.thread));
  }

  /** A worker claims the callback of the lowest occupied slot, runs that one and no other, and takes it
      off the count when it has run. */
  lemma ClaimRunsLowest(s: State, w: nat, k: nat)
    requires Enabled(s, Claim(w)) && k < |s.slots|
    requires (forall i | 0 <= i < k :: s.slots[i].cb.None?) && s.slots[k].cb.Some?
    ensures var job, mid := s.slots[k].cb.value, Step(s, Claim(w));
            && mid == s.(slots := s.slots[..k] + [Slot(None, -1)] + s.slots[k + 1..], workers := s.workers[w := Running(job)])
            && Enabled(mid, Complete(w))
            && Step(mid, Complete(w)) ==
               mid.(taskNumber := s.taskNumber - 1, workers := s.workers[w := Foot], finished := s.finished + multiset{job})
  {
    hide Take;
    TakeClearsLowest(s.slots, k);
    assert FirstBusy(s.slots) == k;
  }

  /** With all slots free it goes on to its exit test. */
  lemma ClaimFindsNothing(s: State, w: nat)
    requires Enabled(s, Claim(w)) && forall i | 0 <= i < |s.slots| :: s.slots[i].cb.None?
    ensures Step(s, Claim(w)) == s.(workers := s.workers[w := Foot])
  {
    hide Take;
    TakeClearsLowest(s.slots, |s.slots|);
    assert FirstBusy(s.slots) == |s.slots|;
  }

  /** A user's batch is put into the slots and counted; where a batch comes to the same as single calls,
      it leaves what they would. */
  lemma UserBatchFills(s: State, cbs: seq<Option<Job>>)
    requires Enabled(s, UserBatch(cbs))
    ensures Step(s, UserBatch(cbs)).slots == Fill(s.slots, cbs)
    ensures BatchFits(s.slots, cbs) ==> Step(s, UserBatch(cbs)).slots == PutAll(s.slots, cbs)
    ensures Step(s, UserBatch(cbs)).taskNumber == s.taskNumber + |cbs|
  {
    hide Fill, PutAll, BatchFits;
    BatchEqualsSingles(s.slots, cbs);
  }

  /** Which actions can change what: the rest of the state stays as it is. */
  lemma EverythingElseStays(s: State, a: Action)
    requires Enabled(s, a)
    ensures !a.AddTimer? && !OnTimer(a) && !a.Drain? && !a.Rewrite? && !a.Restore? ==> Step(s, a).timers == s.timers
    ensures !a.Enqueue? && !a.UserBatch? && !a.BatchEnqueue? && !a.Claim? ==> Step(s, a).slots == s.slots
    ensures !a.Enqueue? && !a.UserBatch? && !a.BatchEnqueue? && !a.Complete? ==> Step(s, a).taskNumber == s.taskNumber
    ensures Step(s, a).now == if a.Tick? then a.to else s.now
    ensures Step(s, a).stopping == (s.stopping || a.Stop?)
  {
    hide Insert, Added, Cancelled, Refreshed, Regapped, Disarmed, Drained, Rewritten, Fill, Put, Take, FirstBusy, Live, Nulls;
  }

  ghost function Count(acts: seq<Action>, what: Action -> bool): nat {
    if acts == [] then 0 else (if what(acts[0]) then 1 else 0) + Count(acts[1..], what)
  }

  lemma PassedInStep(s: State, a: Action)
    requires Enabled(s, a)
    ensures Step(s, a).passed == s.passed + (if a.CheckStopping? then 1 else 0) - (if a.Enqueue? then 1 else 0)
  {
    hide Insert, Added, Cancelled, Refreshed, Regapped, Disarmed, Drained, Rewritten, Fill, Put, Take, FirstBusy, Live, Nulls;
  }

  /** In every run each call that has passed the test enqueues once, at most. */
  lemma {:induction false} PassedCounts(s: State, acts: seq<Action>, s': State)
    requires Run(s, acts, s')
    ensures s'.passed == s.passed + Count(acts, (a: Action) => a.CheckStopping?) - Count(acts, (a: Action) => a.Enqueue?)
    decreases |acts|
  {
    hide Enabled, Step;
    if acts != [] {
      PassedInStep(s, acts[0]);
      PassedCounts(Step(s, acts[0]), acts[1..], s');
    }
  }

  // ---------------------------------------------------------------- an undisturbed pass

  lemma {:induction false} RunJoin(s: State, a: seq<Action>, mid: State, b: seq<Action>, s': State)
    requires Run(s, a, mid) && Run(mid, b, s')
    ensures Run(s, a + b, s')
    decreases |a|
  {
    hide Enabled, Step;
    if a == [] {
      assert a + b == b;
    } else {
      RunJoin(Step(s, a[0]), a[1..], mid, b, s');
      assert (a + b)[1..] == a[1..] + b;
    }
  }

  lemma RunOfTwo(s: State, a: Action, b: Action)
    requires Enabled(s, a) && Enabled(Step(s, a), b)
    ensures Run(s, [a, b], Step(Step(s, a), b))
  {
    hide Enabled, Step;
    assert [a, b][1..] == [b] && [b][1..] == [];
    assert Run(Step(Step(s, a), b), [], Step(Step(s, a), b));
    assert Run(Step(s, a), [b], Step(Step(s, a), b));
  }

  lemma RunOfOne(s: State, a: Action)
    requires Enabled(s, a)
    ensures Run(s, [a], Step(s, a))
  {
    hide Enabled, Step;
    assert [a][1..] == [];
    assert Run(Step(s, a), [], Step(s, a));
  }

  /** The actions of one round of the re-arming loop. */
  ghost function Round(r: TimerRec<Job>, w: nat, read: u64): seq<Action> {
    if r.recurring then [Rewrite(w, read), Restore(w)] else [Rewrite(w, read)]
  }

  /** Those of all rounds; `before` has the timers as they were drained, `clock(i)` is the reading of the
      first round. */
  ghost function Rounds(before: map<Job, TimerRec<Job>>, w: nat, batch: seq<Job>, clock: nat -> u64, i: nat): seq<Action>
    requires forall j | 0 <= j < |batch| :: batch[j] in before
    decreases |batch|
  {
    if batch == [] then [] else Round(before[batch[0]], w, clock(i)) + Rounds(before, w, batch[1..], clock, i + 1)
  }

  /** Only the timers, worker `w` and the history of armings have changed. */
  ghost predicate InPass(s: State, s': State, w: nat, now: Worker) {
    w < |s.workers| && s' == s.(timers := s'.timers, workers := s.workers[w := now],
                                accepted := s'.accepted, dropped := s'.dropped)
  }

  ghost predicate Rearming(s: State, w: nat, batch: seq<Job>, obs: seq<Option<Job>>, clock: nat -> u64) {
    && w < |s.workers| && s.workers[w] == Idle(batch, obs, None)
    && Timers.Valid(s.timers) && Separate(s.timers, batch)
    && forall i :: clock(i) <= s.now
  }

  lemma RoundRuns(s: State, w: nat, batch: seq<Job>, obs: seq<Option<Job>>, clock: nat -> u64, i: nat) returns (s': State)
    requires Rearming(s, w, batch, obs, clock) && batch != []
    ensures Run(s, Round(s.timers.recs[batch[0]], w, clock(i)), s')
    ensures InPass(s, s', w, Idle(batch[1..], obs + [s.timers.recs[batch[0]].cb], None))
    ensures s'.timers == Rearmed(s.timers, batch[0], clock(i))
    ensures Rearming(s', w, batch[1..], obs + [s.timers.recs[batch[0]].cb], clock)
  {
    RearmStep(s.timers, batch, clock(i));
    hide Timers.Valid, Separate, Insert, Rewritten;
    var rewrite := Rewrite(w, clock(i));
    var mid := RewriteRuns(s, w, batch, obs, clock(i));
    if s.timers.recs[batch[0]].recurring {
      s' := Step(mid, Restore(w));
      RunOfTwo(s, rewrite, Restore(w));
    } else {
      s' := mid;
      RunOfOne(s, rewrite);
    }
  }

  lemma RewriteRuns(s: State, w: nat, batch: seq<Job>, obs: seq<Option<Job>>, read: u64) returns (s': State)
    requires w < |s.workers| && s.workers[w] == Idle(batch, obs, None) && Known(s.timers) && read <= s.now
    requires batch != [] && batch[0] in s.timers.recs
    ensures Enabled(s, Rewrite(w, read)) && s' == Step(s, Rewrite(w, read)) && Known(s'.timers)
    ensures var r := s.timers.recs[batch[0]];
            InPass(s, s', w, Idle(batch[1..], obs + [r.cb], if r.recurring then Some(batch[0]) else None))
    ensures s'.timers == Rewritten(s.timers, batch[0], read)
  {
    s' := Step(s, Rewrite(w, read));
  }

  lemma CopiedFront(before: map<Job, TimerRec<Job>>, batch: seq<Job>, obs: seq<Option<Job>>)
    requires batch != [] && batch[0] in before
    ensures obs + [before[batch[0]].cb] + Copied(before, batch[1..]) == obs + Copied(before, batch)
  {
  }

  lemma InPassTwice(s: State, mid: State, s': State, w: nat, first: Worker, last: Worker)
    requires InPass(s, mid, w, first) && InPass(mid, s', w, last)
    ensures InPass(s, s', w, last)
  {
  }

  lemma {:induction false} RoundsRun(s: State, w: nat, batch: seq<Job>, obs: seq<Option<Job>>, clock: nat -> u64, i: nat,
                                     before: map<Job, TimerRec<Job>>) returns (s': State)
    requires Rearming(s, w, batch, obs, clock)
    requires forall j | 0 <= j < |batch| ::
               batch[j] in before && batch[j] in s.timers.recs && before[batch[j]] == s.timers.recs[batch[j]]
    ensures Run(s, Rounds(before, w, batch, clock, i), s')
    ensures InPass(s, s', w, Idle([], obs + Copied(before, batch), None))
    ensures s'.timers == RearmAll(s.timers, batch, clock, i)
    decreases |batch|
  {
    if batch == [] {
      s' := s;
      assert obs + Copied(before, batch) == obs;
      assert s.workers[w := s.workers[w]] == s.workers;
    } else {
      var cb := s.timers.recs[batch[0]].cb;
      var mid := RoundRuns(s, w, batch, obs, clock, i);
      RearmStep(s.timers, batch, clock(i));
      assert RearmAll(s.timers, batch, clock, i) == RearmAll(mid.timers, batch[1..], clock, i + 1);
      CopiedFront(before, batch, obs);
      hide Run, Rearmed, Timers.Valid, Separate, RearmAll, Copied, Round, InPass;
      s' := RoundsRun(mid, w, batch[1..], obs + [cb], clock, i + 1, before);
      RunJoin(s, Round(before[batch[0]], w, clock(i)), mid, Rounds(before, w, batch[1..], clock, i + 1), s');
      InPassTwice(s, mid, s', w, Idle(batch[1..], obs + [cb], None), Idle([], obs + Copied(before, batch), None));
    }
  }

  /** The actions of a whole pass. */
  ghost function Pass(ts: TimerSet<Job, Job>, w: nat, read: u64, clock: nat -> u64): seq<Action>
    requires Timers.Valid(ts)
  {
    [Drain(w, read)] + Rounds(ts.recs, w, Due(ts, read), clock, 0)
    + (if Due(ts, read) == [] then [] else [BatchEnqueue(w)])
  }

  /** A pass that no other thread comes between: from the drain on, these actions are possible one after
      the other, and they leave the timers as the atomic `GetExpiredCb` does, the callbacks of exactly the
      due timers in the slots as the batch `schedule` puts them there, and the worker ready to yield. */
  lemma UndisturbedPass(s: State, w: nat, read: u64, clock: nat -> u64) returns (s': State)
    requires Timers.Valid(s.timers) && Enabled(s, Drain(w, read)) && forall i :: clock(i) <= s.now
    ensures Run(s, Pass(s.timers, w, read, clock), s')
    ensures Separate(Drained(s.timers, read), Due(s.timers, read))
    ensures s'.timers == RearmAll(Drained(s.timers, read), Due(s.timers, read), clock, 0)
    ensures s'.slots == Fill(s.slots, DueCallbacks(s.timers, read))
    ensures s'.taskNumber == s.taskNumber + |Due(s.timers, read)|
    ensures s'.workers == s.workers[w := Idle([], [], None)]
    ensures s'.now == s.now && s'.passed == s.passed && s'.stopping == s.stopping && s'.finished == s.finished
  {
    var due, cbs := Due(s.timers, read), DueCallbacks(s.timers, read);
    hide Drained, DueCount, Due, RearmAll, Separate, Timers.Valid, Run, Copied, Fill, InPass, Rearming, Rounds;
    var drained := DrainStarts(s, w, read, clock);
    var rearmed := RoundsRun(drained, w, due, [], clock, 0, s.timers.recs);
    RunJoin(s, [Drain(w, read)], drained, Rounds(s.timers.recs, w, due, clock, 0), rearmed);
    InPassTwice(s, drained, rearmed, w, Idle(due, [], None), Idle([], [] + cbs, None));
    PassIsOver(s, rearmed, w, cbs);
    RearmAllIsKnown(drained.timers, due, clock);
    s' := BatchRuns(rearmed, w, cbs);
    RunJoin(s, [Drain(w, read)] + Rounds(s.timers.recs, w, due, clock, 0), rearmed,
            if cbs == [] then [] else [BatchEnqueue(w)], s');
  }

  lemma DrainStarts(s: State, w: nat, read: u64, clock: nat -> u64) returns (s': State)
    requires Timers.Valid(s.timers) && Enabled(s, Drain(w, read)) && forall i :: clock(i) <= s.now
    ensures Run(s, [Drain(w, read)], s') && InPass(s, s', w, Idle(Due(s.timers, read), [], None))
    ensures s'.timers == Drained(s.timers, read) && s'.timers.recs == s.timers.recs
    ensures Rearming(s', w, Due(s.timers, read), [], clock)
  {
    DrainIsFilter(s.timers, read);
    DrainSeparates(s.timers, read);
    DrainedKeepsValid(s.timers, read);
    RunOfOne(s, Drain(w, read));
    s' := Step(s, Drain(w, read));
    hide DueCount, Increasing, Deadlines, Separate;
  }

  lemma PassIsOver(s: State, s': State, w: nat, cbs: seq<Option<Job>>)
    requires InPass(s, s', w, Idle([], [] + cbs, None))
    ensures w < |s'.workers| && s'.workers[w] == Idle([], [] + cbs, None)
    ensures s'.workers[w := DONE] == s.workers[w := DONE]
    ensures s'.slots == s.slots && s'.taskNumber == s.taskNumber && s'.now == s.now && s'.passed == s.passed
            && s'.stopping == s.stopping && s'.finished == s.finished
  {
  }

  lemma RearmAllIsKnown(ts: TimerSet<Job, Job>, batch: seq<Job>, clock: nat -> u64)
    requires Timers.Valid(ts) && Separate(ts, batch)
    ensures Known(RearmAll(ts, batch, clock, 0))
  {
    RearmAllDeadlines(ts, batch, clock, 0);
  }

  lemma BatchRuns(s: State, w: nat, obs: seq<Option<Job>>) returns (s': State)
    requires w < |s.workers| && s.workers[w] == Idle([], [] + obs, None) && Known(s.timers)
    ensures Run(s, if obs == [] then [] else [BatchEnqueue(w)], s')
    ensures s' == s.(slots := Fill(s.slots, obs), taskNumber := s.taskNumber + |obs|, workers := s.workers[w := DONE],
                     enqueued := s'.enqueued, nulls := s'.nulls)
  {
    assert [] + obs == obs;
    if obs == [] {
      s' := s;
      FillNothing(s.slots);
      assert s.workers[w := s.workers[w]] == s.workers;
    } else {
      RunOfOne(s, BatchEnqueue(w));
      s' := Step(s, BatchEnqueue(w));
    }
  }

  lemma {:induction false} SelectMembers<T, C>(recs: map<T, TimerRec<C>>, order: seq<T>, now: u64, t: T)
    ensures t in Select(recs, order, now, true) <==> t in order && t in recs && recs[t].next <= now
  {
    if order != [] {
      SelectMembers(recs, order[1..], now, t);
    }
  }

  lemma {:induction false} LiveHas(cbs: seq<Option<Job>>, t: Job)
    ensures t in Live(cbs) <==> Some(t) in cbs
  {
    if cbs != [] {
      LiveHas(cbs[1..], t);
      assert cbs == [cbs[0]] + cbs[1..];
    }
  }

  /** The callbacks that a pass hands over: those of the stored timers whose deadline is not after the
      reading, and of no others. */
  lemma DueAreHandedOver(ts: TimerSet<Job, Job>, read: u64, t: Job)
    requires Timers.Valid(ts) && forall x | x in ts.recs :: ts.recs[x].cb in {None, Some(x)}
    ensures t in Live(DueCallbacks(ts, read))
       <==> t in ts.order && t in ts.recs && ts.recs[t].next <= read && ts.recs[t].cb.Some?
  {
    hide Timers.Valid, Select;
    var due, cbs := Due(ts, read), DueCallbacks(ts, read);
    SelectMembers(ts.recs, ts.order, read, t);
    LiveHas(cbs, t);
    if t in due && ts.recs[t].cb.Some? {
      var j :| 0 <= j < |due| && due[j] == t;
      assert cbs[j] == Some(t);
    }
    if Some(t) in cbs {
      var j :| 0 <= j < |cbs| && cbs[j] == Some(t);
      assert ts.recs[due[j]].cb == Some(t);
    }
  }

  /** A stored timer fires when its time comes: from every reachable state, once the clock stands at `to`
      a worker in a pass can by its own actions put into the slots the callbacks of exactly the stored
      timers with deadlines up to then. */
  lemma StoredTimersFire(s: State, w: nat, to: u64) returns (acts: seq<Action>, s': State)
    requires Reachable(s) && Polls(s, w) && s.now <= to
    ensures Run(s, [Tick(to)] + acts, s') && (forall i | 0 <= i < |acts| :: OfPass(acts[i], w))
    ensures s'.now == to && s'.workers == s.workers[w := Idle([], [], None)]
    ensures forall t | t !in Pending(s.slots) ::
              t in Pending(s'.slots)
              <==> t in s.timers.order && t in s.timers.recs && s.timers.recs[t].next <= to && s.timers.recs[t].cb.Some?
  {
    hide Reachable, Inv, Clocked, Timers.Valid, Run, DueCallbacks, Fill, Pending, Live;
    ReachableInv(s);
    ReachableClocked(s);
    OwnCallbacks(s);
    acts, s' := PassAt(s, w, to);
    forall t ensures t in Live(DueCallbacks(s.timers, to))
                <==> t in s.timers.order && t in s.timers.recs && s.timers.recs[t].next <= to && s.timers.recs[t].cb.Some? {
      DueAreHandedOver(s.timers, to, t);
    }
  }

  lemma PassAt(s: State, w: nat, to: u64) returns (acts: seq<Action>, s': State)
    requires Inv(s) && Clocked(s) && Polls(s, w) && s.now <= to && Timers.Valid(s.timers)
    ensures Run(s, [Tick(to)] + acts, s') && (forall i | 0 <= i < |acts| :: OfPass(acts[i], w))
    ensures s'.now == to && s'.workers == s.workers[w := Idle([], [], None)]
    ensures Pending(s'.slots) == Pending(s.slots) + Live(DueCallbacks(s.timers, to))
  {
    var clock := (i: nat) => to;
    var later := s.(now := to);
    TickRuns(s, w, to);
    hide Inv, Clocked, Enabled, Timers.Valid, Run, DueCallbacks, Fill, Pending, Live, RearmAll, Due, Drained, Pass, Step;
    s' := UndisturbedPass(later, w, to, clock);
    acts := Pass(s.timers, w, to, clock);
    RunJoin(s, [Tick(to)], later, acts, s');
    PassIsOwn(s.timers, w, to, clock);
    FillKeepsCallbacks(s.slots, DueCallbacks(s.timers, to));
  }

  lemma TickRuns(s: State, w: nat, to: u64)
    requires Inv(s) && Clocked(s) && Polls(s, w) && s.now <= to
    ensures Run(s, [Tick(to)], s.(now := to)) && Enabled(s.(now := to), Drain(w, to))
  {
    hide Inv;
    TimersKnown(s);
    RunOfOne(s, Tick(to));
  }

  lemma OwnCallbacks(s: State)
    requires Inv(s)
    ensures Timers.Valid(s.timers) && Known(s.timers)
    ensures forall x | x in s.timers.recs :: s.timers.recs[x].cb in {None, Some(x)}
  {
    TimersAreOk(s);
  }

  ghost predicate OfPass(a: Action, w: nat) {
    (a.Drain? || a.Rewrite? || a.Restore? || a.BatchEnqueue?) && a.w == w
  }

  lemma {:induction false} RoundsAreOwn(before: map<Job, TimerRec<Job>>, w: nat, batch: seq<Job>, clock: nat -> u64, i: nat)
    requires forall j | 0 <= j < |batch| :: batch[j] in before
    ensures forall a | a in Rounds(before, w, batch, clock, i) :: OfPass(a, w)
    decreases |batch|
  {
    if batch != [] {
      RoundsAreOwn(before, w, batch[1..], clock, i + 1);
    }
  }

  lemma PassIsOwn(ts: TimerSet<Job, Job>, w: nat, read: u64, clock: nat -> u64)
    requires Timers.Valid(ts)
    ensures forall i | 0 <= i < |Pass(ts, w, read, clock)| :: OfPass(Pass(ts, w, read, clock)[i], w)
  {
    hide Rounds;
    RoundsAreOwn(ts.recs, w, Due(ts, read), clock, 0);
  }

  // ---------------------------------------------------------------- nobody is held up

  /** Users are refused nothing that the source lets them do: the actions on timers are open for every
      timer still attached, the test for as long as the loop runs, the enqueue for every call past it. */
  lemma UsersMayAct(s: State, t: Job, gap: u64, fromNow: bool, read: u64, call: nat, live: bool, thread: int)
    requires Reachable(s) && read <= s.now
    ensures t.Fire? && t !in s.timers.recs ==> Enabled(s, AddTimer(t.timer, live, gap, fromNow, read))
    ensures t in s.timers.recs && s.timers.recs[t].attached ==>
              Enabled(s, Cancel(t)) && Enabled(s, Refresh(t, read)) && Enabled(s, ResetGap(t, gap, fromNow, read))
              && Enabled(s, Reset(t))
    ensures !s.stopping ==> Enabled(s, CheckStopping)
    ensures s.passed > 0 ==> Enabled(s, Enqueue(call, live, thread))
    ensures Enabled(s, Stop)
  {
    ReachableInv(s);
    TimersKnown(s);
  }

  lemma {:induction false} SumHas(ws: seq<Worker>, w: nat, f: Worker -> multiset<Job>)
    requires w < |ws|
    ensures f(ws[w]) <= Sum(ws, f)
  {
    if w > 0 {
      SumHas(ws[1..], w - 1, f);
      assert ws[1..][w - 1] == ws[w];
    }
  }

  lemma WorkersTimersAreKnown(s: State, w: nat)
    requires Inv(s) && Idles(s, w)
    ensures s.workers[w].temp != [] ==> s.workers[w].temp[0] in s.timers.recs
    ensures s.workers[w].held.Some? ==> s.workers[w].held.value in s.timers.recs
  {
    hide BooksGood, Passed, OnceOk, Sum, Pending;
    var b, worker := BooksOf(s), s.workers[w];
    SumHas(s.workers, w, TempOf);
    SumHas(s.workers, w, HeldOf);
    if worker.temp != [] {
      assert worker.temp[0] in TempOf(worker);
      assert worker.temp[0] in b.draining + b.held;
    }
    if worker.held.Some? {
      assert worker.held.value in HeldOf(worker);
      assert worker.held.value in b.draining + b.held;
    }
  }

  /** What worker `w` does next when it is its turn. */
  ghost function Turn(s: State, w: nat): Action
    requires w < |s.workers|
  {
    match s.workers[w]
    case Top => Claim(w)
    case Running(_) => Complete(w)
    case Foot => ExitTest(w)
    case Wake => WakeTest(w)
    case Polling(_) => Drain(w, s.now)
    case Idle(temp, obs, held) =>
      if held.Some? then Restore(w) else if temp != [] then Rewrite(w, s.now)
      else if obs != [] then BatchEnqueue(w) else Yield(w)
    case Exited => Stop
  }

  /** No interleaving leads a worker into a state it cannot go on from by itself: in every reachable state
      each worker that has not left can take its turn. */
  lemma NoWorkerIsStuck(s: State, w: nat)
    requires Reachable(s) && w < |s.workers| && !s.workers[w].Exited?
    ensures Enabled(s, Turn(s, w)) && Turn(s, w) != Stop
  {
    hide Reachable, Inv, Clocked;
    ReachableInv(s);
    ReachableClocked(s);
    TimersKnown(s);
    if Idles(s, w) {
      WorkersTimersAreKnown(s, w);
    } else {
      ClockedAt(s, w);
    }
  }

  lemma ClockedAt(s: State, w: nat)
    requires Clocked(s) && w < |s.workers|
    ensures s.workers[w].Polling? ==> s.workers[w].since <= s.now
  {
  }
}
