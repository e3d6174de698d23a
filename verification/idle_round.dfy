/** One pass of `IOmanager::idle` in sylar/iomanager.cpp over the timers: from the timer set
    through the reused buffer into the task vector. */
module IdleRound {
  import opened Wrappers
  import opened TaskQueue
  import opened Timers
  import opened TimerLaws
  import opened TimerManagers

  /** The timers due at `now`, in the order of their deadlines. */
  ghost function Due<T, C>(ts: TimerSet<T, C>, now: u64): (due: seq<T>)
    requires Timers.Valid(ts)
    ensures forall i | 0 <= i < |due| :: due[i] in ts.recs
    ensures Callable(ts) ==> forall i | 0 <= i < |due| :: ts.recs[due[i]].cb.Some?
  {
    DrainIsFilter(ts, now);
    Select(ts.recs, ts.order, now, true)
  }

  ghost function DueCallbacks<T, C>(ts: TimerSet<T, C>, now: u64): (cbs: seq<Option<C>>)
    requires Timers.Valid(ts)
    ensures |cbs| == |Due(ts, now)| && (Callable(ts) ==> AllLive(cbs))
  {
    Copied(ts.recs, Due(ts, now))
  }

  /** The stored deadlines after a pass. */
  ghost function DeadlinesAfter<T, C>(ts: TimerSet<T, C>, now: u64, clock: nat -> u64): set<u64>
    requires Timers.Valid(ts)
  {
    (set d | d in DeadlineSet(ts) && now < d) + NewDeadlines(ts.recs, Due(ts, now), clock, 0)
  }

  /** The first half of a pass: the buffer gets the callbacks of the timers due. */
  method Collect<C>(m: TimerManager<C>, now: u64, clock: nat -> u64) returns (obs: seq<Option<C>>)
    requires m.Valid()
    modifies m, m.timers
    ensures m.Valid() && obs == DueCallbacks(old(m.Abs()), now)
    ensures DeadlineSet(m.Abs()) == DeadlinesAfter(old(m.Abs()), now, clock)
  {
    hide NewDeadlines, RearmAll, Drained, Select;
    ExpiryDeadlines(m.Abs(), now, clock);
    obs := m.GetExpiredCb([], now, clock);
  }

  /** The pass: each timer due becomes one task and no other task is made. The waiting callbacks
      grow by exactly theirs, none of them null when every stored timer has one, and the buffer is
      empty again. */
  method HandOver<C>(m: TimerManager<C>, s: Schedule<C>, now: u64, clock: nat -> u64) returns (obs: seq<Option<C>>)
    requires m.Valid()
    modifies m, m.timers, s
    ensures m.Valid() && obs == [] && s.stopping == old(s.stopping)
    ensures s.tasks == Fill(old(s.tasks), DueCallbacks(old(m.Abs()), now))
    ensures Pending(s.tasks) == old(Pending(s.tasks)) + Live(DueCallbacks(old(m.Abs()), now))
    ensures Callable(old(m.Abs())) ==> AllLive(DueCallbacks(old(m.Abs()), now))
    ensures s.taskNumber == old(s.taskNumber) + |Due(old(m.Abs()), now)|
    ensures DeadlineSet(m.Abs()) == DeadlinesAfter(old(m.Abs()), now, clock)
  {
    hide Due, DueCallbacks, DeadlinesAfter, Fill, Pending, Live, DeadlineSet;
    FillNothing(s.tasks);
    obs := Collect(m, now, clock);
    FillKeepsCallbacks(s.tasks, obs);
    if |obs| > 0 {
      s.ScheduleBatch(obs);
      obs := [];
    }
  }

  lemma FillNothing<T>(slots: seq<Slot<T>>)
    ensures Fill(slots, []) == slots
  {
  }
}
