/** `Timer` and `TimerManager` of sylar/Timer.cpp as objects. Every method is proved against
    the operation of module Timers on the fields of all timers; the clock is a parameter.
    `std::set::find`, `lower_bound`, `insert` and `erase` act on the sequence `timers`. */
module TimerManagers {
  import opened Wrappers
  import opened Timers
  import opened TimerLaws

  class Timer<C> {
    var gap: u64
    var next: u64
    var recurring: bool
    var cb: Option<C>
    var attached: bool

    constructor (gap: u64, cb: Option<C>, recurring: bool, now: u64)
      ensures Fields() == TimerRec(gap, Add64(now, gap), recurring, cb, true)
    {
      this.recurring := recurring;
      this.gap := gap;
      next := Add64(now, gap);
      this.cb := cb;
      attached := true;
    }

    ghost function Fields(): TimerRec<C>
      reads this
    {
      TimerRec(gap, next, recurring, cb, attached)
    }
  }

  class TimerManager<C> {
    var timers: seq<Timer<C>>
    ghost var recs: map<Timer<C>, TimerRec<C>>  // the fields of every timer of this manager

    constructor ()
      ensures Valid() && Abs() == NoTimers()
    {
      timers, recs := [], map[];
    }

    /** The fields of every timer made by this manager, and the stored ones in order. */
    ghost function Abs(): TimerSet<Timer<C>, C>
      reads this
    {
      TimerSet(recs, timers)
    }

    /** The ghost record agrees with the timers themselves. */
    ghost predicate Tied()
      reads this, recs.Keys
    {
      forall t | t in recs :: t.Fields() == recs[t]
    }

    ghost predicate Valid()
      reads this, recs.Keys
    {
      Tied() && Timers.Valid(Abs())
    }

    function Keys(): (keys: seq<u64>)
      reads this, timers
      ensures |keys| == |timers| && forall i | 0 <= i < |keys| :: keys[i] == timers[i].next
    {
      seq(|timers|, i requires 0 <= i < |timers| reads this, timers => timers[i].next)
    }

    lemma KeysAreDeadlines()
      requires Tied() && Known(Abs())
      ensures Keys() == Deadlines(Abs())
    {
    }

    /** `addTimer(timer)`: insert under the lock. */
    method Store(t: Timer<C>)
      requires Tied() && Known(Abs()) && t in recs
      modifies this`timers
      ensures Tied() && Abs() == Insert(old(Abs()), t)
    {
      KeysAreDeadlines();
      assert t.Fields() == recs[t];
      var keys := Keys();
      var k := LowerBound(keys, t.next);
      if k < |keys| && keys[k] == t.next {
        return;
      }
      timers := timers[..k] + [t] + timers[k..];
    }

    method AddTimer(ms: u64, cb: Option<C>, recurring: bool, now: u64) returns (t: Timer<C>)
      requires Valid()
      modifies this
      ensures fresh(t)
      ensures Valid() && Abs() == Added(old(Abs()), t, ms, cb, recurring, now)
    {
      ghost var before := Abs();
      t := new Timer(ms, cb, recurring, now);
      AddedIsValid(before, t, ms, cb, recurring, now);
      recs := recs[t := TimerRec(ms, Add64(now, ms), recurring, cb, true)];
      Store(t);
    }

    /** `find(shared_from_this())`, which compares deadlines. */
    method FindTimer(t: Timer<C>) returns (k: nat)
      requires Tied() && Known(Abs()) && t in recs
      ensures k == Found(Abs(), t) && k <= |timers|
    {
      KeysAreDeadlines();
      assert t.Fields() == recs[t];
      k := Find(Keys(), t.next);
    }

    method Cancel(t: Timer<C>) returns (ok: bool)
      requires Valid() && t in recs && t.attached
      modifies this`timers
      ensures Valid() && Abs() == Cancelled(old(Abs()), t)
      ensures ok <==> Found(old(Abs()), t) < |old(timers)|
    {
      CancelledKeepsValid(Abs(), t);
      var k := FindTimer(t);
      ok := k < |timers|;
      if !ok {
        return;
      }
      timers := timers[..k] + timers[k + 1..];
    }

    /** Takes out the `k`-th stored timer, rewrites it and stores it again. */
    method Move(k: nat, gap: u64, next: u64)
      requires Valid() && k < |timers|
      modifies this, timers[k]
      ensures Valid() && Abs() == Moved(old(Abs()), k, gap, next)
    {
      ghost var before := Abs();
      hide Increasing, Deadlines, Insert, Taken;
      MovedKeepsValid(before, k, gap, next);
      var temp := timers[k];
      assert temp.Fields() == recs[temp];
      timers := timers[..k] + timers[k + 1..];
      temp.gap := gap;
      temp.next := next;
      recs := recs[temp := recs[temp].(gap := gap, next := next)];
      Store(temp);
    }

    method Refresh(t: Timer<C>, now: u64)
      requires Valid() && t in recs && t.attached
      modifies this, timers
      ensures Valid() && Abs() == Refreshed(old(Abs()), t, now)
    {
      var k := FindTimer(t);
      if k < |timers| {
        assert t.Fields() == recs[t] && timers[k].Fields() == recs[timers[k]];
        Move(k, timers[k].gap, Add64(now, t.gap));
      }
    }

    method ResetGap(t: Timer<C>, gap: u64, fromNow: bool, now: u64)
      requires Valid() && t in recs && t.attached
      modifies this, timers
      ensures Valid() && Abs() == Regapped(old(Abs()), t, gap, fromNow, now)
    {
      var k := FindTimer(t);
      if k < |timers| {
        assert timers[k].Fields() == recs[timers[k]];
        Move(k, gap, if fromNow then Add64(now, gap) else Sub64(timers[k].next, gap));
      }
    }

    /** `reset()`: cancel, then clear every field. */
    method Reset(t: Timer<C>)
      requires Valid() && t in recs && t.attached
      modifies this, t
      ensures Valid() && Abs() == Disarmed(old(Abs()), t)
    {
      DisarmedKeepsValid(Abs(), t);
      var cancelled := Cancel(t);
      t.gap := 0;
      t.next := 0;
      t.recurring := false;
      t.cb := None;
      t.attached := false;
      recs := recs[t := TimerRec(0, 0, false, None, false)];
    }

    method GetNextTimerMs(t1: u64, t2: u64) returns (wait: u64)
      requires Valid()
      ensures wait == NextWait(Abs(), t1, t2) && (timers == [] ==> wait == 3000)
    {
      if |timers| > 0 {
        assert timers[0].Fields() == recs[timers[0]];
        if timers[0].next <= t1 {
          return 0;
        } else {
          return Sub64(timers[0].next, t2);
        }
      }
      return 3000;
    }

    /** The locked part of `GetExpiredCb`. */
    method Drain(now: u64) returns (temp: seq<Timer<C>>)
      requires Valid()
      modifies this`timers
      ensures Valid() && Abs() == Drained(old(Abs()), now)
      ensures temp == Select(old(Abs()).recs, old(timers), now, true) && Separate(Abs(), temp)
    {
      KeysAreDeadlines();
      DrainIsFilter(Abs(), now);
      DrainSeparates(Abs(), now);
      DrainedKeepsValid(Abs(), now);
      var keys := Keys();
      var k := LowerBound(keys, now);
      if k < |keys| && keys[k] == now {
        k := k + 1;
      }
      temp := timers[..k];
      timers := timers[k..];
    }

    /** The body of the loop over the drained timers, after the callback is copied. */
    method RearmOne(item: Timer<C>, now: u64)
      requires Valid() && item in recs && item !in timers
      modifies this, item
      ensures Valid() && Abs() == Rearmed(old(Abs()), item, now)
    {
      hide Increasing, Deadlines, DeadlineSet, Insert, Taken;
      RearmedKeepsValid(Abs(), item, now);
      assert item.Fields() == recs[item];
      if item.recurring {
        item.next := Add64(now, item.gap);
        recs := recs[item := item.Fields()];
        Store(item);
      } else {
        item.cb := None;
        recs := recs[item := item.Fields()];
      }
    }

    /** `GetExpiredCb`: `now` is the reading of the throw-away timer, `clock(i)` the reading
        that re-arms the i-th drained timer. The callbacks come out in deadline order. */
    method GetExpiredCb(obs: seq<Option<C>>, now: u64, clock: nat -> u64) returns (obs': seq<Option<C>>)
      requires Valid()
      modifies this, timers
      ensures Valid()
      ensures var batch := Select(old(Abs()).recs, old(timers), now, true);
              && Separate(Drained(old(Abs()), now), batch)
              && Abs() == RearmAll(Drained(old(Abs()), now), batch, clock, 0)
              && obs' == obs + Copied(old(Abs()).recs, batch)
    {
      DrainIsFilter(Abs(), now);
      var temp := Drain(now);
      obs' := RearmEach(obs, temp, clock);
    }

    /** The loop of `GetExpiredCb`. */
    method RearmEach(obs: seq<Option<C>>, temp: seq<Timer<C>>, clock: nat -> u64) returns (obs': seq<Option<C>>)
      requires Valid() && Separate(Abs(), temp)
      modifies this, temp
      ensures Valid() && Abs() == RearmAll(old(Abs()), temp, clock, 0)
      ensures obs' == obs + Copied(old(recs), temp)
    {
      ghost var before, goal := recs, RearmAll(Abs(), temp, clock, 0);
      RearmStarts(Abs(), temp, clock);
      CopiedEnds(before, temp);
      hide Timers.Valid, Separate, Copied, RearmAll, RearmGoesOn;
      obs' := obs;
      var i := 0;
      while i < |temp|
        invariant 0 <= i <= |temp|
        invariant Tied() && RearmGoesOn(Abs(), temp, clock, i, before, goal)
        invariant obs' == obs + Copied(before, temp[..i])
      {
        obs' := RearmNext(obs', temp, clock, i, before, goal);
        CopiedOneMore(before, temp, i);
        i := i + 1;
      }
      RearmEnds(Abs(), temp, clock, before, goal);
    }

    /** One round of it. */
    method RearmNext(obs: seq<Option<C>>, temp: seq<Timer<C>>, clock: nat -> u64, i: nat,
                     ghost before: map<Timer<C>, TimerRec<C>>, ghost goal: TimerSet<Timer<C>, C>)
      returns (obs': seq<Option<C>>)
      requires i < |temp| && Tied() && RearmGoesOn(Abs(), temp, clock, i, before, goal)
      modifies this, temp[i]
      ensures Tied() && RearmGoesOn(Abs(), temp, clock, i + 1, before, goal)
      ensures temp[i] in before && obs' == obs + [before[temp[i]].cb]
    {
      RearmRound(Abs(), temp, clock, i, before, goal);
      var item := temp[i];
      assert item.Fields() == recs[item];
      obs' := obs + [item.cb];
      RearmOne(item, clock(i));
    }
  }
}
