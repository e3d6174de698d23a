/** What the timer operations mean: expiry as a filter on deadlines, the re-arming pass,
    which timers an operation touches, and the wait before the next expiry. */
module TimerLaws {
  import opened Wrappers
  import opened Timers

  // ---------------------------------------------------------------- expiry is a filter

  /** The timers of a list whose deadline has passed (`due`) or has not. */
  ghost function Select<T, C>(recs: map<T, TimerRec<C>>, order: seq<T>, now: u64, due: bool): seq<T> {
    if order == [] then []
    else if order[0] in recs && (recs[order[0]].next <= now) == due
         then [order[0]] + Select(recs, order[1..], now, due)
    else Select(recs, order[1..], now, due)
  }

  lemma {:induction false} SelectSplit<T, C>(recs: map<T, TimerRec<C>>, order: seq<T>, k: nat, now: u64, due: bool)
    requires k <= |order| && forall i | 0 <= i < |order| :: order[i] in recs
    requires forall i | 0 <= i < |order| :: ((recs[order[i]].next <= now) == due <==> (i < k) == due)
    ensures Select(recs, order, now, due) == if due then order[..k] else order[k..]
  {
    if order != [] {
      var k' := if k == 0 then 0 else k - 1;
      SelectSplit(recs, order[1..], k', now, due);
      if k == 0 {
        assert order[1..][0..] == order[1..];
      } else {
        assert order[..k] == [order[0]] + order[1..][..k - 1];
        assert order[k..] == order[1..][k - 1..];
      }
    }
  }

  /** The lower bound with its one-step bump takes exactly the timers whose deadline has
      passed, in deadline order, and leaves exactly the others. */
  lemma DrainIsFilter<T, C>(ts: TimerSet<T, C>, now: u64)
    requires Valid(ts)
    ensures ts.order[..DueCount(ts, now)] == Select(ts.recs, ts.order, now, true)
    ensures Drained(ts, now).order == Select(ts.recs, ts.order, now, false)
    ensures forall i, j | 0 <= i < j < DueCount(ts, now) :: ts.recs[ts.order[i]].next < ts.recs[ts.order[j]].next <= now
  {
    var keys, k := Deadlines(ts), DueCount(ts, now);
    forall i | 0 <= i < |keys| ensures keys[i] <= now <==> i < k {
      var low := LowerBound(keys, now);
      assert i < low ==> keys[i] < now;
      assert low < i ==> keys[low] < keys[i];
    }
    assert forall i | 0 <= i < |keys| :: keys[i] == ts.recs[ts.order[i]].next;
    SelectSplit(ts.recs, ts.order, k, now, true);
    SelectSplit(ts.recs, ts.order, k, now, false);
  }

  /** The loop of `GetExpiredCb` over the drained timers; `clock(i)` is its i-th reading. */
  ghost function RearmAll<T, C>(ts: TimerSet<T, C>, batch: seq<T>, clock: nat -> u64, i: nat): TimerSet<T, C>
    requires Known(ts) && forall j | 0 <= j < |batch| :: batch[j] in ts.recs
    decreases |batch|
  {
    if batch == [] then ts else RearmAll(Rearmed(ts, batch[0], clock(i)), batch[1..], clock, i + 1)
  }

  /** The callbacks of a list of timers, in its order. */
  ghost function Copied<T, C>(recs: map<T, TimerRec<C>>, batch: seq<T>): (cbs: seq<Option<C>>)
    ensures |cbs| == |batch|
    ensures forall j | 0 <= j < |cbs| :: cbs[j] == if batch[j] in recs then recs[batch[j]].cb else None
  {
    seq(|batch|, j requires 0 <= j < |batch| => if batch[j] in recs then recs[batch[j]].cb else None)
  }

  lemma CopiedOneMore<T, C>(recs: map<T, TimerRec<C>>, batch: seq<T>, i: nat)
    requires i < |batch| && batch[i] in recs
    ensures Copied(recs, batch[..i + 1]) == Copied(recs, batch[..i]) + [recs[batch[i]].cb]
  {
  }

  lemma CopiedEnds<T, C>(recs: map<T, TimerRec<C>>, batch: seq<T>)
    ensures Copied(recs, batch[..0]) == [] && Copied(recs, batch[..|batch|]) == Copied(recs, batch)
  {
    assert batch[..|batch|] == batch;
  }

  ghost predicate Separate<T, C>(ts: TimerSet<T, C>, batch: seq<T>) {
    && (forall j | 0 <= j < |batch| :: batch[j] in ts.recs && batch[j] !in ts.order)
    && forall i, j | 0 <= i < j < |batch| :: batch[i] != batch[j]
  }

  /** The deadlines that re-arming gives to the recurring timers of a batch. */
  ghost function NewDeadlines<T, C>(recs: map<T, TimerRec<C>>, batch: seq<T>, clock: nat -> u64, i: nat): set<u64>
    decreases |batch|
  {
    if batch == [] then {}
    else
      (if batch[0] in recs && recs[batch[0]].recurring then {Add64(clock(i), recs[batch[0]].gap)} else {})
      + NewDeadlines(recs, batch[1..], clock, i + 1)
  }

  lemma {:induction false} NewDeadlinesAgree<T, C>(a: map<T, TimerRec<C>>, b: map<T, TimerRec<C>>, batch: seq<T>,
                                                   clock: nat -> u64, i: nat)
    requires forall j | 0 <= j < |batch| :: batch[j] in a && batch[j] in b && a[batch[j]] == b[batch[j]]
    ensures NewDeadlines(a, batch, clock, i) == NewDeadlines(b, batch, clock, i)
    decreases |batch|
  {
    if batch != [] {
      NewDeadlinesAgree(a, b, batch[1..], clock, i + 1);
    }
  }

  lemma RearmStep<T, C>(ts: TimerSet<T, C>, batch: seq<T>, now: u64)
    requires Valid(ts) && Separate(ts, batch) && batch != []
    ensures var r := Rearmed(ts, batch[0], now);
            && Valid(r) && Separate(r, batch[1..]) && r.recs.Keys == ts.recs.Keys
            && forall j | 1 <= j < |batch| :: batch[j] in r.recs && r.recs[batch[j]] == ts.recs[batch[j]]
  {
    var t := batch[0];
    var r := Rearmed(ts, t, now);
    RearmedKeepsValid(ts, t, now);
    forall j | 1 <= j < |batch|
      ensures batch[j] in r.recs && batch[j] !in r.order && r.recs[batch[j]] == ts.recs[batch[j]]
    {
      assert batch[0] != batch[j];
      assert batch[j] !in multiset(ts.order);
      assert batch[j] !in multiset(r.order);
    }
    assert forall j | 0 <= j < |batch| - 1 :: batch[1..][j] == batch[j + 1];
  }

  /** The re-arming pass keeps the set invariant and adds exactly the new deadlines of the
      recurring timers, whatever collisions there are among them. */
  lemma {:induction false} RearmAllDeadlines<T, C>(ts: TimerSet<T, C>, batch: seq<T>, clock: nat -> u64, i: nat)
    requires Valid(ts) && Separate(ts, batch)
    ensures Valid(RearmAll(ts, batch, clock, i))
    ensures DeadlineSet(RearmAll(ts, batch, clock, i)) == DeadlineSet(ts) + NewDeadlines(ts.recs, batch, clock, i)
    decreases |batch|
  {
    if batch != [] {
      var r := Rearmed(ts, batch[0], clock(i));
      RearmedKeepsValid(ts, batch[0], clock(i));
      RearmStep(ts, batch, clock(i));
      RearmAllDeadlines(r, batch[1..], clock, i + 1);
      NewDeadlinesAgree(r.recs, ts.recs, batch[1..], clock, i + 1);
    }
  }

  /** The deadline that the `j`-th timer of a batch gets. */
  ghost function NextOf<T, C>(ts: TimerSet<T, C>, batch: seq<T>, clock: nat -> u64, i: nat, j: nat): int
    requires j < |batch| && batch[j] in ts.recs
  {
    (clock(i + j) + ts.recs[batch[j]].gap) % 0x1_0000_0000_0000_0000
  }

  /** It finds its place: no timer stored before has the deadline, and no recurring one of the batch
      that comes earlier gets it. */
  ghost predicate FindsPlace<T, C>(ts: TimerSet<T, C>, batch: seq<T>, clock: nat -> u64, i: nat, j: nat)
    requires Known(ts) && j < |batch| && forall k | 0 <= k < |batch| :: batch[k] in ts.recs
  {
    && ts.recs[batch[j]].recurring
    && NextOf(ts, batch, clock, i, j) !in DeadlineSet(ts)
    && forall k | 0 <= k < j && ts.recs[batch[k]].recurring :: NextOf(ts, batch, clock, i, k) != NextOf(ts, batch, clock, i, j)
  }

  /** The fields of a timer after its round. */
  ghost function FieldsAfter<C>(r: TimerRec<C>, next: int): TimerRec<C>
    requires 0 <= next < TWO_64
  {
    if r.recurring then TimerRec(r.gap, next, true, r.cb, r.attached) else TimerRec(r.gap, r.next, false, None, r.attached)
  }

  lemma RearmedFields<T, C>(ts: TimerSet<T, C>, t: T, now: u64)
    requires Known(ts) && t in ts.recs
    ensures Rearmed(ts, t, now).recs == ts.recs[t := FieldsAfter(ts.recs[t], Add64(now, ts.recs[t].gap))]
  {
    hide Deadlines, Insert;
  }

  lemma RearmedIsStored<T, C>(ts: TimerSet<T, C>, t: T, now: u64)
    requires Valid(ts) && t in ts.recs && t !in ts.order
    ensures var r, next := Rearmed(ts, t, now), (now + ts.recs[t].gap) % 0x1_0000_0000_0000_0000;
            && Valid(r) && r.recs == ts.recs[t := FieldsAfter(ts.recs[t], next)]
            && (t in r.order <==> ts.recs[t].recurring && next !in DeadlineSet(ts))
            && DeadlineSet(r) == DeadlineSet(ts) + (if ts.recs[t].recurring then {next} else {})
            && (forall x | x != t :: x in r.order <==> x in ts.order)
  {
    var r, next := Rearmed(ts, t, now), Add64(now, ts.recs[t].gap);
    SumsWrap(now, ts.recs[t].gap);
    RearmedFields(ts, t, now);
    RearmedKeepsValid(ts, t, now);
    TakenMeansFound(ts, next);
    hide Valid, Rearmed, Deadlines, DeadlineSet, Taken, FieldsAfter;
    OneMore(ts.order, r.order, t, ts.recs[t].recurring && !Taken(ts, next));
  }

  lemma OneMore<T>(a: seq<T>, b: seq<T>, t: T, more: bool)
    requires t !in a && multiset(b) == multiset(a) + (if more then multiset{t} else multiset{})
    ensures t in b <==> more
    ensures forall x | x != t :: x in b <==> x in a
  {
    assert forall x :: x in a <==> x in multiset(a);
    assert forall x :: x in b <==> x in multiset(b);
  }

  /** What has become of the `j`-th timer of the batch: a one-shot timer has lost its callback; a
      recurring one has its new deadline and is stored if it found a place. */
  ghost predicate Settled<T, C>(ts: TimerSet<T, C>, r: TimerSet<T, C>, batch: seq<T>, clock: nat -> u64, i: nat, j: nat)
    requires Known(ts) && j < |batch| && forall k | 0 <= k < |batch| :: batch[k] in ts.recs
  {
    && batch[j] in r.recs && r.recs[batch[j]] == FieldsAfter(ts.recs[batch[j]], NextOf(ts, batch, clock, i, j))
    && (batch[j] in r.order <==> FindsPlace(ts, batch, clock, i, j))
  }

  ghost predicate SameTimer<T, C>(ts: TimerSet<T, C>, r: TimerSet<T, C>, x: T) {
    && (x in ts.recs ==> x in r.recs && r.recs[x] == ts.recs[x])
    && (x in r.order <==> x in ts.order)
  }

  /** What the re-arming loop does, whatever deadlines collide: each timer of the batch is settled, where
      the new deadline counts from the reading of its own round and, of two that collide, the one drained
      first finds the place. No other timer is touched. */
  lemma {:induction false} RearmAllSettles<T, C>(ts: TimerSet<T, C>, batch: seq<T>, clock: nat -> u64, i: nat)
    requires Valid(ts) && Separate(ts, batch)
    ensures Valid(RearmAll(ts, batch, clock, i)) && RearmAll(ts, batch, clock, i).recs.Keys == ts.recs.Keys
    ensures forall x | x !in batch :: SameTimer(ts, RearmAll(ts, batch, clock, i), x)
    ensures forall j: nat | j < |batch| :: Settled(ts, RearmAll(ts, batch, clock, i), batch, clock, i, j)
    decreases |batch|
  {
    if batch != [] {
      var ts', rest := Rearmed(ts, batch[0], clock(i)), batch[1..];
      RearmedIsStored(ts, batch[0], clock(i));
      RearmStep(ts, batch, clock(i));
      RearmAllSettles(ts', rest, clock, i + 1);
      hide Settled, SameTimer, Valid, Rearmed, NextOf, DeadlineSet, FieldsAfter;
      RestSettles(ts, ts', RearmAll(ts', rest, clock, i + 1), batch, rest, clock, i, i + 1);
    }
  }

  lemma RestSettles<T, C>(ts: TimerSet<T, C>, ts': TimerSet<T, C>, r: TimerSet<T, C>, batch: seq<T>, rest: seq<T>,
                          clock: nat -> u64, i: nat, next: nat)
    requires batch != [] && rest == batch[1..] && next == i + 1
    requires Valid(ts) && Separate(ts, batch) && Valid(ts') && Separate(ts', batch[1..])
    requires ts'.recs == ts.recs[batch[0] := FieldsAfter(ts.recs[batch[0]], NextOf(ts, batch, clock, i, 0))]
    requires batch[0] in ts'.order <==> ts.recs[batch[0]].recurring && NextOf(ts, batch, clock, i, 0) !in DeadlineSet(ts)
    requires forall x | x != batch[0] :: x in ts'.order <==> x in ts.order
    requires DeadlineSet(ts') == DeadlineSet(ts) + (if ts.recs[batch[0]].recurring then {NextOf(ts, batch, clock, i, 0)} else {})
    requires forall x | x !in rest :: SameTimer(ts', r, x)
    requires forall j: nat | j < |rest| :: Settled(ts', r, rest, clock, next, j)
    ensures forall x | x !in batch :: SameTimer(ts, r, x)
    ensures forall j: nat | j < |batch| :: Settled(ts, r, batch, clock, i, j)
  {
    assert Known(ts);
    hide Valid, NextOf, DeadlineSet, FieldsAfter, FindsPlace, Settled, SameTimer;
    FirstSettles(ts, ts', r, batch, clock, i);
    forall j: nat | 0 < j < |batch| ensures Settled(ts, r, batch, clock, i, j) {
      LaterSettles(ts, ts', r, batch, clock, i, j);
    }
    forall x | x !in batch ensures SameTimer(ts, r, x) {
      assert x != batch[0] && x !in rest;
      SameTimerTwice(ts, ts', r, x);
    }
  }

  lemma SameTimerTwice<T, C>(ts: TimerSet<T, C>, ts': TimerSet<T, C>, r: TimerSet<T, C>, x: T)
    requires SameTimer(ts', r, x) && (x in ts'.order <==> x in ts.order)
    requires x in ts.recs ==> x in ts'.recs && ts'.recs[x] == ts.recs[x]
    ensures SameTimer(ts, r, x)
  {
  }

  lemma FirstSettles<T, C>(ts: TimerSet<T, C>, ts': TimerSet<T, C>, r: TimerSet<T, C>, batch: seq<T>,
                           clock: nat -> u64, i: nat)
    requires Valid(ts) && Separate(ts, batch) && batch != [] && batch[0] in ts'.recs
    requires ts'.recs[batch[0]] == FieldsAfter(ts.recs[batch[0]], NextOf(ts, batch, clock, i, 0))
    requires batch[0] in ts'.order <==> ts.recs[batch[0]].recurring && NextOf(ts, batch, clock, i, 0) !in DeadlineSet(ts)
    requires forall x | x !in batch[1..] :: SameTimer(ts', r, x)
    ensures Settled(ts, r, batch, clock, i, 0)
  {
    hide Valid, NextOf, DeadlineSet, FieldsAfter;
    assert batch[0] !in batch[1..];
    assert SameTimer(ts', r, batch[0]);
  }

  lemma LaterSettles<T, C>(ts: TimerSet<T, C>, ts': TimerSet<T, C>, r: TimerSet<T, C>, batch: seq<T>,
                           clock: nat -> u64, i: nat, j: nat)
    requires 0 < j < |batch| && Valid(ts) && Separate(ts, batch) && Valid(ts') && Separate(ts', batch[1..])
    requires forall k | 1 <= k < |batch| :: batch[k] in ts'.recs && ts'.recs[batch[k]] == ts.recs[batch[k]]
    requires DeadlineSet(ts') == DeadlineSet(ts) + (if ts.recs[batch[0]].recurring then {NextOf(ts, batch, clock, i, 0)} else {})
    requires Settled(ts', r, batch[1..], clock, i + 1, j - 1)
    ensures Settled(ts, r, batch, clock, i, j)
  {
    PlaceOfLater(ts, ts', batch, clock, i, j);
    hide Valid, NextOf, DeadlineSet, FieldsAfter, FindsPlace;
    assert batch[1..][j - 1] == batch[j];
  }

  lemma PlaceOfLater<T, C>(ts: TimerSet<T, C>, ts': TimerSet<T, C>, batch: seq<T>, clock: nat -> u64, i: nat, j: nat)
    requires 0 < j < |batch| && Valid(ts) && Separate(ts, batch) && Valid(ts') && Separate(ts', batch[1..])
    requires forall k | 1 <= k < |batch| :: batch[k] in ts'.recs && ts'.recs[batch[k]] == ts.recs[batch[k]]
    requires DeadlineSet(ts') == DeadlineSet(ts) + (if ts.recs[batch[0]].recurring then {NextOf(ts, batch, clock, i, 0)} else {})
    ensures NextOf(ts', batch[1..], clock, i + 1, j - 1) == NextOf(ts, batch, clock, i, j)
    ensures FindsPlace(ts', batch[1..], clock, i + 1, j - 1) <==> FindsPlace(ts, batch, clock, i, j)
  {
    hide Valid, DeadlineSet;
    var rest := batch[1..];
    forall k: nat | k < |rest|
      ensures rest[k] == batch[k + 1] && NextOf(ts', rest, clock, i + 1, k) == NextOf(ts, batch, clock, i, k + 1)
    {
      assert i + 1 + k == i + (k + 1);
    }
    hide NextOf;
  }

  /** With `i` timers of the batch re-armed, the others are as they were when drained, and
      re-arming them too leads to `goal`. */
  ghost predicate RearmGoesOn<T, C>(ts: TimerSet<T, C>, batch: seq<T>, clock: nat -> u64, i: nat,
                                    before: map<T, TimerRec<C>>, goal: TimerSet<T, C>) {
    && i <= |batch| && Valid(ts) && Separate(ts, batch[i..])
    && RearmAll(ts, batch[i..], clock, i) == goal
    && forall j | i <= j < |batch| :: batch[j] in ts.recs && batch[j] in before && ts.recs[batch[j]] == before[batch[j]]
  }

  lemma RearmStarts<T, C>(ts: TimerSet<T, C>, batch: seq<T>, clock: nat -> u64)
    requires Valid(ts) && Separate(ts, batch)
    ensures RearmGoesOn(ts, batch, clock, 0, ts.recs, RearmAll(ts, batch, clock, 0))
  {
  }

  lemma RearmRound<T, C>(ts: TimerSet<T, C>, batch: seq<T>, clock: nat -> u64, i: nat,
                         before: map<T, TimerRec<C>>, goal: TimerSet<T, C>)
    requires RearmGoesOn(ts, batch, clock, i, before, goal) && i < |batch|
    ensures Storable(ts, batch[i]) && ts.recs[batch[i]] == before[batch[i]]
    ensures RearmGoesOn(Rearmed(ts, batch[i], clock(i)), batch, clock, i + 1, before, goal)
  {
    RearmStep(ts, batch[i..], clock(i));
    assert batch[i..][0] == batch[i] && batch[i..][1..] == batch[i + 1..];
    assert forall j | i < j < |batch| :: batch[j] == batch[i..][j - i];
  }

  lemma RearmEnds<T, C>(ts: TimerSet<T, C>, batch: seq<T>, clock: nat -> u64,
                        before: map<T, TimerRec<C>>, goal: TimerSet<T, C>)
    requires RearmGoesOn(ts, batch, clock, |batch|, before, goal)
    ensures ts == goal && Valid(ts)
  {
  }

  lemma DrainSeparates<T, C>(ts: TimerSet<T, C>, now: u64)
    requires Valid(ts)
    ensures Separate(Drained(ts, now), ts.order[..DueCount(ts, now)])
  {
  }

  /** `GetExpiredCb` as a whole: the stored deadlines afterwards are those that had not
      passed together with the new deadlines of the recurring timers that had. */
  lemma ExpiryDeadlines<T, C>(ts: TimerSet<T, C>, now: u64, clock: nat -> u64)
    requires Valid(ts)
    ensures var batch := Select(ts.recs, ts.order, now, true);
            && Separate(Drained(ts, now), batch)
            && Valid(RearmAll(Drained(ts, now), batch, clock, 0))
            && DeadlineSet(RearmAll(Drained(ts, now), batch, clock, 0))
               == (set d | d in DeadlineSet(ts) && now < d) + NewDeadlines(ts.recs, batch, clock, 0)
  {
    DrainIsFilter(ts, now);
    DrainSeparates(ts, now);
    RestDeadlines(ts, now);
    RearmAllDeadlines(Drained(ts, now), Select(ts.recs, ts.order, now, true), clock, 0);
  }

  lemma RestDeadlines<T, C>(ts: TimerSet<T, C>, now: u64)
    requires Valid(ts)
    ensures Valid(Drained(ts, now))
    ensures DeadlineSet(Drained(ts, now)) == set d | d in DeadlineSet(ts) && now < d
  {
    var keys, k := Deadlines(ts), DueCount(ts, now);
    DrainedKeepsValid(ts, now);
    assert Deadlines(Drained(ts, now)) == keys[k..];
    KeysAfter(keys, k, now);
  }

  lemma KeysAfter(keys: seq<u64>, k: nat, now: u64)
    requires Increasing(keys)
    requires k == var low := LowerBound(keys, now); if low < |keys| && keys[low] == now then low + 1 else low
    ensures k <= |keys|
    ensures KeySet(keys[k..]) == set d | d in KeySet(keys) && now < d
  {
  }

  // ---------------------------------------------------------------- which timers are touched

  ghost function Without<T>(s: seq<T>, t: T): seq<T> {
    if s == [] then [] else (if s[0] == t then [] else [s[0]]) + Without(s[1..], t)
  }

  lemma {:induction false} WithoutAbsent<T>(s: seq<T>, t: T)
    ensures Without(s, t) == s <==> t !in s
    ensures |Without(s, t)| <= |s|
  {
    if s != [] {
      WithoutAbsent(s[1..], t);
      if s[0] == t {
        assert |Without(s, t)| < |s|;
      } else {
        assert Without(s, t)[1..] == Without(s[1..], t);
      }
    }
  }

  lemma {:induction false} WithoutOne<T>(s: seq<T>, k: nat, t: T)
    requires k < |s| && s[k] == t && t !in s[..k] && t !in s[k + 1..]
    ensures Without(s, t) == s[..k] + s[k + 1..]
    decreases k
  {
    var tail := s[1..];
    if k == 0 {
      WithoutAbsent(tail, t);
      assert s[..0] + s[1..] == tail;
    } else {
      assert s[..k][1..] == tail[..k - 1] && s[k + 1..] == tail[k..] && s[0] in s[..k];
      assert forall x | x in s[..k][1..] :: x in s[..k];
      WithoutOne(tail, k - 1, t);
      assert s[..k] == [s[0]] + tail[..k - 1];
    }
  }

  lemma WithoutInserted<T>(s: seq<T>, j: nat, x: T)
    requires j <= |s| && x !in s
    ensures Without(s[..j] + [x] + s[j..], x) == s
  {
    var r := s[..j] + [x] + s[j..];
    assert r[..j] == s[..j] && r[j + 1..] == s[j..];
    WithoutOne(r, j, x);
    assert s == s[..j] + s[j..];
  }

  /** No other timer changes a field, its place in the order, or whether it is stored. */
  ghost predicate OthersUntouched<T, C>(a: TimerSet<T, C>, b: TimerSet<T, C>, t: T) {
    && (forall x | x in a.recs && x != t :: x in b.recs && b.recs[x] == a.recs[x])
    && Without(a.order, t) == Without(b.order, t)
  }

  lemma OrderSplit<T, C>(ts: TimerSet<T, C>, k: nat)
    requires Valid(ts) && k < |ts.order|
    ensures ts.order[k] !in ts.order[..k] && ts.order[k] !in ts.order[k + 1..]
  {
  }

  /** `cancel` succeeds exactly when some stored timer has this timer's deadline. It leaves
      every other timer alone exactly when this timer is itself stored or nothing is found:
      a timer dropped by an earlier collision cancels the one it collided with. */
  lemma CancelTouches<T, C>(ts: TimerSet<T, C>, t: T)
    requires Valid(ts) && t in ts.recs
    ensures t in ts.order ==> Cancelled(ts, t) == ts.(order := Without(ts.order, t))
    ensures Found(ts, t) < |ts.order| <==> Taken(ts, ts.recs[t].next)
    ensures OthersUntouched(ts, Cancelled(ts, t), t) <==> t in ts.order || !Taken(ts, ts.recs[t].next)
  {
    var k, r := Found(ts, t), Cancelled(ts, t);
    FoundByDeadline(ts, t);
    if t in ts.order {
      var i :| 0 <= i < |ts.order| && ts.order[i] == t;
      FoundSelf(ts, i);
      OrderSplit(ts, i);
      WithoutOne(ts.order, i, t);
      EraseKeepsValid(ts, i);
      WithoutAbsent(r.order, t);
    } else if k < |ts.order| {
      WithoutAbsent(ts.order, t);
      assert |r.order| < |ts.order|;
      WithoutAbsent(r.order, t);
    }
  }

  /** Moving the timer at place `k`: the others keep their places around it. */
  lemma MovedKeepsOthers<T, C>(ts: TimerSet<T, C>, k: nat, gap: u64, next: u64)
    requires Valid(ts) && k < |ts.order|
    ensures OthersUntouched(ts, Moved(ts, k, gap, next), ts.order[k])
  {
    var x, r := ts.order[k], Moved(ts, k, gap, next);
    var out := Erase(ts, k);
    OrderSplit(ts, k);
    WithoutOne(ts.order, k, x);
    EraseKeepsValid(ts, k);
    MovedKeepsValid(ts, k, gap, next);
    WithoutAbsent(out.order, x);
    if x in r.order {
      var j := LowerBound(Deadlines(out.(recs := out.recs[x := out.recs[x].(gap := gap, next := next)])), next);
      WithoutInserted(out.order, j, x);
    } else {
      assert r.order == out.order;
    }
  }

  /** Moving a timer back to where it was with the fields it had changes nothing. */
  lemma MovedInPlace<T, C>(ts: TimerSet<T, C>, k: nat)
    requires Valid(ts) && k < |ts.order|
    ensures var r := ts.recs[ts.order[k]]; Moved(ts, k, r.gap, r.next) == ts
  {
    hide Insert;
    var x, r, out := ts.order[k], ts.recs[ts.order[k]], Erase(ts, k);
    assert out.recs[x := out.recs[x].(gap := r.gap, next := r.next)] == out.recs;
    ErasedKnown(ts, k);
    InsertedBack(ts, k);
  }

  lemma ErasedKnown<T, C>(ts: TimerSet<T, C>, k: nat)
    requires Known(ts) && k < |ts.order|
    ensures Known(Erase(ts, k)) && Deadlines(Erase(ts, k)) == Deadlines(ts)[..k] + Deadlines(ts)[k + 1..]
  {
    var r := Erase(ts, k);
    assert forall i | 0 <= i < |r.order| :: r.order[i] == ts.order[if i < k then i else i + 1];
  }

  lemma InsertedBack<T, C>(ts: TimerSet<T, C>, k: nat)
    requires Valid(ts) && k < |ts.order| && Known(Erase(ts, k))
    ensures Insert(Erase(ts, k), ts.order[k]) == ts
  {
    var out, x := Erase(ts, k), ts.order[k];
    GapInKeys(Deadlines(ts), k);
    ErasedKnown(ts, k);
    assert out.order[..k] == ts.order[..k] && out.order[k..] == ts.order[k + 1..];
    assert ts.order == ts.order[..k] + [x] + ts.order[k + 1..];
  }

  /** A deadline taken out of the increasing keys would go back to the same place. */
  lemma GapInKeys(keys: seq<u64>, k: nat)
    requires Increasing(keys) && k < |keys|
    ensures var rest := keys[..k] + keys[k + 1..];
            LowerBound(rest, keys[k]) == k && (k < |rest| ==> rest[k] != keys[k])
  {
    var rest := keys[..k] + keys[k + 1..];
    assert forall i | 0 <= i < k :: rest[i] == keys[i] < keys[k];
    assert k < |rest| ==> rest[k] == keys[k + 1] > keys[k];
  }

  /** `Moved` as reached through `find` on timer `t`: only `t` is affected exactly when `t`
      is the timer found, or the timer found gets back the fields it had. */
  lemma MoveTouches<T, C>(ts: TimerSet<T, C>, t: T, gap: u64, next: u64)
    requires Valid(ts) && t in ts.recs && Found(ts, t) < |ts.order|
    ensures var k := Found(ts, t);
            var x := ts.recs[ts.order[k]];
            OthersUntouched(ts, Moved(ts, k, gap, next), t) <==> t in ts.order || (gap == x.gap && next == x.next)
  {
    var k := Found(ts, t);
    var x := ts.order[k];
    if t in ts.order {
      var i :| 0 <= i < |ts.order| && ts.order[i] == t;
      FoundSelf(ts, i);
      MovedKeepsOthers(ts, k, gap, next);
    } else {
      assert x in ts.order && x != t;
      MovedKeepsValid(ts, k, gap, next);
      assert Moved(ts, k, gap, next).recs[x] == ts.recs[x].(gap := gap, next := next);
      if gap == ts.recs[x].gap && next == ts.recs[x].next {
        MovedInPlace(ts, k);
      }
    }
  }

  /** `refresh` and `reset(gap, from_now)` look their timer up by deadline. On a stored timer
      they affect that timer alone. On one that is not stored they move whichever timer has
      its deadline, and leave it as it was only when the new fields are the old ones. */
  lemma RefreshAndRegapTouch<T, C>(ts: TimerSet<T, C>, t: T, gap: u64, fromNow: bool, now: u64)
    requires Valid(ts) && t in ts.recs
    ensures OthersUntouched(ts, Refreshed(ts, t, now), t)
            <==> (t in ts.order || !Taken(ts, ts.recs[t].next) || Add64(now, ts.recs[t].gap) == ts.recs[t].next)
    ensures OthersUntouched(ts, Regapped(ts, t, gap, fromNow, now), t)
            <==> (t in ts.order || !Taken(ts, ts.recs[t].next)
                  || (gap == ts.recs[ts.order[Found(ts, t)]].gap
                      && ts.recs[t].next == (if fromNow then Add64(now, gap) else Sub64(ts.recs[t].next, gap))))
  {
    var k := Found(ts, t);
    FoundByDeadline(ts, t);
    if k < |ts.order| {
      MoveTouches(ts, t, ts.recs[ts.order[k]].gap, Add64(now, ts.recs[t].gap));
      MoveTouches(ts, t, gap, if fromNow then Add64(now, gap) else Sub64(ts.recs[ts.order[k]].next, gap));
    }
  }

  // ---------------------------------------------------------------- what becomes of the timer

  /** Timer `x` gets interval `gap` and deadline `next` and is stored if no other stored timer has that
      deadline. Nothing else changes. */
  ghost predicate Rescheduled<T, C>(ts: TimerSet<T, C>, r: TimerSet<T, C>, x: T, gap: int, next: int) {
    && x in ts.recs && 0 <= gap < TWO_64 && 0 <= next < TWO_64 && Valid(r)
    && r.recs == ts.recs[x := TimerRec(gap, next, ts.recs[x].recurring, ts.recs[x].cb, ts.recs[x].attached)]
    && Without(r.order, x) == Without(ts.order, x)
    && (x in r.order <==> !HasOther(ts, x, next))
  }

  ghost predicate HasOther<T, C>(ts: TimerSet<T, C>, x: T, next: int) {
    exists y | y in ts.order && y in ts.recs :: y != x && ts.recs[y].next == next
  }

  lemma TakenByAnother<T, C>(ts: TimerSet<T, C>, k: nat, next: u64)
    requires Valid(ts) && k < |ts.order|
    ensures Known(Erase(ts, k)) && (Taken(Erase(ts, k), next) <==> HasOther(ts, ts.order[k], next))
  {
    var out, x := Erase(ts, k), ts.order[k];
    assert out.recs == ts.recs;
    EraseKeepsValid(ts, k);
    OneMore(out.order, ts.order, x, true);
    hide Increasing, Deadlines, Erase;
    if HasOther(ts, x, next) {
      var y :| y in ts.order && y in ts.recs && y != x && ts.recs[y].next == next;
      assert y in out.order;
      var i :| 0 <= i < |out.order| && out.order[i] == y;
    }
    if Taken(out, next) {
      var i :| 0 <= i < |out.order| && out.recs[out.order[i]].next == next;
      assert out.order[i] in out.order && out.order[i] != x;
    }
  }

  lemma MovedIsRescheduled<T, C>(ts: TimerSet<T, C>, k: nat, gap: u64, next: u64)
    requires Valid(ts) && k < |ts.order|
    ensures Rescheduled(ts, Moved(ts, k, gap, next), ts.order[k], gap, next)
  {
    hide Moved, Increasing, Deadlines, Taken, HasOther;
    MovedKeepsValid(ts, k, gap, next);
    MovedKeepsOthers(ts, k, gap, next);
    TakenByAnother(ts, k, next);
  }

  /** `x` is the stored timer with the deadline of `t`; it is `t` when `t` is stored. */
  ghost predicate Meets<T, C>(ts: TimerSet<T, C>, t: T, x: T) {
    t in ts.recs && x in ts.order && x in ts.recs && ts.recs[x].next == ts.recs[t].next
  }

  lemma MeetsItself<T, C>(ts: TimerSet<T, C>, t: T, x: T)
    requires Valid(ts) && Meets(ts, t, x)
    ensures Found(ts, t) < |ts.order| && ts.order[Found(ts, t)] == x
    ensures t in ts.order ==> x == t
  {
    var k := Found(ts, t);
    FoundByDeadline(ts, t);
    var i :| 0 <= i < |ts.order| && ts.order[i] == x;
    FoundSelf(ts, i);
  }

  /** What `refresh` and `reset(gap, from_now)` do to the timer they find: `refresh` keeps its interval
      and counts the one of `t` from now, `reset` gives it the new interval and counts it from now or
      takes it off the old deadline. */
  lemma FoundIsRescheduled<T, C>(ts: TimerSet<T, C>, t: T, x: T, gap: u64, fromNow: bool, now: u64)
    requires Valid(ts) && Meets(ts, t, x)
    ensures Rescheduled(ts, Refreshed(ts, t, now), x, ts.recs[x].gap, (now + ts.recs[t].gap) % 0x1_0000_0000_0000_0000)
    ensures Rescheduled(ts, Regapped(ts, t, gap, fromNow, now), x, gap,
                        if fromNow then (now + gap) % 0x1_0000_0000_0000_0000
                        else (ts.recs[x].next - gap) % 0x1_0000_0000_0000_0000)
  {
    hide Rescheduled, Moved, Found;
    MeetsItself(ts, t, x);
    SumsWrap(now, ts.recs[t].gap);
    SumsWrap(now, gap);
    SumsWrap(ts.recs[x].next, gap);
    MovedIsRescheduled(ts, Found(ts, t), ts.recs[x].gap, Add64(now, ts.recs[t].gap));
    MovedIsRescheduled(ts, Found(ts, t), gap, if fromNow then Add64(now, gap) else Sub64(ts.recs[x].next, gap));
  }

  /** What `cancel` and `reset()` do: the timer found leaves the set, and `reset()` clears every field of
      its own timer. */
  lemma FoundIsCancelled<T, C>(ts: TimerSet<T, C>, t: T, x: T)
    requires Valid(ts) && Meets(ts, t, x)
    ensures Cancelled(ts, t) == ts.(order := Without(ts.order, x))
    ensures Disarmed(ts, t) == TimerSet(ts.recs[t := TimerRec(0, 0, false, None, false)], Without(ts.order, x))
  {
    MeetsItself(ts, t, x);
    OrderSplit(ts, Found(ts, t));
    WithoutOne(ts.order, Found(ts, t), x);
  }

  /** Without a stored timer of this deadline nothing is found, and only `reset()` changes anything. */
  lemma NobodyIsFound<T, C>(ts: TimerSet<T, C>, t: T, gap: u64, fromNow: bool, now: u64)
    requires Valid(ts) && t in ts.recs && forall x :: !Meets(ts, t, x)
    ensures Refreshed(ts, t, now) == Regapped(ts, t, gap, fromNow, now) == Cancelled(ts, t) == ts
    ensures Disarmed(ts, t) == ts.(recs := ts.recs[t := TimerRec(0, 0, false, None, false)])
  {
    FoundByDeadline(ts, t);
    var k := Found(ts, t);
    if k < |ts.order| {
      assert Meets(ts, t, ts.order[k]);
    }
  }

  /** `addTimer` makes a timer with the fields given, due one interval from now, and stores it if no
      stored timer has that deadline. */
  lemma AddedIsStored<T, C>(ts: TimerSet<T, C>, t: T, gap: u64, cb: Option<C>, recurring: bool, now: u64)
    requires Valid(ts) && t !in ts.recs
    ensures var r, next := Added(ts, t, gap, cb, recurring, now), (now + gap) % 0x1_0000_0000_0000_0000;
            && Valid(r) && r.recs == ts.recs[t := TimerRec(gap, next, recurring, cb, true)]
            && Without(r.order, t) == ts.order
            && (t in r.order <==> !HasOther(ts, t, next))
  {
    var next := Add64(now, gap);
    var edited := ts.(recs := ts.recs[t := TimerRec(gap, next, recurring, cb, true)]);
    SumsWrap(now, gap);
    AddedKeepsValid(ts, t, gap, cb, recurring, now);
    UnstoredFieldsAreFree(ts, t, edited.recs[t]);
    InsertedOthers(edited, t);
    TakenByOther(ts, t, next);
    assert t !in multiset(ts.order);
    assert t in multiset(Added(ts, t, gap, cb, recurring, now).order) <==> !Taken(ts, next);
  }

  lemma InsertedOthers<T, C>(ts: TimerSet<T, C>, t: T)
    requires Valid(ts) && Storable(ts, t)
    ensures Without(Insert(ts, t).order, t) == ts.order
  {
    var k := LowerBound(Deadlines(ts), ts.recs[t].next);
    WithoutAbsent(ts.order, t);
    WithoutInserted(ts.order, k, t);
  }

  lemma TakenByOther<T, C>(ts: TimerSet<T, C>, t: T, next: u64)
    requires Valid(ts) && t !in ts.order
    ensures Taken(ts, next) <==> HasOther(ts, t, next)
  {
    if HasOther(ts, t, next) {
      var y :| y in ts.order && y in ts.recs && y != t && ts.recs[y].next == next;
      var i :| 0 <= i < |ts.order| && ts.order[i] == y;
    }
    if Taken(ts, next) {
      var i :| 0 <= i < |ts.order| && ts.recs[ts.order[i]].next == next;
      assert ts.order[i] != t;
    }
  }

  /** Two timers made at time 10 with interval 5. */
  ghost function TwoTimers(): TimerSet<nat, nat> {
    var first := Added(NoTimers<nat, nat>(), 1, 5, Some(100), false, 10);
    Added(first, 2, 5, Some(200), false, 10)
  }

  /** They have one deadline, and the second is not stored. */
  lemma TwoTimersCollide()
    ensures TwoTimers() == TimerSet(map[1 := TimerRec(5, 15, false, Some(100), true),
                                        2 := TimerRec(5, 15, false, Some(200), true)], [1])
    ensures Valid(TwoTimers()) && Deadlines(TwoTimers()) == [15]
  {
    var none := NoTimers<nat, nat>();
    assert Deadlines(none) == [];
    var first := Added(none, 1, 5, Some(100), false, 10);
    assert first.order == [1];
    assert Deadlines(first) == [15];
  }

  /** Cancelling the second removes the first. */
  lemma CancelHitsAnother()
    ensures 2 !in TwoTimers().order && 1 in TwoTimers().order
    ensures Known(TwoTimers()) && 2 in TwoTimers().recs && Cancelled(TwoTimers(), 2).order == []
  {
    TwoTimersCollide();
    hide TwoTimers;
  }

  /** Refreshing the second moves the first. */
  lemma RefreshHitsAnother()
    ensures Known(TwoTimers()) && 2 in TwoTimers().recs && 1 in TwoTimers().recs && TwoTimers().recs[1].next == 15
    ensures var moved := Refreshed(TwoTimers(), 2, 20); 1 in moved.recs && moved.recs[1].next == 25
  {
    TwoTimersCollide();
    hide TwoTimers, Moved, Insert;
    var both := TwoTimers();
    assert Found(both, 2) == 0;
    MovedKeepsValid(both, 0, 5, 25);
  }

  // ---------------------------------------------------------------- waiting for the next expiry

  /** `GetNextTimerMs`, which reads the clock for its test and again for its difference. */
  ghost function NextWait<T, C>(ts: TimerSet<T, C>, t1: u64, t2: u64): u64
    requires Known(ts)
  {
    if ts.order == [] then 3000
    else
      var next := ts.recs[ts.order[0]].next;
      if next <= t1 then 0 else Sub64(next, t2)
  }

  ghost predicate SomethingDue<T, C>(ts: TimerSet<T, C>, at: nat)
    requires Known(ts)
  {
    at < TWO_64 && Select(ts.recs, ts.order, at, true) != []
  }

  lemma DueWhenFirstIsDue<T, C>(ts: TimerSet<T, C>, at: u64)
    requires Valid(ts)
    ensures SomethingDue(ts, at) <==> ts.order != [] && ts.recs[ts.order[0]].next <= at
  {
    var keys, k := Deadlines(ts), DueCount(ts, at);
    DrainIsFilter(ts, at);
    if ts.order != [] && keys[0] <= at {
      assert k > 0;
    }
  }

  /** The wait is exact, nothing expires before it is over and something does at its end,
      unless the first deadline lies strictly between the two readings of the clock; the
      difference then wraps. With one reading it is always exact. */
  lemma WaitIsExact<T, C>(ts: TimerSet<T, C>, t1: u64, t2: u64)
    requires Valid(ts) && ts.order != [] && t1 <= t2
    ensures var w, next := NextWait(ts, t1, t2), ts.recs[ts.order[0]].next;
            ((forall at | t2 <= at < t2 + w && at < TWO_64 :: !SomethingDue(ts, at)) && SomethingDue(ts, t2 + w))
            <==> !(t1 < next < t2)
  {
    var w, next := NextWait(ts, t1, t2), ts.recs[ts.order[0]].next;
    forall at: nat | at < TWO_64 ensures SomethingDue(ts, at) <==> next <= at {
      DueWhenFirstIsDue(ts, at);
    }
    if t1 < next < t2 {
      assert w > 0 && SomethingDue(ts, t2);
    }
  }

  /** A deadline of 15 read at 10 and at 20: the wait is nearly 2 to the 64. */
  lemma WaitWraps()
    ensures Known(TwoTimers()) && NextWait(TwoTimers(), 10, 20) == TWO_64 - 5
  {
    TwoTimersCollide();
    hide TwoTimers;
  }
}
