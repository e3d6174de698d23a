/** The timer set of sylar/Timer.cpp and sylar/Timer.hpp as a value: the timers' fields,
    and the timers stored in the set in the order of their deadlines. The comparator looks
    at deadlines only, so two timers with one deadline are one element to the set. */
module Timers {
  import opened Wrappers

  const TWO_64: nat := 0x1_0000_0000_0000_0000

  type u64 = x: nat | x < TWO_64

  /** Unsigned 64-bit sum and difference, which wrap. */
  function Add64(a: u64, b: u64): u64 {
    if a + b < TWO_64 then a + b else a + b - TWO_64
  }

  function Sub64(a: u64, b: u64): u64 {
    if b <= a then a - b else a + TWO_64 - b
  }

  /** Clock sums and differences are those of `uint64_t`. */
  lemma SumsWrap(a: u64, b: u64)
    ensures Add64(a, b) == (a + b) % 0x1_0000_0000_0000_0000
    ensures Sub64(a, b) == (a - b) % 0x1_0000_0000_0000_0000
  {
  }

  /** The fields of a `Timer`; it is attached until `reset()` clears its manager. */
  datatype TimerRec<C> = TimerRec(gap: u64, next: u64, recurring: bool, cb: Option<C>, attached: bool)

  datatype TimerSet<T, C> = TimerSet(recs: map<T, TimerRec<C>>, order: seq<T>)

  function NoTimers<T, C>(): TimerSet<T, C> {
    TimerSet(map[], [])
  }

  // ---------------------------------------------------------------- std::set on deadlines

  ghost predicate Increasing(keys: seq<u64>) {
    forall i, j | 0 <= i < j < |keys| :: keys[i] < keys[j]
  }

  function LowerBound(keys: seq<u64>, d: u64): (k: nat)
    ensures k <= |keys|
    ensures forall i | 0 <= i < k :: keys[i] < d
    ensures k < |keys| ==> d <= keys[k]
  {
    if keys == [] || d <= keys[0] then 0 else 1 + LowerBound(keys[1..], d)
  }

  function Find(keys: seq<u64>, d: u64): (k: nat)
    ensures k <= |keys|
    ensures k < |keys| ==> keys[k] == d
  {
    var k := LowerBound(keys, d);
    if k < |keys| && keys[k] == d then k else |keys|
  }

  ghost predicate Known<T, C>(ts: TimerSet<T, C>) {
    forall i | 0 <= i < |ts.order| :: ts.order[i] in ts.recs
  }

  ghost function Deadlines<T, C>(ts: TimerSet<T, C>): (keys: seq<u64>)
    requires Known(ts)
    ensures |keys| == |ts.order|
    ensures forall i | 0 <= i < |keys| :: keys[i] == ts.recs[ts.order[i]].next
  {
    seq(|ts.order|, i requires 0 <= i < |ts.order| => ts.recs[ts.order[i]].next)
  }

  /** The invariant of the set: the stored deadlines strictly increase. */
  ghost predicate Valid<T, C>(ts: TimerSet<T, C>) {
    Known(ts) && Increasing(Deadlines(ts))
  }

  /** Every stored timer has a callback to hand over. */
  ghost predicate Callable<T, C>(ts: TimerSet<T, C>)
    requires Known(ts)
  {
    forall i | 0 <= i < |ts.order| :: ts.recs[ts.order[i]].cb.Some?
  }

  ghost function Insert<T, C>(ts: TimerSet<T, C>, t: T): (r: TimerSet<T, C>)
    requires Known(ts) && t in ts.recs
    ensures Known(r) && r.recs == ts.recs
  {
    var keys, d := Deadlines(ts), ts.recs[t].next;
    var k := LowerBound(keys, d);
    if k < |keys| && keys[k] == d then ts
    else ts.(order := ts.order[..k] + [t] + ts.order[k..])
  }

  ghost function Erase<T, C>(ts: TimerSet<T, C>, k: nat): TimerSet<T, C>
    requires k < |ts.order|
  {
    ts.(order := ts.order[..k] + ts.order[k + 1..])
  }

  // ---------------------------------------------------------------- operations

  /** Where `find` on timer `t` stops: it matches `t`'s deadline, not `t` itself. */
  ghost function Found<T, C>(ts: TimerSet<T, C>, t: T): (k: nat)
    requires Known(ts) && t in ts.recs
    ensures k <= |ts.order|
  {
    Find(Deadlines(ts), ts.recs[t].next)
  }

  ghost function Added<T, C>(ts: TimerSet<T, C>, t: T, gap: u64, cb: Option<C>, recurring: bool, now: u64)
    : TimerSet<T, C>
    requires Known(ts) && t !in ts.recs
  {
    Insert(ts.(recs := ts.recs[t := TimerRec(gap, Add64(now, gap), recurring, cb, true)]), t)
  }

  ghost function Cancelled<T, C>(ts: TimerSet<T, C>, t: T): TimerSet<T, C>
    requires Known(ts) && t in ts.recs
  {
    var k := Found(ts, t);
    if k < |ts.order| then Erase(ts, k) else ts
  }

  /** The `k`-th stored timer is taken out, given a new interval and deadline, and put back. */
  ghost function Moved<T, C>(ts: TimerSet<T, C>, k: nat, gap: u64, next: u64): TimerSet<T, C>
    requires Known(ts) && k < |ts.order|
  {
    var x := ts.order[k];
    var out := Erase(ts, k);
    Insert(out.(recs := out.recs[x := out.recs[x].(gap := gap, next := next)]), x)
  }

  ghost function Refreshed<T, C>(ts: TimerSet<T, C>, t: T, now: u64): TimerSet<T, C>
    requires Known(ts) && t in ts.recs
  {
    var k := Found(ts, t);
    if k == |ts.order| then ts
    else Moved(ts, k, ts.recs[ts.order[k]].gap, Add64(now, ts.recs[t].gap))
  }

  ghost function Regapped<T, C>(ts: TimerSet<T, C>, t: T, gap: u64, fromNow: bool, now: u64): TimerSet<T, C>
    requires Known(ts) && t in ts.recs
  {
    var k := Found(ts, t);
    if k == |ts.order| then ts
    else Moved(ts, k, gap, if fromNow then Add64(now, gap) else Sub64(ts.recs[ts.order[k]].next, gap))
  }

  ghost function Disarmed<T, C>(ts: TimerSet<T, C>, t: T): TimerSet<T, C>
    requires Known(ts) && t in ts.recs
  {
    var out := Cancelled(ts, t);
    out.(recs := out.recs[t := TimerRec(0, 0, false, None, false)])
  }

  /** How many timers the locked part of `GetExpiredCb` takes: up to the lower bound of
      the clock, and one more when that one is due right now. */
  ghost function DueCount<T, C>(ts: TimerSet<T, C>, now: u64): (k: nat)
    requires Known(ts)
    ensures k <= |ts.order|
  {
    var keys := Deadlines(ts);
    var k := LowerBound(keys, now);
    if k < |keys| && keys[k] == now then k + 1 else k
  }

  ghost function Drained<T, C>(ts: TimerSet<T, C>, now: u64): TimerSet<T, C>
    requires Known(ts)
  {
    ts.(order := ts.order[DueCount(ts, now)..])
  }

  /** The fields of a drained timer after `GetExpiredCb` has copied its callback. */
  ghost function Rewritten<T, C>(ts: TimerSet<T, C>, t: T, now: u64): (r: TimerSet<T, C>)
    requires t in ts.recs
    ensures r.order == ts.order && r.recs.Keys == ts.recs.Keys
  {
    var r := ts.recs[t];
    ts.(recs := ts.recs[t := if r.recurring then r.(next := Add64(now, r.gap)) else r.(cb := None)])
  }

  /** What `GetExpiredCb` does to one drained timer: a recurring one is also stored again. */
  ghost function Rearmed<T, C>(ts: TimerSet<T, C>, t: T, now: u64): (r: TimerSet<T, C>)
    requires Known(ts) && t in ts.recs
    ensures Known(r) && r.recs.Keys == ts.recs.Keys
  {
    if ts.recs[t].recurring then Insert(Rewritten(ts, t, now), t) else Rewritten(ts, t, now)
  }

  // ---------------------------------------------------------------- the set invariant

  lemma StoredOnce<T, C>(ts: TimerSet<T, C>)
    requires Valid(ts)
    ensures forall i, j | 0 <= i < j < |ts.order| :: ts.order[i] != ts.order[j]
  {
  }

  /** `find` on a stored timer finds that timer. */
  lemma FoundSelf<T, C>(ts: TimerSet<T, C>, k: nat)
    requires Valid(ts) && k < |ts.order|
    ensures Found(ts, ts.order[k]) == k
  {
  }

  /** `find` fails exactly when no stored timer has this deadline. */
  lemma FoundByDeadline<T, C>(ts: TimerSet<T, C>, t: T)
    requires Valid(ts) && t in ts.recs
    ensures var k := Found(ts, t);
            && (k < |ts.order| ==> ts.recs[ts.order[k]].next == ts.recs[t].next)
            && (k == |ts.order| <==> forall i | 0 <= i < |ts.order| :: ts.recs[ts.order[i]].next != ts.recs[t].next)
  {
  }

  ghost predicate Storable<T, C>(ts: TimerSet<T, C>, t: T) {
    t in ts.recs && t !in ts.order
  }

  ghost predicate Taken<T, C>(ts: TimerSet<T, C>, d: u64)
    requires Known(ts)
  {
    exists i :: 0 <= i < |ts.order| && ts.recs[ts.order[i]].next == d
  }

  ghost function KeySet(keys: seq<u64>): set<u64> {
    set d | d in keys
  }

  ghost function DeadlineSet<T, C>(ts: TimerSet<T, C>): set<u64>
    requires Known(ts)
  {
    KeySet(Deadlines(ts))
  }

  lemma IncreasingWith(keys: seq<u64>, d: u64)
    requires Increasing(keys) && Find(keys, d) == |keys|
    ensures var k := LowerBound(keys, d); Increasing(keys[..k] + [d] + keys[k..])
  {
  }

  lemma BagWith<T>(s: seq<T>, k: nat, t: T)
    requires k <= |s|
    ensures multiset(s[..k] + [t] + s[k..]) == multiset(s) + multiset{t}
  {
    assert s == s[..k] + s[k..];
  }

  lemma BagWithout<T>(s: seq<T>, k: nat)
    requires k < |s|
    ensures multiset(s) == multiset(s[..k] + s[k + 1..]) + multiset{s[k]}
  {
    assert s == s[..k] + [s[k]] + s[k + 1..];
  }

  lemma TakenMeansFound<T, C>(ts: TimerSet<T, C>, d: u64)
    requires Valid(ts)
    ensures Taken(ts, d) <==> Find(Deadlines(ts), d) < |ts.order|
    ensures Taken(ts, d) <==> d in DeadlineSet(ts)
  {
  }

  /** Inserting keeps the set invariant. The timer is dropped exactly when its deadline is
      taken, and the stored deadlines grow by its own in either case. */
  lemma InsertKeepsValid<T, C>(ts: TimerSet<T, C>, t: T)
    requires Valid(ts) && Storable(ts, t)
    ensures var r, d := Insert(ts, t), ts.recs[t].next;
            && Valid(r) && r.recs == ts.recs
            && (Taken(ts, d) ==> r == ts)
            && multiset(r.order) == multiset(ts.order) + (if Taken(ts, d) then multiset{} else multiset{t})
            && DeadlineSet(r) == DeadlineSet(ts) + {d}
  {
    var keys, d := Deadlines(ts), ts.recs[t].next;
    var k := LowerBound(keys, d);
    TakenMeansFound(ts, d);
    if !Taken(ts, d) {
      InsertedAt(ts, t, k);
      IncreasingWith(keys, d);
      BagWith(ts.order, k, t);
      InsertedDeadlines(ts, Insert(ts, t), k, d);
    }
  }

  lemma InsertedAt<T, C>(ts: TimerSet<T, C>, t: T, k: nat)
    requires Valid(ts) && Storable(ts, t) && k <= |ts.order|
    ensures var r := ts.(order := ts.order[..k] + [t] + ts.order[k..]);
            && Known(r)
            && Deadlines(r) == Deadlines(ts)[..k] + [ts.recs[t].next] + Deadlines(ts)[k..]
  {
  }

  lemma InsertedDeadlines<T, C>(ts: TimerSet<T, C>, r: TimerSet<T, C>, k: nat, d: u64)
    requires Known(ts) && Known(r) && k <= |ts.order|
    requires Deadlines(r) == Deadlines(ts)[..k] + [d] + Deadlines(ts)[k..]
    ensures DeadlineSet(r) == DeadlineSet(ts) + {d}
  {
  }

  lemma EraseKeepsValid<T, C>(ts: TimerSet<T, C>, k: nat)
    requires Valid(ts) && k < |ts.order|
    ensures Valid(Erase(ts, k)) && ts.order[k] !in Erase(ts, k).order
    ensures multiset(ts.order) == multiset(Erase(ts, k).order) + multiset{ts.order[k]}
  {
    var r, keys := Erase(ts, k), Deadlines(ts);
    assert forall i | 0 <= i < |r.order| :: r.order[i] == ts.order[if i < k then i else i + 1];
    assert Deadlines(r) == keys[..k] + keys[k + 1..];
    StoredOnce(ts);
    BagWithout(ts.order, k);
  }

  /** Changing the fields of a timer that is not stored does not disturb the set. */
  lemma UnstoredFieldsAreFree<T, C>(ts: TimerSet<T, C>, t: T, r: TimerRec<C>)
    requires Valid(ts) && t !in ts.order
    ensures Valid(ts.(recs := ts.recs[t := r]))
    ensures Deadlines(ts.(recs := ts.recs[t := r])) == Deadlines(ts)
  {
  }

  lemma MovedKeepsValid<T, C>(ts: TimerSet<T, C>, k: nat, gap: u64, next: u64)
    requires Valid(ts) && k < |ts.order|
    ensures var r, x := Moved(ts, k, gap, next), ts.order[k];
            && Valid(r) && r.recs == ts.recs[x := ts.recs[x].(gap := gap, next := next)]
            && multiset(ts.order) == multiset(r.order) + (if x in r.order then multiset{} else multiset{x})
            && (x in r.order <==> !Taken(Erase(ts, k), next))
  {
    var x := ts.order[k];
    var out := Erase(ts, k);
    EraseKeepsValid(ts, k);
    var edited := out.(recs := out.recs[x := out.recs[x].(gap := gap, next := next)]);
    UnstoredFieldsAreFree(out, x, edited.recs[x]);
    InsertKeepsValid(edited, x);
    assert Taken(edited, next) <==> Taken(out, next) by {
      assert Deadlines(edited) == Deadlines(out);
      assert forall i | 0 <= i < |out.order| :: Deadlines(out)[i] == out.recs[out.order[i]].next;
      assert forall i | 0 <= i < |out.order| :: Deadlines(edited)[i] == edited.recs[edited.order[i]].next;
    }
  }

  /** Every operation on the timer set keeps its invariant. */
  lemma OperationsKeepValid<T, C>(ts: TimerSet<T, C>, t: T, gap: u64, fromNow: bool, now: u64)
    requires Valid(ts) && t in ts.recs
    ensures Valid(Cancelled(ts, t)) && Valid(Refreshed(ts, t, now)) && Valid(Regapped(ts, t, gap, fromNow, now))
    ensures Valid(Disarmed(ts, t)) && t !in Disarmed(ts, t).order
    ensures Valid(Drained(ts, now))
  {
    var k := Found(ts, t);
    if k < |ts.order| {
      MovedKeepsValid(ts, k, ts.recs[ts.order[k]].gap, Add64(now, ts.recs[t].gap));
      MovedKeepsValid(ts, k, gap, if fromNow then Add64(now, gap) else Sub64(ts.recs[ts.order[k]].next, gap));
    }
    DisarmedKeepsValid(ts, t);
    DrainedKeepsValid(ts, now);
  }

  lemma DisarmedKeepsValid<T, C>(ts: TimerSet<T, C>, t: T)
    requires Valid(ts) && t in ts.recs
    ensures Valid(Cancelled(ts, t)) && Cancelled(ts, t).recs == ts.recs
    ensures Valid(Disarmed(ts, t)) && t !in Disarmed(ts, t).order
  {
    CancelledKeepsValid(ts, t);
    CancelledGone(ts, t);
    UnstoredFieldsAreFree(Cancelled(ts, t), t, TimerRec(0, 0, false, None, false));
  }

  lemma CancelledKeepsValid<T, C>(ts: TimerSet<T, C>, t: T)
    requires Valid(ts) && t in ts.recs
    ensures Valid(Cancelled(ts, t)) && Cancelled(ts, t).recs == ts.recs
  {
  }

  lemma DrainedKeepsValid<T, C>(ts: TimerSet<T, C>, now: u64)
    requires Valid(ts)
    ensures Valid(Drained(ts, now))
    ensures multiset(ts.order) == multiset(ts.order[..DueCount(ts, now)]) + multiset(Drained(ts, now).order)
  {
    var k := DueCount(ts, now);
    DropKeepsValid(ts, k);
    assert ts.order == ts.order[..k] + ts.order[k..];
  }

  lemma DropKeepsValid<T, C>(ts: TimerSet<T, C>, k: nat)
    requires Valid(ts) && k <= |ts.order|
    ensures Valid(ts.(order := ts.order[k..]))
  {
  }

  lemma CancelledGone<T, C>(ts: TimerSet<T, C>, t: T)
    requires Valid(ts) && t in ts.recs
    ensures t !in Cancelled(ts, t).order
  {
  }

  lemma AddedKeepsValid<T, C>(ts: TimerSet<T, C>, t: T, gap: u64, cb: Option<C>, recurring: bool, now: u64)
    requires Valid(ts) && t !in ts.recs
    ensures var r := Added(ts, t, gap, cb, recurring, now);
            && Valid(r) && r.recs == ts.recs[t := TimerRec(gap, Add64(now, gap), recurring, cb, true)]
            && multiset(r.order) ==
               multiset(ts.order) + (if Taken(ts, Add64(now, gap)) then multiset{} else multiset{t})
  {
    var edited := ts.(recs := ts.recs[t := TimerRec(gap, Add64(now, gap), recurring, cb, true)]);
    UnstoredFieldsAreFree(ts, t, edited.recs[t]);
    InsertKeepsValid(edited, t);
    TakenByDeadlines(ts, edited, Add64(now, gap));
  }

  lemma AddedIsValid<T, C>(ts: TimerSet<T, C>, t: T, gap: u64, cb: Option<C>, recurring: bool, now: u64)
    requires Valid(ts) && t !in ts.recs
    ensures Valid(Added(ts, t, gap, cb, recurring, now))
  {
    AddedKeepsValid(ts, t, gap, cb, recurring, now);
  }

  lemma TakenByDeadlines<T, C>(a: TimerSet<T, C>, b: TimerSet<T, C>, d: u64)
    requires Known(a) && Known(b) && Deadlines(a) == Deadlines(b)
    ensures Taken(a, d) <==> Taken(b, d)
  {
  }

  /** Rewriting a timer that is not stored leaves the set and the other timers alone. */
  lemma RewrittenKeepsValid<T, C>(ts: TimerSet<T, C>, t: T, now: u64)
    requires Valid(ts) && t in ts.recs && t !in ts.order
    ensures Valid(Rewritten(ts, t, now)) && Deadlines(Rewritten(ts, t, now)) == Deadlines(ts)
    ensures forall x | x in ts.recs && x != t :: Rewritten(ts, t, now).recs[x] == ts.recs[x]
  {
    UnstoredFieldsAreFree(ts, t, Rewritten(ts, t, now).recs[t]);
  }

  lemma RearmedKeepsValid<T, C>(ts: TimerSet<T, C>, t: T, now: u64)
    requires Valid(ts) && t in ts.recs && t !in ts.order
    ensures var r, d := Rearmed(ts, t, now), Add64(now, ts.recs[t].gap);
            && Valid(r)
            && (forall x | x in ts.recs && x != t :: x in r.recs && r.recs[x] == ts.recs[x])
            && r.recs.Keys == ts.recs.Keys
            && multiset(r.order) == multiset(ts.order)
                                    + (if ts.recs[t].recurring && !Taken(ts, d) then multiset{t} else multiset{})
            && DeadlineSet(r) == DeadlineSet(ts) + (if ts.recs[t].recurring then {d} else {})
  {
    var edited, d := Rewritten(ts, t, now), Add64(now, ts.recs[t].gap);
    RewrittenKeepsValid(ts, t, now);
    if ts.recs[t].recurring {
      InsertKeepsValid(edited, t);
      TakenByDeadlines(ts, edited, d);
    }
  }

  // ---------------------------------------------------------------- callbacks of stored timers

  lemma CallableByBag<T, C>(ts: TimerSet<T, C>)
    requires Known(ts)
    ensures Callable(ts) <==> forall t | t in multiset(ts.order) :: t in ts.recs && ts.recs[t].cb.Some?
  {
    assert forall i | 0 <= i < |ts.order| :: ts.order[i] in multiset(ts.order);
  }

  /** No operation on a timer that is there takes away the callback of one that stays stored. */
  lemma OperationsKeepCallable<T, C>(ts: TimerSet<T, C>, t: T, gap: u64, fromNow: bool, now: u64)
    requires Valid(ts) && Callable(ts) && t in ts.recs
    ensures Valid(Cancelled(ts, t)) && Callable(Cancelled(ts, t))
    ensures Valid(Refreshed(ts, t, now)) && Callable(Refreshed(ts, t, now))
    ensures Valid(Regapped(ts, t, gap, fromNow, now)) && Callable(Regapped(ts, t, gap, fromNow, now))
    ensures Valid(Disarmed(ts, t)) && Callable(Disarmed(ts, t))
  {
    var k := Found(ts, t);
    CancelledKeepsCallable(ts, t);
    DisarmedKeepsCallable(ts, t);
    if k < |ts.order| {
      MovedKeepsCallable(ts, k, ts.recs[ts.order[k]].gap, Add64(now, ts.recs[t].gap));
      MovedKeepsCallable(ts, k, gap, if fromNow then Add64(now, gap) else Sub64(ts.recs[ts.order[k]].next, gap));
    }
  }

  lemma CancelledKeepsCallable<T, C>(ts: TimerSet<T, C>, t: T)
    requires Valid(ts) && Callable(ts) && t in ts.recs
    ensures Valid(Cancelled(ts, t)) && Callable(Cancelled(ts, t))
  {
    CancelledKeepsValid(ts, t);
  }

  lemma DisarmedKeepsCallable<T, C>(ts: TimerSet<T, C>, t: T)
    requires Valid(ts) && Callable(ts) && t in ts.recs
    ensures Valid(Disarmed(ts, t)) && Callable(Disarmed(ts, t))
  {
    DisarmedKeepsValid(ts, t);
    CancelledKeepsCallable(ts, t);
  }

  lemma MovedKeepsCallable<T, C>(ts: TimerSet<T, C>, k: nat, gap: u64, next: u64)
    requires Valid(ts) && Callable(ts) && k < |ts.order|
    ensures Valid(Moved(ts, k, gap, next)) && Callable(Moved(ts, k, gap, next))
  {
    MovedKeepsValid(ts, k, gap, next);
    CallableByBag(ts);
    CallableByBag(Moved(ts, k, gap, next));
  }

  /** A new timer spoils it exactly when it comes without a callback and is stored. */
  lemma AddedKeepsCallable<T, C>(ts: TimerSet<T, C>, t: T, gap: u64, cb: Option<C>, recurring: bool, now: u64)
    requires Valid(ts) && Callable(ts) && t !in ts.recs
    ensures Valid(Added(ts, t, gap, cb, recurring, now))
    ensures Callable(Added(ts, t, gap, cb, recurring, now)) <==> cb.Some? || Taken(ts, Add64(now, gap))
  {
    var r := Added(ts, t, gap, cb, recurring, now);
    AddedKeepsValid(ts, t, gap, cb, recurring, now);
    CallableByBag(ts);
    CallableByBag(r);
    assert t !in multiset(ts.order);
    assert !Taken(ts, Add64(now, gap)) ==> t in multiset(r.order);
  }
}
