/** The task vector of sylar/schedule.cpp and sylar/schedule.hpp: slots that are
    reused, filled one at a time or in a batch, and emptied by the workers. */
module TaskQueue {
  import opened Wrappers

  const ANY_THREAD := -1

  /** What the claim test stores in a slot it takes: the assignment in it binds less tightly than
      `or`, so its right-hand side is `true`. */
  const CLAIMED_THREAD := 1

  /** One `funcAndthread`: a callback (None when null) and a thread id. */
  datatype Slot<T> = Slot(cb: Option<T>, thread: int)

  /** What `funcAndthread::reset()` leaves behind. */
  function Cleared<T>(): Slot<T> {
    Slot(None, ANY_THREAD)
  }

  function FirstFree<T>(slots: seq<Slot<T>>): (k: nat)
    ensures k <= |slots|
    ensures forall i | 0 <= i < k :: slots[i].cb.Some?
    ensures k < |slots| ==> slots[k].cb.None?
  {
    if slots == [] || slots[0].cb.None? then 0 else 1 + FirstFree(slots[1..])
  }

  function FirstBusy<T>(slots: seq<Slot<T>>): (k: nat)
    ensures k <= |slots|
    ensures forall i | 0 <= i < k :: slots[i].cb.None?
    ensures k < |slots| ==> slots[k].cb.Some?
  {
    if slots == [] || slots[0].cb.Some? then 0 else 1 + FirstBusy(slots[1..])
  }

  /** One single `schedule`: the lowest free slot, or a new slot at the end. */
  function Put<T>(slots: seq<Slot<T>>, job: Slot<T>): seq<Slot<T>> {
    var k := FirstFree(slots);
    if k < |slots| then slots[k := job] else slots + [job]
  }

  /** Single `schedule` calls for each callback in turn, with no thread asked for. */
  function PutAll<T>(slots: seq<Slot<T>>, cbs: seq<Option<T>>): seq<Slot<T>>
    decreases |cbs|
  {
    if cbs == [] then slots else PutAll(Put(slots, Slot(cbs[0], ANY_THREAD)), cbs[1..])
  }

  function Appended<T>(cbs: seq<Option<T>>): (r: seq<Slot<T>>)
    ensures |r| == |cbs|
    ensures forall i | 0 <= i < |cbs| :: r[i] == Slot(cbs[i], ANY_THREAD)
  {
    seq(|cbs|, i requires 0 <= i < |cbs| => Slot(cbs[i], ANY_THREAD))
  }

  /** The batch `schedule`: one pass over the slots, in which a free slot takes the
      next callback but keeps its thread id, and what is left is appended. */
  function Fill<T>(slots: seq<Slot<T>>, cbs: seq<Option<T>>): seq<Slot<T>> {
    if cbs == [] then slots
    else if slots == [] then Appended(cbs)
    else if slots[0].cb.Some? then [slots[0]] + Fill(slots[1..], cbs)
    else [slots[0].(cb := cbs[0])] + Fill(slots[1..], cbs[1..])
  }

  /** The claim of `run`: the lowest busy slot, whatever thread it names, is cleared. */
  function Take<T>(slots: seq<Slot<T>>): seq<Slot<T>> {
    var k := FirstBusy(slots);
    if k < |slots| then slots[k := Cleared()] else slots
  }

  ghost function Held<T>(slot: Slot<T>): multiset<T> {
    if slot.cb.Some? then multiset{slot.cb.value} else multiset{}
  }

  /** The callbacks waiting in the slots. */
  ghost function Pending<T>(slots: seq<Slot<T>>): multiset<T> {
    if slots == [] then multiset{} else Held(slots[0]) + Pending(slots[1..])
  }

  /** The non-null callbacks of a batch. */
  ghost function Live<T>(cbs: seq<Option<T>>): multiset<T> {
    if cbs == [] then multiset{}
    else (if cbs[0].Some? then multiset{cbs[0].value} else multiset{}) + Live(cbs[1..])
  }

  ghost function Nulls<T>(cbs: seq<Option<T>>): nat {
    if cbs == [] then 0 else (if cbs[0].None? then 1 else 0) + Nulls(cbs[1..])
  }

  ghost predicate AllLive<T>(cbs: seq<Option<T>>) {
    forall i | 0 <= i < |cbs| :: cbs[i].Some?
  }

  ghost predicate FreeSlotsClear<T>(slots: seq<Slot<T>>) {
    forall i | 0 <= i < |slots| :: slots[i].cb.None? ==> slots[i] == Cleared()
  }

  /** The first `n` free slots carry no thread id. */
  ghost predicate FirstFreeClear<T>(slots: seq<Slot<T>>, n: nat) {
    n == 0 || slots == [] ||
    if slots[0].cb.Some? then FirstFreeClear(slots[1..], n)
    else slots[0].thread == ANY_THREAD && FirstFreeClear(slots[1..], n - 1)
  }

  // ---------------------------------------------------------------- callbacks kept

  lemma {:induction false} PendingUpdate<T>(slots: seq<Slot<T>>, k: nat, job: Slot<T>)
    requires k < |slots|
    ensures Pending(slots[k := job]) + Held(slots[k]) == Pending(slots) + Held(job)
  {
    hide Held;
    var s' := slots[k := job];
    if k == 0 {
      assert s'[1..] == slots[1..];
    } else {
      PendingUpdate(slots[1..], k - 1, job);
      assert s'[1..] == slots[1..][k - 1 := job];
      BagAssoc(Held(slots[0]), Pending(s'[1..]), Held(slots[k]));
      BagAssoc(Held(slots[0]), Pending(slots[1..]), Held(job));
    }
  }

  lemma {:induction false} PendingAppend<T>(slots: seq<Slot<T>>, job: Slot<T>)
    ensures Pending(slots + [job]) == Pending(slots) + Held(job)
  {
    if slots == [] {
      assert [job][1..] == [] && [] + [job] == [job];
    } else {
      PendingAppend(slots[1..], job);
      BagAssoc(Held(slots[0]), Pending(slots[1..]), Held(job));
      assert (slots + [job])[1..] == slots[1..] + [job];
    }
  }

  lemma BagAssoc<T>(a: multiset<T>, b: multiset<T>, c: multiset<T>)
    ensures a + (b + c) == a + b + c
  {
  }

  /** A single `schedule` adds exactly the callback it is given; a null one adds nothing. */
  lemma PutKeepsCallbacks<T>(slots: seq<Slot<T>>, job: Slot<T>)
    ensures Pending(Put(slots, job)) == Pending(slots) + Held(job)
  {
    var k := FirstFree(slots);
    if k < |slots| {
      PendingUpdate(slots, k, job);
    } else {
      PendingAppend(slots, job);
    }
  }

  lemma {:induction false} AppendedPending<T>(cbs: seq<Option<T>>)
    ensures Pending(Appended(cbs)) == Live(cbs)
  {
    if cbs != [] {
      AppendedPending(cbs[1..]);
      assert Appended(cbs)[1..] == Appended(cbs[1..]);
    }
  }

  /** One `schedule` call takes the lowest free slot or appends one, and leaves all others alone. */
  lemma PutTakesLowest<T>(slots: seq<Slot<T>>, k: nat, job: Slot<T>)
    requires k <= |slots| && (forall i | 0 <= i < k :: slots[i].cb.Some?) && (k < |slots| ==> slots[k].cb.None?)
    ensures Put(slots, job) == if k < |slots| then slots[..k] + [job] + slots[k + 1..] else slots + [job]
  {
    assert FirstFree(slots) == k;
  }

  /** A claim clears the lowest occupied slot, callback and thread id, and leaves all others alone. */
  lemma TakeClearsLowest<T>(slots: seq<Slot<T>>, k: nat)
    requires k <= |slots| && (forall i | 0 <= i < k :: slots[i].cb.None?) && (k < |slots| ==> slots[k].cb.Some?)
    ensures Take(slots) == if k < |slots| then slots[..k] + [Slot(None, -1)] + slots[k + 1..] else slots
  {
    assert FirstBusy(slots) == k;
  }

  /** A batch adds exactly its non-null callbacks. */
  lemma {:induction false} FillKeepsCallbacks<T>(slots: seq<Slot<T>>, cbs: seq<Option<T>>)
    ensures Pending(Fill(slots, cbs)) == Pending(slots) + Live(cbs)
  {
    if cbs == [] {
    } else if slots == [] {
      AppendedPending(cbs);
    } else if slots[0].cb.Some? {
      FillKeepsCallbacks(slots[1..], cbs);
      assert Fill(slots, cbs)[1..] == Fill(slots[1..], cbs);
    } else {
      FillKeepsCallbacks(slots[1..], cbs[1..]);
      assert Fill(slots, cbs)[1..] == Fill(slots[1..], cbs[1..]);
    }
  }

  /** A claim finds nothing exactly when no callback waits; otherwise it removes one,
      namely the one in the lowest busy slot. */
  lemma {:induction false} TakeRemovesOne<T>(slots: seq<Slot<T>>)
    ensures var k := FirstBusy(slots);
            if k < |slots| then Pending(slots) == Pending(Take(slots)) + multiset{slots[k].cb.value}
            else Pending(slots) == multiset{}
  {
    var k := FirstBusy(slots);
    if k < |slots| {
      PendingUpdate(slots, k, Cleared());
    } else {
      NothingPending(slots);
    }
  }

  lemma {:induction false} NothingPending<T>(slots: seq<Slot<T>>)
    ensures Pending(slots) == multiset{} <==> forall i | 0 <= i < |slots| :: slots[i].cb.None?
  {
    if slots != [] {
      NothingPending(slots[1..]);
      if slots[0].cb.Some? {
        assert slots[0].cb.value in Pending(slots);
      } else {
        assert Pending(slots) == Pending(slots[1..]);
        assert forall i | 0 < i < |slots| :: slots[i] == slots[1..][i - 1];
        assert forall i | 0 <= i < |slots| - 1 :: slots[1..][i] == slots[i + 1];
      }
    }
  }

  lemma {:induction false} LiveAndNulls<T>(cbs: seq<Option<T>>)
    ensures |Live(cbs)| + Nulls(cbs) == |cbs|
    ensures Nulls(cbs) == 0 <==> AllLive(cbs)
  {
    AllLiveCons(cbs);
    hide AllLive;
    if cbs != [] {
      LiveAndNulls(cbs[1..]);
    }
  }

  lemma AllLiveCons<T>(cbs: seq<Option<T>>)
    ensures AllLive(cbs) <==> cbs == [] || (cbs[0].Some? && AllLive(cbs[1..]))
  {
    if cbs != [] {
      assert cbs == [cbs[0]] + cbs[1..];
    }
  }

  /** A single enqueue keeps every free slot cleared exactly when its callback is not null or names
      no thread. */
  lemma PutKeepsFreeClear<T>(slots: seq<Slot<T>>, job: Slot<T>)
    requires FreeSlotsClear(slots)
    ensures FreeSlotsClear(Put(slots, job)) <==> job.cb.Some? || job.thread == ANY_THREAD
  {
    var k, r := FirstFree(slots), Put(slots, job);
    assert r[k] == job;
  }

  lemma TakeKeepsFreeClear<T>(slots: seq<Slot<T>>)
    requires FreeSlotsClear(slots)
    ensures FreeSlotsClear(Take(slots))
  {
  }

  // ---------------------------------------------------------------- batch against singles

  lemma {:induction false} PutAllBehindBusy<T>(x: Slot<T>, slots: seq<Slot<T>>, cbs: seq<Option<T>>)
    requires x.cb.Some?
    ensures PutAll([x] + slots, cbs) == [x] + PutAll(slots, cbs)
    decreases |cbs|
  {
    if cbs != [] {
      var job := Slot(cbs[0], ANY_THREAD);
      assert ([x] + slots)[1..] == slots;
      assert Put([x] + slots, job) == [x] + Put(slots, job);
      PutAllBehindBusy(x, Put(slots, job), cbs[1..]);
    }
  }

  lemma {:induction false} PutAllLength<T>(slots: seq<Slot<T>>, cbs: seq<Option<T>>)
    ensures |PutAll(slots, cbs)| <= |slots| + |cbs|
    ensures cbs != [] && FirstFree(slots) < |slots| ==> |PutAll(slots, cbs)| < |slots| + |cbs|
    decreases |cbs|
  {
    if cbs != [] {
      PutAllLength(Put(slots, Slot(cbs[0], ANY_THREAD)), cbs[1..]);
    }
  }

  ghost predicate AllNull<T>(cbs: seq<Option<T>>) {
    forall i | 0 <= i < |cbs| :: cbs[i].None?
  }

  /** Every callback but perhaps the last is non-null. */
  ghost predicate LiveButLast<T>(cbs: seq<Option<T>>) {
    forall i | 0 <= i < |cbs| - 1 :: cbs[i].Some?
  }

  lemma LiveButLastCons<T>(cbs: seq<Option<T>>)
    requires |cbs| > 1
    ensures LiveButLast(cbs) <==> cbs[0].Some? && LiveButLast(cbs[1..])
  {
    assert forall i | 0 < i < |cbs| - 1 :: cbs[i] == cbs[1..][i - 1];
    assert forall i | 0 <= i < |cbs| - 2 :: cbs[1..][i] == cbs[i + 1];
  }

  lemma {:induction false} PutAllOnEmpty<T>(cbs: seq<Option<T>>)
    ensures PutAll([], cbs) == Appended(cbs) <==> LiveButLast(cbs)
    decreases |cbs|
  {
    if cbs != [] {
      var job := Slot(cbs[0], ANY_THREAD);
      assert Put([], job) == [job] + [] == [job];
      assert Appended(cbs) == [job] + Appended(cbs[1..]);
      if |cbs| == 1 {
        assert PutAll([], cbs) == [job];
      } else {
        LiveButLastCons(cbs);
        PutAllOnEmpty(cbs[1..]);
        if cbs[0].Some? {
          PutAllBehindBusy(job, [], cbs[1..]);
          SameTails(job, PutAll([], cbs[1..]), job, Appended(cbs[1..]));
        } else {
          assert PutAll([], cbs) == PutAll([job], cbs[1..]) && FirstFree([job]) == 0;
          PutAllLength([job], cbs[1..]);
        }
      }
    }
  }

  lemma SameTails<X>(x: X, a: seq<X>, y: X, b: seq<X>)
    ensures [x] + a == [y] + b <==> x == y && a == b
  {
    assert ([x] + a)[1..] == a && ([y] + b)[1..] == b;
    assert ([x] + a)[0] == x && ([y] + b)[0] == y;
  }

  /** Once a non-null callback is put into it, the first slot stays busy. */
  lemma {:induction false} FirstSlotTaken<T>(slots: seq<Slot<T>>, cbs: seq<Option<T>>)
    requires slots != [] && (slots[0].cb.Some? || !AllNull(cbs))
    ensures PutAll(slots, cbs) != [] && PutAll(slots, cbs)[0].cb.Some?
    decreases |cbs|
  {
    if cbs != [] {
      var next := Put(slots, Slot(cbs[0], ANY_THREAD));
      assert !AllNull(cbs) && cbs[0].None? ==> !AllNull(cbs[1..]) by {
        assert forall i | 0 < i < |cbs| :: cbs[i] == cbs[1..][i - 1];
      }
      FirstSlotTaken(next, cbs[1..]);
    }
  }

  lemma {:induction false} PutNulls<T>(slots: seq<Slot<T>>, cbs: seq<Option<T>>)
    requires slots != [] && slots[0] == Cleared() && AllNull(cbs)
    ensures PutAll(slots, cbs) == slots
    decreases |cbs|
  {
    if cbs != [] {
      assert Put(slots, Slot(cbs[0], ANY_THREAD)) == slots;
      PutNulls(slots, cbs[1..]);
    }
  }

  lemma {:induction false} FillNulls<T>(slots: seq<Slot<T>>, cbs: seq<Option<T>>)
    requires AllNull(cbs)
    ensures |Pending(slots)| + |cbs| <= |slots| <==> Fill(slots, cbs) == slots
    decreases |slots|
  {
    FillSize(slots, cbs);
    BusyCount(slots);
    if cbs != [] && slots != [] {
      if slots[0].cb.Some? {
        FillNulls(slots[1..], cbs);
        SameTails(slots[0], Fill(slots[1..], cbs), slots[0], slots[1..]);
      } else {
        FillNulls(slots[1..], cbs[1..]);
        SameTails(slots[0].(cb := cbs[0]), Fill(slots[1..], cbs[1..]), slots[0], slots[1..]);
      }
      assert slots == [slots[0]] + slots[1..];
    }
  }

  /** When batch and single enqueues agree: null callbacks come last and find free slots, or one
      alone is appended, and the free slots that are used carry no thread id. */
  ghost predicate BatchFits<T>(slots: seq<Slot<T>>, cbs: seq<Option<T>>) {
    if cbs == [] then true
    else if slots == [] then LiveButLast(cbs)
    else if slots[0].cb.Some? then BatchFits(slots[1..], cbs)
    else
      && slots[0].thread == ANY_THREAD
      && if cbs[0].Some? then BatchFits(slots[1..], cbs[1..]) else AllNull(cbs) && |Pending(slots)| + |cbs| <= |slots|
  }

  lemma NullFirst<T>(slots: seq<Slot<T>>, cbs: seq<Option<T>>)
    requires slots != [] && cbs != [] && slots[0].cb.None? && cbs[0].None?
    ensures Fill(slots, cbs) == PutAll(slots, cbs) <==> BatchFits(slots, cbs)
  {
    var rest, next := cbs[1..], [Cleared()] + slots[1..];
    assert Put(slots, Slot(cbs[0], ANY_THREAD)) == next;
    assert Fill(slots, cbs)[0] == slots[0];
    if AllNull(cbs) {
      assert AllNull(rest);
      PutNulls(next, rest);
      FillNulls(slots, cbs);
      assert next[0] == Cleared<T>();
    } else {
      assert !AllNull(rest) by {
        assert forall i | 0 < i < |cbs| :: cbs[i] == rest[i - 1];
      }
      FirstSlotTaken(next, rest);
    }
    SlotByParts(slots);
  }

  lemma SlotByParts<T>(slots: seq<Slot<T>>)
    requires slots != [] && slots[0].cb.None?
    ensures slots == [Cleared()] + slots[1..] <==> slots[0].thread == ANY_THREAD
  {
    assert slots == [slots[0]] + slots[1..];
  }

  /** The one-pass batch leaves the same slots, callbacks and thread ids alike, as calling
      the rescanning single `schedule` on each callback in order, exactly when the batch fits. */
  lemma {:induction false} BatchEqualsSingles<T>(slots: seq<Slot<T>>, cbs: seq<Option<T>>)
    ensures Fill(slots, cbs) == PutAll(slots, cbs) <==> BatchFits(slots, cbs)
    decreases |slots|
  {
    if cbs == [] {
    } else if slots == [] {
      PutAllOnEmpty(cbs);
    } else if slots[0].cb.Some? {
      assert slots == [slots[0]] + slots[1..];
      PutAllBehindBusy(slots[0], slots[1..], cbs);
      BatchEqualsSingles(slots[1..], cbs);
      SameTails(slots[0], Fill(slots[1..], cbs), slots[0], PutAll(slots[1..], cbs));
    } else if cbs[0].None? {
      NullFirst(slots, cbs);
    } else {
      var job := Slot(cbs[0], ANY_THREAD);
      assert Put(slots, job) == [job] + slots[1..];
      PutAllBehindBusy(job, slots[1..], cbs[1..]);
      BatchEqualsSingles(slots[1..], cbs[1..]);
      SameTails(slots[0].(cb := cbs[0]), Fill(slots[1..], cbs[1..]), job, PutAll(slots[1..], cbs[1..]));
    }
  }

  /** A null callback before another one: the batch leaves a hole, the single calls do not. */
  lemma HoleInBatch()
    ensures Fill<nat>([], [None, Some(1)]) != PutAll<nat>([], [None, Some(1)])
  {
    var cbs: seq<Option<nat>> := [None, Some(1)];
    BatchEqualsSingles([], cbs);
    assert cbs[0].None?;
  }

  /** A batch without null callbacks fits exactly when the first free slots, as many as it has
      callbacks, carry no thread id. */
  lemma {:induction false} LiveBatchFits<T>(slots: seq<Slot<T>>, cbs: seq<Option<T>>)
    requires AllLive(cbs)
    ensures BatchFits(slots, cbs) <==> FirstFreeClear(slots, |cbs|)
    decreases |slots|
  {
    if cbs != [] && slots != [] {
      if slots[0].cb.Some? {
        LiveBatchFits(slots[1..], cbs);
      } else {
        LiveBatchFits(slots[1..], cbs[1..]);
      }
    }
  }

  lemma {:induction false} ClearSlotsSuffice<T>(slots: seq<Slot<T>>, n: nat)
    requires FreeSlotsClear(slots)
    ensures FirstFreeClear(slots, n)
    decreases |slots|
  {
    if n != 0 && slots != [] {
      ClearSlotsSuffice(slots[1..], n);
      ClearSlotsSuffice(slots[1..], n - 1);
    }
  }

  lemma {:induction false} FillKeepsFreeClear<T>(slots: seq<Slot<T>>, cbs: seq<Option<T>>)
    requires FreeSlotsClear(slots)
    ensures FreeSlotsClear(Fill(slots, cbs))
    decreases |slots|
  {
    if cbs != [] && slots != [] {
      if slots[0].cb.Some? {
        FillKeepsFreeClear(slots[1..], cbs);
      } else {
        FillKeepsFreeClear(slots[1..], cbs[1..]);
      }
    }
  }

  // ---------------------------------------------------------------- size of the vector

  datatype Op<T> = One(cb: Option<T>, thread: int) | Batch(cbs: seq<Option<T>>) | Grab

  function Apply<T>(slots: seq<Slot<T>>, op: Op<T>): seq<Slot<T>> {
    match op
    case One(cb, thread) => Put(slots, Slot(cb, thread))
    case Batch(cbs) => Fill(slots, cbs)
    case Grab => Take(slots)
  }

  /** The slots after a run of operations on a new scheduler. */
  function After<T>(ops: seq<Op<T>>): seq<Slot<T>> {
    if ops == [] then [] else Apply(After(ops[..|ops| - 1]), ops[|ops| - 1])
  }

  /** How many callbacks an operation hands over, null ones included. */
  function Handed<T>(op: Op<T>): nat {
    match op
    case One(_, _) => 1
    case Batch(cbs) => |cbs|
    case Grab => 0
  }

  /** The largest number, during the run, of callbacks that waited while an operation handed more
      over, counted together. */
  ghost function HighWater<T>(ops: seq<Op<T>>): nat {
    if ops == [] then 0
    else
      var before := ops[..|ops| - 1];
      var high, now := HighWater(before), |Pending(After(before))| + Handed(ops[|ops| - 1]);
      if high < now then now else high
  }

  lemma {:induction false} BusyCount<T>(slots: seq<Slot<T>>)
    ensures |Pending(slots)| <= |slots|
    ensures |Pending(slots)| == |slots| <==> FirstFree(slots) == |slots|
  {
    if slots != [] {
      BusyCount(slots[1..]);
    }
  }

  lemma {:induction false} FillSize<T>(slots: seq<Slot<T>>, cbs: seq<Option<T>>)
    ensures |Fill(slots, cbs)| ==
            if |slots| < |Pending(slots)| + |cbs| then |Pending(slots)| + |cbs| else |slots|
    decreases |slots|
  {
    BusyCount(slots);
    if cbs != [] && slots != [] {
      if slots[0].cb.Some? {
        FillSize(slots[1..], cbs);
      } else {
        FillSize(slots[1..], cbs[1..]);
      }
    }
  }

  /** In every run of single and batch enqueues and claims the vector is exactly as long
      as the most callbacks that ever had to be held at once. */
  lemma {:induction false} SizeIsHighWater<T>(ops: seq<Op<T>>)
    ensures |After(ops)| == HighWater(ops)
  {
    if ops != [] {
      SizeIsHighWater(ops[..|ops| - 1]);
      ApplyGrowth(After(ops[..|ops| - 1]), ops[|ops| - 1]);
    }
  }

  /** One operation lengthens the vector only as far as the callbacks then held need. */
  lemma ApplyGrowth<T>(slots: seq<Slot<T>>, op: Op<T>)
    ensures var now := |Pending(slots)| + Handed(op);
            |Apply(slots, op)| == if |slots| < now then now else |slots|
  {
    BusyCount(slots);
    if op.Batch? {
      FillSize(slots, op.cbs);
    }
  }

  // ---------------------------------------------------------------- the scheduler object

  /** Filling from slot `i` and callback `b` on would complete the batch. */
  ghost predicate Remaining<T>(slots: seq<Slot<T>>, i: nat, cbs: seq<Option<T>>, b: nat, goal: seq<Slot<T>>) {
    i <= |slots| && b <= |cbs| && slots[..i] + Fill(slots[i..], cbs[b..]) == goal
  }

  lemma BatchStarts<T>(slots: seq<Slot<T>>, cbs: seq<Option<T>>)
    ensures Remaining(slots, 0, cbs, 0, Fill(slots, cbs))
  {
  }

  /** One round of the batch scan: a busy slot is passed over, a free one is used. */
  lemma BatchRound<T>(slots: seq<Slot<T>>, i: nat, cbs: seq<Option<T>>, b: nat, goal: seq<Slot<T>>)
    requires Remaining(slots, i, cbs, b, goal) && i < |slots| && b < |cbs|
    ensures slots[i].cb.Some? ==> Remaining(slots, i + 1, cbs, b, goal)
    ensures slots[i].cb.None? ==> Remaining(slots[i := slots[i].(cb := cbs[b])], i + 1, cbs, b + 1, goal)
  {
    FillOne(slots[i..], cbs[b..]);
    assert cbs[b..][1..] == cbs[b + 1..];
    assert slots[i..][1..] == slots[i + 1..];
    if slots[i].cb.Some? {
      assert slots[..i + 1] == slots[..i] + [slots[i]];
    } else {
      var s' := slots[i := slots[i].(cb := cbs[b])];
      assert s'[..i + 1] == slots[..i] + [slots[i].(cb := cbs[b])];
      assert s'[i + 1..] == slots[i + 1..];
    }
  }

  lemma FillOne<T>(slots: seq<Slot<T>>, cbs: seq<Option<T>>)
    requires slots != [] && cbs != []
    ensures Fill(slots, cbs) == if slots[0].cb.Some? then [slots[0]] + Fill(slots[1..], cbs)
                                else [slots[0].(cb := cbs[0])] + Fill(slots[1..], cbs[1..])
  {
  }

  /** When the scan stops, what is left to do is to append the callbacks not yet placed. */
  lemma BatchScanned<T>(slots: seq<Slot<T>>, i: nat, cbs: seq<Option<T>>, b: nat, goal: seq<Slot<T>>)
    requires Remaining(slots, i, cbs, b, goal) && (i == |slots| || b == |cbs|)
    ensures goal == slots + Appended(cbs[b..])
  {
  }

  lemma BatchAppend<T>(slots: seq<Slot<T>>, cbs: seq<Option<T>>, b: nat)
    requires b < |cbs|
    ensures slots + Appended(cbs[b..]) == slots + [Slot(cbs[b], ANY_THREAD)] + Appended(cbs[b + 1..])
  {
  }

  /** The part of `Schedule` that its lock guards. Each method is one locked region. */
  class Schedule<T> {
    var tasks: seq<Slot<T>>
    var taskNumber: int
    var stopping: bool

    constructor ()
      ensures tasks == [] && taskNumber == 0 && !stopping
    {
      tasks, taskNumber, stopping := [], 0, false;
    }

    /** The locked part of `schedule(cb, threadId)`. */
    method Enqueue(cb: Option<T>, threadId: int)
      modifies this`tasks, this`taskNumber
      ensures tasks == Put(old(tasks), Slot(cb, threadId))
      ensures taskNumber == old(taskNumber) + 1
    {
      var i := 0;
      while i < |tasks|
        invariant 0 <= i <= |tasks|
        invariant tasks == old(tasks) && taskNumber == old(taskNumber)
        invariant forall j | 0 <= j < i :: tasks[j].cb.Some?
      {
        if tasks[i].cb.None? {
          tasks := tasks[i := Slot(cb, threadId)];
          taskNumber := taskNumber + 1;
          return;
        }
        i := i + 1;
      }
      taskNumber := taskNumber + 1;
      tasks := tasks + [Slot(cb, threadId)];
    }

    /** `schedule(cb, threadId)` with no other thread between its test and its lock. */
    method ScheduleOne(cb: Option<T>, threadId: int)
      modifies this`tasks, this`taskNumber
      ensures stopping ==> tasks == old(tasks) && taskNumber == old(taskNumber)
      ensures !stopping ==> tasks == Put(old(tasks), Slot(cb, threadId)) && taskNumber == old(taskNumber) + 1
    {
      if stopping {
        return;
      }
      Enqueue(cb, threadId);
    }

    /** `schedule(begin, end)`. It does not look at `stopping`. */
    method ScheduleBatch(cbs: seq<Option<T>>)
      modifies this`tasks, this`taskNumber
      ensures tasks == Fill(old(tasks), cbs)
      ensures taskNumber == old(taskNumber) + |cbs|
    {
      var i, b := 0, 0;
      ghost var goal := Fill(tasks, cbs);
      BatchStarts(tasks, cbs);
      while i < |tasks| && b < |cbs|
        invariant Remaining(tasks, i, cbs, b, goal)
        invariant taskNumber == old(taskNumber) + b
      {
        BatchRound(tasks, i, cbs, b, goal);
        if tasks[i].cb.None? {
          tasks := tasks[i := tasks[i].(cb := cbs[b])];
          b, taskNumber := b + 1, taskNumber + 1;
        }
        i := i + 1;
      }
      BatchScanned(tasks, i, cbs, b, goal);
      while b < |cbs|
        invariant b <= |cbs| && tasks + Appended(cbs[b..]) == goal
        invariant taskNumber == old(taskNumber) + b
      {
        BatchAppend(tasks, cbs, b);
        taskNumber := taskNumber + 1;
        tasks := tasks + [Slot(cbs[b], ANY_THREAD)];
        b := b + 1;
      }
    }

    /** The claim at the head of the `run` loop. The test writes the thread id it means to compare,
        so the task handed out carries 1 whatever was asked for. */
    method ClaimTask() returns (task: Slot<T>)
      modifies this`tasks
      ensures tasks == Take(old(tasks))
      ensures var k := FirstBusy(old(tasks));
              task == if k < |old(tasks)| then Slot(old(tasks)[k].cb, 1) else Slot(None, -1)
    {
      task := Cleared();
      var i := 0;
      while i < |tasks|
        invariant 0 <= i <= |tasks| && tasks == old(tasks)
        invariant forall j | 0 <= j < i :: tasks[j].cb.None?
      {
        if tasks[i].cb.Some? {
          task := tasks[i].(thread := CLAIMED_THREAD);
          tasks := tasks[i := Cleared()];
          return;
        }
        i := i + 1;
      }
    }

    /** The count taken down after a callback has run. */
    method Complete()
      modifies this`taskNumber
      ensures taskNumber == old(taskNumber) - 1
    {
      taskNumber := taskNumber - 1;
    }

    /** `IOmanager::stop` up to its call of `run`. */
    method Stop()
      modifies this`stopping
      ensures stopping
    {
      stopping := true;
    }

    /** The test at the foot of the `run` loop. */
    method MayLeave() returns (leave: bool)
      ensures leave <==> stopping && taskNumber == 0
    {
      leave := stopping && taskNumber == 0;
    }
  }
}
