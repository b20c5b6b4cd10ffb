/** What becomes of every timer over a whole run of adding, cancelling and
    expiring: each is pending, cancelled, handed to the scheduler, or was dropped
    because its time point was taken, and the books always balance. */
module TimerLedger {
  import opened Base
  import opened TimerIndex
  import opened TimerManagerObject

  datatype Op = Add(t: Timer) | Cancel(id: nat) | Expiration

  /** `k` counts the clock readings made so far. */
  datatype Ledger = Ledger(list: seq<Timer>, k: nat,
                           added: seq<Timer>, cancelled: seq<Timer>, handed: seq<Timer>, lost: seq<Timer>)

  const EMPTY := Ledger([], 0, [], [], [], [])

  predicate Legal(l: Ledger, op: Op) {
    match op
    case Add(t) => t.timeout != MAX_TIME && t.interval >= 0
    case Cancel(id) => HasId(l.list, id)
    case Expiration => true
  }

  predicate Usable(l: Ledger) {
    Sorted(l.list) && NoNegativeInterval(l.list)
  }

  ghost function Do(l: Ledger, op: Op, clock: nat -> int, bound: int): (r: Ledger)
    requires Usable(l) && Legal(l, op) && Steady(clock, bound)
    ensures Usable(r)
  {
    match op
    case Add(t) =>
      var list := Insert(l.list, t);
      InsertKeepsIntervals(l.list, t);
      l.(list := list, added := l.added + [t],
      lost := if Occupied(l.list, t.timeout) then l.lost + [t] else l.lost)
    case Cancel(id) =>
      var i := IndexOf(l.list, id);
      l.(list := Without(l.list, i), cancelled := l.cancelled + [l.list[i]])
    case Expiration =>
      var r := Expire(l.list, clock, l.k, bound);
      l.(list := r.rest, k := r.next, handed := l.handed + r.expired, lost := l.lost + r.lost)
  }

  ghost predicate IsHistory(ops: seq<Op>, clock: nat -> int, bound: int)
    requires Steady(clock, bound)
    decreases |ops|, 0
  {
    ops == [] ||
    var before := ops[..|ops| - 1];
    IsHistory(before, clock, bound) && Legal(Books(before, clock, bound), ops[|ops| - 1])
  }

  ghost function Books(ops: seq<Op>, clock: nat -> int, bound: int): (r: Ledger)
    requires Steady(clock, bound) && IsHistory(ops, clock, bound)
    ensures Usable(r)
    decreases |ops|, 1
  {
    if ops == [] then EMPTY
    else Do(Books(ops[..|ops| - 1], clock, bound), ops[|ops| - 1], clock, bound)
  }

  // ------------------------------------------------------------------
  // Counting

  /** A repeated timer keeps its identity when it is re-armed, a one-shot timer has none to keep. */
  function Identity(t: Timer): Timer {
    if t.IsRepeated() then t.(timeout := 0) else t
  }

  function Count(list: seq<Timer>, x: Timer): nat {
    if list == [] then 0 else (if Identity(list[0]) == x then 1 else 0) + Count(list[1..], x)
  }

  lemma {:induction false} CountConcat(a: seq<Timer>, b: seq<Timer>, x: Timer)
    ensures Count(a + b, x) == Count(a, x) + Count(b, x)
  {
    if a == [] {
      assert a + b == b;
    } else {
      CountConcat(a[1..], b, x);
      assert (a + b)[1..] == a[1..] + b;
    }
  }

  lemma {:induction false} CountInsert(list: seq<Timer>, t: Timer, x: Timer)
    requires Sorted(list)
    ensures Count(Insert(list, t), x) == Count(list, x) + (if Occupied(list, t.timeout) then 0 else Count([t], x))
  {
    if list != [] {
      OccupiedInTail(list, t.timeout);
      if t.timeout > list[0].timeout {
        CountInsert(list[1..], t, x);
        assert Insert(list, t)[1..] == Insert(list[1..], t);
      } else if t.timeout < list[0].timeout {
        assert !Occupied(list[1..], t.timeout);
        assert ([t] + list)[1..] == list;
      }
    }
  }

  lemma CountWithout(list: seq<Timer>, i: nat, x: Timer)
    requires i < |list|
    ensures Count(list, x) == Count(Without(list, i), x) + Count([list[i]], x)
  {
    assert list == list[..i] + ([list[i]] + list[i + 1..]);
    CountConcat(list[..i], [list[i]] + list[i + 1..], x);
    CountConcat([list[i]], list[i + 1..], x);
    CountConcat(list[..i], list[i + 1..], x);
  }

  lemma CountRound(list: seq<Timer>, clock: nat -> int, k: nat, x: Timer)
    requires Sorted(list) && list != [] && NoNegativeInterval(list)
    ensures Count(list, x) == Count(RoundList(list, clock, k), x) + Count(RoundLoss(list, clock, k), x)
                              + (if x.IsRepeated() then 0 else Count([list[0]], x))
  {
    var t := list[0];
    assert Count(list, x) == Count([t], x) + Count(list[1..], x);
    if t.IsRepeated() {
      var again := Rearmed(t, clock(k + 1));
      CountInsert(list[1..], again, x);
      assert Identity(again) == Identity(t);
      assert Count([again], x) == Count([t], x);
    }
  }

  /** Every timer of `list` is in the outcome `r` of a pass over it; a one-shot timer that expired is gone. */
  predicate AllInOutcome(list: seq<Timer>, r: Expiry, x: Timer) {
    Count(list, x) == Count(r.rest, x) + Count(r.lost, x) + (if x.IsRepeated() then 0 else Count(r.expired, x))
  }

  lemma RoundKeepsAll(list: seq<Timer>, clock: nat -> int, k: nat, r: Expiry, whole: Expiry, x: Timer)
    requires Sorted(list) && list != [] && NoNegativeInterval(list)
    requires AllInOutcome(RoundList(list, clock, k), r, x)
    requires whole.expired == [list[0]] + r.expired && whole.rest == r.rest
    requires whole.lost == RoundLoss(list, clock, k) + r.lost
    ensures AllInOutcome(list, whole, x)
  {
    hide Count, RoundList, RoundLoss;
    CountRound(list, clock, k, x);
    CountConcat([list[0]], r.expired, x);
    CountConcat(RoundLoss(list, clock, k), r.lost, x);
  }

  /** Expiry hands a one-shot timer over for good; a repeated one stays, unless its new time point is taken. */
  lemma {:induction false} CountExpire(list: seq<Timer>, clock: nat -> int, k: nat, bound: int, x: Timer)
    requires Sorted(list) && NoNegativeInterval(list) && Steady(clock, bound)
    ensures AllInOutcome(list, Expire(list, clock, k, bound), x)
    decreases Slack(list, bound)
  {
    hide Expire, Steady, RoundList, RoundLoss;
    if list != [] && list[0].timeout <= clock(k) {
      RoundTakesSlack(list, clock, k, bound);
      OneRound(list, clock, k, bound);
      hide Count, AllInOutcome;
      var l, k' := RoundList(list, clock, k), k + RoundReads(list[0]);
      CountExpire(l, clock, k', bound, x);
      RoundKeepsAll(list, clock, k, Expire(l, clock, k', bound), Expire(list, clock, k, bound), x);
    } else {
      NoRound(list, clock, k, bound);
    }
  }

  ghost predicate Balanced(l: Ledger, x: Timer) {
    Count(l.added, x) ==
    Count(l.list, x) + Count(l.cancelled, x) + Count(l.lost, x) + (if x.IsRepeated() then 0 else Count(l.handed, x))
  }

  lemma OpKeepsBalance(l: Ledger, op: Op, clock: nat -> int, bound: int, x: Timer)
    requires Usable(l) && Legal(l, op) && Steady(clock, bound) && Balanced(l, x)
    ensures Balanced(Do(l, op, clock, bound), x)
  {
    match op
    case Add(t) =>
      CountConcat(l.added, [t], x);
      CountConcat(l.lost, [t], x);
      CountInsert(l.list, t, x);
    case Cancel(id) =>
      var i := IndexOf(l.list, id);
      CountWithout(l.list, i, x);
      CountConcat(l.cancelled, [l.list[i]], x);
    case Expiration =>
      var r := Expire(l.list, clock, l.k, bound);
      CountExpire(l.list, clock, l.k, bound, x);
      CountConcat(l.handed, r.expired, x);
      CountConcat(l.lost, r.lost, x);
  }

  /** Over any history, for every timer: as many were added as are pending, were
      cancelled, were dropped at an occupied time point, or (if one-shot) were handed out. */
  lemma {:induction false} BooksBalance(ops: seq<Op>, clock: nat -> int, bound: int, x: Timer)
    requires Steady(clock, bound) && IsHistory(ops, clock, bound)
    ensures Balanced(Books(ops, clock, bound), x)
  {
    if ops != [] {
      var before := ops[..|ops| - 1];
      BooksBalance(before, clock, bound, x);
      OpKeepsBalance(Books(before, clock, bound), ops[|ops| - 1], clock, bound, x);
    }
  }

  /** A timer that was added once is in exactly one place, a repeated one pending until it is
      cancelled, exactly when it was never dropped for an occupied time point. */
  lemma OneFate(ops: seq<Op>, clock: nat -> int, bound: int, x: Timer)
    requires Steady(clock, bound) && IsHistory(ops, clock, bound)
    requires Count(Books(ops, clock, bound).added, x) == 1
    ensures var l := Books(ops, clock, bound);
            var (pending, cancelled, handed) := (Count(l.list, x), Count(l.cancelled, x), Count(l.handed, x));
            Count(l.lost, x) == 0 <==>
              if x.IsRepeated() then pending + cancelled == 1 else pending + cancelled + handed == 1
  {
    BooksBalance(ops, clock, bound, x);
  }

  /** A newcomer is dropped exactly when its time point is taken, and then the stored
      timers are untouched and the newcomer is the only loss. */
  lemma DroppedExactlyWhen(l: Ledger, t: Timer, clock: nat -> int, bound: int)
    requires Usable(l) && Legal(l, Add(t)) && Steady(clock, bound)
    ensures var r := Do(l, Add(t), clock, bound);
            && (Occupied(l.list, t.timeout) ==> r.list == l.list && r.lost == l.lost + [t])
            && (!Occupied(l.list, t.timeout) ==> t in r.list && |r.list| == |l.list| + 1 && r.lost == l.lost)
            && (forall u :: u in l.list ==> u in r.list)
  {
    InsertMembers(l.list, t);
  }
}
