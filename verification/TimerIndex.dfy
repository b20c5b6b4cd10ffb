/** The ordered timer index as values: a list sorted by expiry, at most one timer
    per time point, the one-shot kernel alarm that must fire for its head, and the
    expiry pass under a moving clock. Times are nanoseconds since the clock's epoch. */
module TimerIndex {
  import opened Base

  /** The largest time point; it stands for "no timer". */
  const MAX_TIME := 0x7fff_ffff_ffff_ffff

  const NANOS := 1_000_000_000

  datatype Timer = Timer(id: nat, timeout: int, interval: int, cb: nat) {
    predicate IsRepeated() {
      interval != 0
    }
  }

  predicate Sorted(list: seq<Timer>) {
    forall i, j :: 0 <= i < j < |list| ==> list[i].timeout < list[j].timeout
  }

  predicate Occupied(list: seq<Timer>, time: int) {
    exists i :: 0 <= i < |list| && list[i].timeout == time
  }

  /** Insertion into the ordered set: a timer that expires exactly when a stored one does is dropped. */
  function Insert(list: seq<Timer>, t: Timer): (r: seq<Timer>)
    requires Sorted(list)
    ensures Sorted(r) && r != []
    ensures r[0].timeout == if list == [] || t.timeout < list[0].timeout then t.timeout else list[0].timeout
  {
    if list == [] then [t]
    else if t.timeout < list[0].timeout then [t] + list
    else if t.timeout == list[0].timeout then list
    else [list[0]] + Insert(list[1..], t)
  }

  lemma OccupiedInTail(list: seq<Timer>, time: int)
    requires list != []
    ensures Occupied(list, time) <==> list[0].timeout == time || Occupied(list[1..], time)
  {
    if Occupied(list, time) {
      var i :| 0 <= i < |list| && list[i].timeout == time;
      assert i > 0 ==> list[1..][i - 1] == list[i];
    }
  }

  lemma {:induction false} InsertMembers(list: seq<Timer>, t: Timer)
    requires Sorted(list)
    ensures var r := Insert(list, t);
            if Occupied(list, t.timeout) then r == list
            else |r| == |list| + 1 && forall u :: u in r <==> u in list || u == t
  {
    if list != [] {
      OccupiedInTail(list, t.timeout);
      if t.timeout > list[0].timeout {
        InsertMembers(list[1..], t);
        var r := Insert(list[1..], t);
        assert forall u :: u in [list[0]] + r <==> u == list[0] || u in r;
        assert list == [list[0]] + list[1..];
      } else if t.timeout < list[0].timeout {
        assert !Occupied(list[1..], t.timeout);
      }
    }
  }

  function Earliest(list: seq<Timer>): int {
    if list == [] then MAX_TIME else list[0].timeout
  }

  // ------------------------------------------------------------------
  // The kernel alarm

  datatype Alarm = Disarmed | Armed(sec: int, nsec: int)

  /** timerfd_settime with an absolute time: zero disarms, a malformed value is refused. */
  function SetTime(old_: Alarm, sec: int, nsec: int): Alarm {
    if sec < 0 || nsec < 0 || nsec >= NANOS then old_
    else if sec == 0 && nsec == 0 then Disarmed
    else Armed(sec, nsec)
  }

  /** duration_cast truncates toward zero. */
  function WholeSeconds(time: int): int {
    if time >= 0 then time / NANOS else -(-time / NANOS)
  }

  /** The alarm after RefreshTimerFd for the cached earliest time. */
  function Programmed(old_: Alarm, latest: int): Alarm {
    if latest == MAX_TIME then SetTime(old_, 0, 0)
    else SetTime(old_, WholeSeconds(latest), latest - WholeSeconds(latest) * NANOS)
  }

  predicate WellFormed(a: Alarm) {
    a.Armed? ==> a.sec >= 0 && 0 <= a.nsec < NANOS && (a.sec > 0 || a.nsec > 0)
  }

  function FiresAt(a: Alarm): Option<int> {
    match a
    case Disarmed => None
    case Armed(sec, nsec) => Some(sec * NANOS + nsec)
  }

  /** The alarm fires at the cached time exactly when that time is after the epoch:
      time zero disarms it, and a negative time is refused by the kernel. */
  lemma AlarmFiresExactlyWhen(old_: Alarm, latest: int)
    requires WellFormed(old_)
    ensures WellFormed(Programmed(old_, latest))
    ensures latest != MAX_TIME ==> (FiresAt(Programmed(old_, latest)) == Some(latest) <==> latest > 0)
    ensures latest == MAX_TIME ==> Programmed(old_, latest) == Disarmed
    ensures Programmed(old_, latest) ==
            if latest == 0x7fff_ffff_ffff_ffff || latest == 0 then Disarmed
            else if latest < 0 then old_
            else Armed(latest / 1_000_000_000, latest % 1_000_000_000)
  {
    if latest < 0 {
      var whole := WholeSeconds(latest);
      assert -whole == (-latest) / NANOS;
      assert latest - whole * NANOS == -((-latest) % NANOS);
    }
  }

  // ------------------------------------------------------------------
  // The expiry pass

  /** What one pass does: the timers it returns, the reading of the clock each was
      found due at, what is left, the re-armed timers that met an occupied time
      point, and the number of the next clock reading. */
  datatype Expiry = Expiry(expired: seq<Timer>, at: seq<nat>, rest: seq<Timer>, lost: seq<Timer>, next: nat)

  /** A clock that never runs backwards and never passes `bound`. */
  ghost predicate Steady(clock: nat -> int, bound: int) {
    forall i: nat, j: nat :: i <= j ==> clock(i) <= clock(j) <= bound
  }

  lemma ClockMoves(clock: nat -> int, bound: int, i: nat, j: nat)
    requires Steady(clock, bound) && i <= j
    ensures clock(i) <= clock(j) <= bound
  {
  }

  predicate NoNegativeInterval(list: seq<Timer>) {
    forall i :: 0 <= i < |list| ==> list[i].interval >= 0
  }

  lemma InsertKeepsIntervals(list: seq<Timer>, t: Timer)
    requires Sorted(list)
    ensures NoNegativeInterval(list) && t.interval >= 0 ==> NoNegativeInterval(Insert(list, t))
    ensures forall u :: u in list ==> u in Insert(list, t)
  {
    InsertMembers(list, t);
    var r := Insert(list, t);
    if NoNegativeInterval(list) && t.interval >= 0 {
      forall i | 0 <= i < |r| ensures r[i].interval >= 0 {
        assert r[i] in r;
      }
    }
  }

  /** How far the timers of the list can still be moved before they lie past `bound`. */
  function Slack(list: seq<Timer>, bound: int): nat {
    if list == [] then 0
    else (if list[0].timeout <= bound then bound + 1 - list[0].timeout else 0) + Slack(list[1..], bound)
  }

  lemma {:induction false} SlackOfInsert(list: seq<Timer>, t: Timer, bound: int)
    requires Sorted(list)
    ensures Slack(Insert(list, t), bound) <= Slack(list, bound) + Slack([t], bound)
  {
    if list == [] {
    } else if t.timeout < list[0].timeout {
      assert ([t] + list)[1..] == list;
    } else if t.timeout > list[0].timeout {
      SlackOfInsert(list[1..], t, bound);
      assert Insert(list, t)[1..] == Insert(list[1..], t);
    }
  }

  function Rearmed(t: Timer, now: int): Timer {
    t.(timeout := t.interval + now)
  }

  /** The list after one round of the loop: the head is gone, or back at a later time. */
  function RoundList(list: seq<Timer>, clock: nat -> int, k: nat): (r: seq<Timer>)
    requires Sorted(list) && list != []
    ensures Sorted(r)
    ensures NoNegativeInterval(list) ==> NoNegativeInterval(r)
    ensures forall u :: u in list[1..] ==> u in r
  {
    if list[0].IsRepeated() then
      var again := Rearmed(list[0], clock(k + 1));
      InsertKeepsIntervals(list[1..], again);
      Insert(list[1..], again)
    else list[1..]
  }

  /** The re-armed timer, when its new time point is taken. */
  function RoundLoss(list: seq<Timer>, clock: nat -> int, k: nat): seq<Timer>
    requires list != []
  {
    var again := Rearmed(list[0], clock(k + 1));
    if list[0].IsRepeated() && Occupied(list[1..], again.timeout) then [again] else []
  }

  /** Clock readings of one round: one to test the head, one more to re-arm it. */
  function RoundReads(t: Timer): nat {
    if t.IsRepeated() then 2 else 1
  }

  /** One round of the loop takes slack away, whether the timer comes back, meets an
      occupied time point, or is gone for good; what is left expires later than it. */
  lemma RoundTakesSlack(list: seq<Timer>, clock: nat -> int, k: nat, bound: int)
    requires Sorted(list) && NoNegativeInterval(list) && Steady(clock, bound)
    requires list != [] && list[0].timeout <= clock(k)
    ensures Slack(RoundList(list, clock, k), bound) < Slack(list, bound)
    ensures RoundList(list, clock, k) != [] ==> RoundList(list, clock, k)[0].timeout > list[0].timeout
  {
    var later := clock(k + 1);
    assert clock(k) <= later <= bound;
    if list[0].IsRepeated() {
      SlackOfInsert(list[1..], Rearmed(list[0], later), bound);
      assert Slack([Rearmed(list[0], later)], bound) < bound + 1 - list[0].timeout;
    }
  }

  /** The expiry pass as a function of the list and the clock readings from the `k`-th on. */
  ghost function Expire(list: seq<Timer>, clock: nat -> int, k: nat, bound: int): (r: Expiry)
    requires Sorted(list) && NoNegativeInterval(list) && Steady(clock, bound)
    ensures Sorted(r.rest) && NoNegativeInterval(r.rest)
    ensures r.next >= k && |r.at| == |r.expired|
    decreases Slack(list, bound)
  {
    if list == [] then Expiry([], [], [], [], k)
    else if list[0].timeout > clock(k) then Expiry([], [], list, [], k + 1)
    else
      RoundTakesSlack(list, clock, k, bound);
      var r := Expire(RoundList(list, clock, k), clock, k + RoundReads(list[0]), bound);
      Expiry([list[0]] + r.expired, [k] + r.at, r.rest, RoundLoss(list, clock, k) + r.lost, r.next)
  }

  /** One round of the pass, then the pass on what the round leaves. */
  lemma OneRound(list: seq<Timer>, clock: nat -> int, k: nat, bound: int)
    requires Sorted(list) && NoNegativeInterval(list) && Steady(clock, bound)
    requires list != [] && list[0].timeout <= clock(k)
    ensures var whole := Expire(list, clock, k, bound);
            var r := Expire(RoundList(list, clock, k), clock, k + RoundReads(list[0]), bound);
            && whole.expired == [list[0]] + r.expired && whole.at == [k] + r.at
            && whole.rest == r.rest && whole.next == r.next
            && whole.lost == RoundLoss(list, clock, k) + r.lost
  {
    RoundTakesSlack(list, clock, k, bound);
  }

  /** A pass over a list that has nothing due. */
  lemma NoRound(list: seq<Timer>, clock: nat -> int, k: nat, bound: int)
    requires Sorted(list) && NoNegativeInterval(list) && Steady(clock, bound)
    requires list == [] || list[0].timeout > clock(k)
    ensures Expire(list, clock, k, bound) == Expiry([], [], list, [], if list == [] then k else k + 1)
  {
  }

  /** Every timer due at the first reading is returned. */
  lemma {:induction false} DueIsReturned(list: seq<Timer>, clock: nat -> int, k: nat, bound: int, t: Timer)
    requires Sorted(list) && NoNegativeInterval(list) && Steady(clock, bound)
    requires t in list && t.timeout <= clock(k)
    ensures t in Expire(list, clock, k, bound).expired
    decreases Slack(list, bound)
  {
    hide Expire, Steady;
    OneRound(list, clock, k, bound);
    if t != list[0] {
      assert t in list[1..];
      RoundTakesSlack(list, clock, k, bound);
      ClockMoves(clock, bound, k, k + RoundReads(list[0]));
      DueIsReturned(RoundList(list, clock, k), clock, k + RoundReads(list[0]), bound, t);
    }
  }

  /** Every returned timer was due at the reading that popped it, the readings
      follow one another, and what remains expires after the last one. */
  ghost predicate Timely(r: Expiry, clock: nat -> int, k: nat) {
    && |r.at| == |r.expired|
    && (forall j :: 0 <= j < |r.expired| ==> k <= r.at[j] < r.next && r.expired[j].timeout <= clock(r.at[j]))
    && (forall i, j :: 0 <= i < j < |r.at| ==> r.at[i] < r.at[j])
    && (r.rest != [] ==> r.next > k && r.rest[0].timeout > clock(r.next - 1))
  }

  lemma {:induction false} PassIsTimely(list: seq<Timer>, clock: nat -> int, k: nat, bound: int)
    requires Sorted(list) && NoNegativeInterval(list) && Steady(clock, bound)
    ensures Timely(Expire(list, clock, k, bound), clock, k)
    decreases Slack(list, bound)
  {
    hide Expire, Steady;
    if list != [] && list[0].timeout <= clock(k) {
      OneRound(list, clock, k, bound);
      RoundTakesSlack(list, clock, k, bound);
      PassIsTimely(RoundList(list, clock, k), clock, k + RoundReads(list[0]), bound);
    } else {
      NoRound(list, clock, k, bound);
    }
  }

  /** Timers are returned in the order of their expiries, no two with the same one. */
  lemma {:induction false} PassIsOrdered(list: seq<Timer>, clock: nat -> int, k: nat, bound: int)
    requires Sorted(list) && NoNegativeInterval(list) && Steady(clock, bound)
    ensures var r := Expire(list, clock, k, bound);
            Sorted(r.expired) && (r.expired != [] ==> list != [] && r.expired[0] == list[0])
    decreases Slack(list, bound)
  {
    hide Expire, Steady;
    if list != [] && list[0].timeout <= clock(k) {
      OneRound(list, clock, k, bound);
      RoundTakesSlack(list, clock, k, bound);
      PassIsOrdered(RoundList(list, clock, k), clock, k + RoundReads(list[0]), bound);
    } else {
      NoRound(list, clock, k, bound);
    }
  }

  /** The program's assertion that the new earliest expiry lies after the old one. */
  predicate EarliestAdvanced(before: seq<Timer>, after: seq<Timer>) {
    after != [] ==> after[0].timeout > Earliest(before)
  }

  /** It holds exactly when the earliest timer was due at the first reading, or there was no timer at all. */
  lemma AssertionHoldsExactlyWhen(list: seq<Timer>, clock: nat -> int, k: nat, bound: int)
    requires Sorted(list) && NoNegativeInterval(list) && Steady(clock, bound)
    ensures EarliestAdvanced(list, Expire(list, clock, k, bound).rest) <==> list == [] || list[0].timeout <= clock(k)
  {
    var r := Expire(list, clock, k, bound);
    PassIsTimely(list, clock, k, bound);
    if r.rest != [] {
      assert clock(k) <= clock(r.next - 1);
    }
  }

  // ------------------------------------------------------------------
  // Where the timers left, returned and dropped come from

  /** `t` is `u` set to expire its interval after the reading `now`. */
  predicate IsAgain(t: Timer, u: Timer, now: int) {
    u.interval != 0 && t == Timer(u.id, u.interval + now, u.interval, u.cb)
  }

  lemma AgainHasCall(t: Timer, u: Timer, now: int)
    requires IsAgain(t, u, now)
    ensures t.cb == u.cb && t.id == u.id && t.interval == u.interval
  {
  }

  /** One round: a one-shot timer is gone; a repeated one is back, its interval after the second
      reading of the clock, or is dropped because another timer expires just then. */
  lemma RoundIsExact(list: seq<Timer>, clock: nat -> int, k: nat)
    requires Sorted(list) && list != []
    ensures var r, lost := RoundList(list, clock, k), RoundLoss(list, clock, k);
            var again := list[0].interval + clock(k + 1);
            if list[0].interval == 0 || exists j :: 0 < j < |list| && list[j].timeout == again
            then r == list[1..] && (list[0].interval == 0 <==> lost == [])
                 && (forall t :: t in lost ==> IsAgain(t, list[0], clock(k + 1)))
            else |r| == |list| && lost == []
                 && forall t :: t in r <==> t in list[1..] || IsAgain(t, list[0], clock(k + 1))
  {
    var now, again := clock(k + 1), Rearmed(list[0], clock(k + 1));
    InsertMembers(list[1..], again);
    OccupiedBehind(list, again.timeout);
    if list[0].interval != 0 {
      forall t ensures IsAgain(t, list[0], now) <==> t == again {
        AgainIsRearmed(t, list[0], now);
      }
    }
    hide Insert, Occupied, IsAgain, Sorted, Rearmed;
  }

  lemma AgainIsRearmed(t: Timer, u: Timer, now: int)
    ensures IsAgain(t, u, now) <==> u.interval != 0 && t == Rearmed(u, now)
  {
  }

  lemma OccupiedBehind(list: seq<Timer>, time: int)
    requires list != []
    ensures Occupied(list[1..], time) <==> exists j :: 0 < j < |list| && list[j].timeout == time
  {
    if Occupied(list[1..], time) {
      var i :| 0 <= i < |list| - 1 && list[1..][i].timeout == time;
      assert list[i + 1].timeout == time;
    }
    if j :| 0 < j < |list| && list[j].timeout == time {
      assert list[1..][j - 1] == list[j];
    }
  }

  /** A due repeated timer, alone, is set to its interval after the reading that follows. */
  lemma RearmedAlone(t: Timer, clock: nat -> int, k: nat)
    requires t.interval != 0
    ensures Sorted([t]) && RoundList([t], clock, k) == [t.(timeout := t.interval + clock(k + 1))]
  {
    assert [t][1..] == [];
  }

  /** `t` is one of the first `n` returned timers, set again when that was returned. */
  ghost predicate IsSetAgain(t: Timer, r: Expiry, clock: nat -> int, n: nat)
    requires |r.at| == |r.expired| && n <= |r.expired|
  {
    exists j :: 0 <= j < n && IsAgain(t, r.expired[j], clock(r.at[j] + 1))
  }

  /** Over a pass, nothing comes from anywhere else than the list: what is left, what is returned
      and what was dropped was in it, or was returned before and set again. */
  ghost predicate AllComeFrom(list: seq<Timer>, r: Expiry, clock: nat -> int)
    requires |r.at| == |r.expired|
  {
    && (forall t :: t in r.rest ==> t in list || IsSetAgain(t, r, clock, |r.expired|))
    && (forall x :: 0 <= x < |r.expired| ==> r.expired[x] in list || IsSetAgain(r.expired[x], r, clock, x))
    && (forall t :: t in r.lost ==> IsSetAgain(t, r, clock, |r.expired|))
  }

  /** `whole` is the pass that begins with one round more than `r`, of timer `t0` at reading `k`. */
  predicate IsOneRoundMore(r: Expiry, whole: Expiry, t0: Timer, k: nat)
    requires |r.at| == |r.expired|
  {
    |whole.at| == |whole.expired| && whole.expired == [t0] + r.expired && whole.at == [k] + r.at
  }

  lemma SetAgainBefore(t: Timer, r: Expiry, whole: Expiry, t0: Timer, k: nat, clock: nat -> int, n: nat)
    requires |r.at| == |r.expired| && n <= |r.expired| && IsOneRoundMore(r, whole, t0, k)
    requires IsSetAgain(t, r, clock, n)
    ensures IsSetAgain(t, whole, clock, n + 1)
  {
    hide IsAgain;
    var j :| 0 <= j < n && IsAgain(t, r.expired[j], clock(r.at[j] + 1));
    assert whole.expired[j + 1] == r.expired[j] && whole.at[j + 1] == r.at[j];
  }

  lemma SetAgainFirst(t: Timer, r: Expiry, whole: Expiry, t0: Timer, k: nat, clock: nat -> int, n: nat)
    requires |r.at| == |r.expired| && n <= |r.expired| && IsOneRoundMore(r, whole, t0, k)
    requires IsAgain(t, t0, clock(k + 1))
    ensures IsSetAgain(t, whole, clock, n + 1)
  {
    hide IsAgain;
    assert whole.expired[0] == t0 && whole.at[0] == k;
  }

  /** What came from the list after one round came from the list before it. */
  lemma FromBefore(t: Timer, list: seq<Timer>, clock: nat -> int, k: nat, r: Expiry, whole: Expiry, n: nat)
    requires Sorted(list) && list != [] && |r.at| == |r.expired| && n <= |r.expired|
    requires IsOneRoundMore(r, whole, list[0], k)
    requires t in RoundList(list, clock, k) || IsSetAgain(t, r, clock, n)
    ensures t in list || IsSetAgain(t, whole, clock, n + 1)
  {
    if t in RoundList(list, clock, k) {
      RoundIsExact(list, clock, k);
      hide IsAgain, RoundList, IsSetAgain, IsOneRoundMore;
      if t !in list {
        assert t !in list[1..];
        SetAgainFirst(t, r, whole, list[0], k, clock, n);
      }
    } else {
      SetAgainBefore(t, r, whole, list[0], k, clock, n);
    }
  }

  lemma LostFromBefore(t: Timer, list: seq<Timer>, clock: nat -> int, k: nat, r: Expiry, whole: Expiry)
    requires Sorted(list) && list != [] && |r.at| == |r.expired|
    requires IsOneRoundMore(r, whole, list[0], k)
    requires t in RoundLoss(list, clock, k) || IsSetAgain(t, r, clock, |r.expired|)
    ensures IsSetAgain(t, whole, clock, |whole.expired|)
  {
    if t in RoundLoss(list, clock, k) {
      SetAgainFirst(t, r, whole, list[0], k, clock, |r.expired|);
    } else {
      SetAgainBefore(t, r, whole, list[0], k, clock, |r.expired|);
    }
  }

  lemma OneRoundComesFrom(list: seq<Timer>, clock: nat -> int, k: nat, r: Expiry, whole: Expiry)
    requires Sorted(list) && list != [] && |r.at| == |r.expired|
    requires AllComeFrom(RoundList(list, clock, k), r, clock)
    requires IsOneRoundMore(r, whole, list[0], k) && whole.rest == r.rest
    requires whole.lost == RoundLoss(list, clock, k) + r.lost
    ensures AllComeFrom(list, whole, clock)
  {
    hide RoundList, RoundLoss, IsSetAgain;
    forall t | t in whole.rest ensures t in list || IsSetAgain(t, whole, clock, |whole.expired|) {
      FromBefore(t, list, clock, k, r, whole, |r.expired|);
    }
    forall x | 0 <= x < |whole.expired|
      ensures whole.expired[x] in list || IsSetAgain(whole.expired[x], whole, clock, x)
    {
      if x > 0 {
        assert whole.expired[x] == r.expired[x - 1];
        FromBefore(r.expired[x - 1], list, clock, k, r, whole, x - 1);
      }
    }
    forall t | t in whole.lost ensures IsSetAgain(t, whole, clock, |whole.expired|) {
      LostFromBefore(t, list, clock, k, r, whole);
    }
  }

  lemma {:induction false} PassComesFrom(list: seq<Timer>, clock: nat -> int, k: nat, bound: int)
    requires Sorted(list) && NoNegativeInterval(list) && Steady(clock, bound)
    ensures AllComeFrom(list, Expire(list, clock, k, bound), clock)
    decreases Slack(list, bound)
  {
    hide Expire, Steady;
    if NothingDue(list, clock, k) {
      NoRound(list, clock, k, bound);
    } else {
      OneRound(list, clock, k, bound);
      RoundTakesSlack(list, clock, k, bound);
      var next := k + RoundReads(list[0]);
      PassComesFrom(RoundList(list, clock, k), clock, next, bound);
      OneRoundComesFrom(list, clock, k, Expire(RoundList(list, clock, k), clock, next, bound),
                        Expire(list, clock, k, bound));
    }
  }

  // ------------------------------------------------------------------
  // Whether the loop ends

  predicate NothingDue(list: seq<Timer>, clock: nat -> int, k: nat) {
    list == [] || list[0].timeout > clock(k)
  }

  /** The list after `n` rounds of the loop, or fewer if it ends before, and the number of the next reading. */
  function Rounds(list: seq<Timer>, clock: nat -> int, k: nat, n: nat): (seq<Timer>, nat)
    requires Sorted(list)
    decreases n
  {
    if n == 0 || NothingDue(list, clock, k) then (list, k)
    else Rounds(RoundList(list, clock, k), clock, k + RoundReads(list[0]), n - 1)
  }

  ghost predicate Ends(list: seq<Timer>, clock: nat -> int, k: nat, n: nat)
    requires Sorted(list)
  {
    var (rest, next) := Rounds(list, clock, k, n);
    NothingDue(rest, clock, next)
  }

  /** The loop, entered with this list and clock, comes to its end. */
  ghost predicate Settles(list: seq<Timer>, clock: nat -> int, k: nat)
    requires Sorted(list)
  {
    exists n :: Ends(list, clock, k, n)
  }

  lemma OneRoundMore(list: seq<Timer>, clock: nat -> int, k: nat, n: nat)
    requires Sorted(list) && !NothingDue(list, clock, k)
    ensures var list1, k1 := RoundList(list, clock, k), k + RoundReads(list[0]);
            && Rounds(list, clock, k, n + 1) == Rounds(list1, clock, k1, n)
            && (Ends(list1, clock, k1, n) ==> Ends(list, clock, k, n + 1))
  {
  }

  lemma NoRoundMore(list: seq<Timer>, clock: nat -> int, k: nat)
    requires Sorted(list) && NothingDue(list, clock, k)
    ensures Ends(list, clock, k, 0) && Rounds(list, clock, k, 0) == (list, k)
  {
  }

  /** Without negative intervals the loop ends, with what the pass leaves. */
  lemma {:induction false} PassIsTheLoop(list: seq<Timer>, clock: nat -> int, k: nat, bound: int) returns (n: nat)
    requires Sorted(list) && NoNegativeInterval(list) && Steady(clock, bound)
    ensures Ends(list, clock, k, n) && Rounds(list, clock, k, n).0 == Expire(list, clock, k, bound).rest
    ensures Settles(list, clock, k)
    decreases Slack(list, bound)
  {
    hide Expire, Steady, RoundList, Rounds, Ends, Slack;
    if NothingDue(list, clock, k) {
      n := 0;
      NoRoundMore(list, clock, k);
      NoRound(list, clock, k, bound);
    } else {
      OneRound(list, clock, k, bound);
      RoundTakesSlack(list, clock, k, bound);
      var m := PassIsTheLoop(RoundList(list, clock, k), clock, k + RoundReads(list[0]), bound);
      OneRoundMore(list, clock, k, m);
      n := m + 1;
    }
  }

  ghost predicate NeverBack(clock: nat -> int) {
    forall i: nat, j: nat :: i <= j ==> clock(i) <= clock(j)
  }

  /** One timer alone, due, with a negative interval: after any number of rounds it is alone and due
      again, whatever the clock does as long as it never runs backwards. */
  lemma {:induction false} DueAgain(t: Timer, clock: nat -> int, k: nat, n: nat)
    requires NeverBack(clock) && t.interval < 0 && t.timeout <= clock(k)
    ensures Sorted([t]) && !Ends([t], clock, k, n)
    decreases n
  {
    if n > 0 {
      var again := Rearmed(t, clock(k + 1));
      assert clock(k + 1) <= clock(k + 2);
      assert [t][1..] == [];
      assert RoundList([t], clock, k) == [again];
      DueAgain(again, clock, k + 2, n - 1);
    }
  }

  /** With a single timer the loop ends exactly when its interval is not negative or it is not due. */
  lemma SingleTimerSettlesExactlyWhen(t: Timer, clock: nat -> int, k: nat, bound: int)
    requires Steady(clock, bound)
    ensures Sorted([t])
    ensures Settles([t], clock, k) <==> t.interval >= 0 || t.timeout > clock(k)
  {
    if t.interval >= 0 {
      var n := PassIsTheLoop([t], clock, k, bound);
    } else if t.timeout > clock(k) {
      assert Ends([t], clock, k, 0);
    } else {
      forall n: nat ensures !Ends([t], clock, k, n) {
        DueAgain(t, clock, k, n);
      }
    }
  }

  /** With others in the index the loop may end after all: here the re-armed timer meets an
      occupied time point and is dropped. */
  lemma CollisionEndsTheLoop(clock: nat -> int)
    requires forall k :: clock(k) == 8
    ensures var list := [Timer(1, 5, -2, 0), Timer(2, 6, 0, 0)];
            Sorted(list) && Settles(list, clock, 0) && Rounds(list, clock, 0, 2).0 == []
  {
    var t, u := Timer(1, 5, -2, 0), Timer(2, 6, 0, 0);
    var list := [t, u];
    assert list[1..] == [u] && [u][1..] == [];
    assert Insert([u], Rearmed(t, 8)) == [u];
    assert RoundList(list, clock, 0) == [u];
    assert RoundList([u], clock, 2) == [];
    assert Rounds([], clock, 3, 0) == ([], 3);
    assert Rounds([u], clock, 2, 1) == ([], 3);
    assert Ends(list, clock, 0, 2);
  }
}
