/** What a time-weighted balance is: the integral of a balance step function, stated on the plain list of actions. */
module TwabHistory {

  datatype BalanceAction = BalanceAction(timestamp: int, delta: int)

  /** The balance once every action stamped `u` or earlier has executed. */
  function BalanceAt(h: seq<BalanceAction>, u: int): int {
    if h == [] then 0
    else
      var last := h[|h| - 1];
      BalanceAt(h[..|h| - 1], u) + if last.timestamp <= u then last.delta else 0
  }

  /** The integral of the balance over [opensAt, closesAt): one addend per second, the repository's time granularity. */
  function BalanceTime(h: seq<BalanceAction>, opensAt: int, closesAt: int): int
    decreases closesAt - opensAt
  {
    if closesAt <= opensAt then 0 else BalanceTime(h, opensAt, closesAt - 1) + BalanceAt(h, closesAt - 1)
  }

  /** The balance after the whole history. */
  function Total(h: seq<BalanceAction>): int {
    if h == [] then 0 else Total(h[..|h| - 1]) + h[|h| - 1].delta
  }

  /** What one action contributes to the integral up to `t`. */
  function Contribution(timestamp: int, delta: int, t: int): int {
    if timestamp <= t then delta * (t - timestamp) else 0
  }

  /** Closed form of the integral from before the first action up to `t`. */
  function Accrued(h: seq<BalanceAction>, t: int): int {
    if h == [] then 0
    else Accrued(h[..|h| - 1], t) + Contribution(h[|h| - 1].timestamp, h[|h| - 1].delta, t)
  }

  lemma {:induction false} AccruedAppend(h: seq<BalanceAction>, a: BalanceAction, t: int)
    ensures Accrued(h + [a], t) == Accrued(h, t) + Contribution(a.timestamp, a.delta, t)
    ensures Total(h + [a]) == Total(h) + a.delta
  {
    assert (h + [a])[..|h|] == h;
  }

  lemma {:induction false} AccruedNextSecond(h: seq<BalanceAction>, t: int)
    ensures Accrued(h, t + 1) == Accrued(h, t) + BalanceAt(h, t)
  {
    if h != [] {
      AccruedNextSecond(h[..|h| - 1], t);
      var last := h[|h| - 1];
      assert last.delta * (t + 1 - last.timestamp) == last.delta * (t - last.timestamp) + last.delta;
    }
  }

  /** The integral over an interval is the difference of the closed form at its ends. */
  lemma {:induction false} BalanceTimeIsAccrued(h: seq<BalanceAction>, opensAt: int, closesAt: int)
    requires opensAt <= closesAt
    ensures BalanceTime(h, opensAt, closesAt) == Accrued(h, closesAt) - Accrued(h, opensAt)
    decreases closesAt - opensAt
  {
    if opensAt < closesAt {
      BalanceTimeIsAccrued(h, opensAt, closesAt - 1);
      AccruedNextSecond(h, closesAt - 1);
    }
  }

  /** Once every action lies in the past, the integral grows by the final balance per second. */
  lemma {:induction false} AccruedIsLinearAfter(h: seq<BalanceAction>, s: int, t: int)
    requires s <= t
    requires forall i :: 0 <= i < |h| ==> h[i].timestamp <= s
    ensures Accrued(h, t) == Accrued(h, s) + Total(h) * (t - s)
  {
    if h != [] {
      var front, last := h[..|h| - 1], h[|h| - 1];
      AccruedIsLinearAfter(front, s, t);
      assert last.delta * (t - last.timestamp) == last.delta * (s - last.timestamp) + last.delta * (t - s);
      assert Total(h) * (t - s) == Total(front) * (t - s) + last.delta * (t - s);
    }
  }

  /** A cap on the balance bounds the integral by cap times duration, whatever the number of actions. */
  lemma {:induction false} BalanceTimeWithinCap(h: seq<BalanceAction>, opensAt: int, closesAt: int, cap: int)
    requires opensAt <= closesAt
    requires forall u :: opensAt <= u < closesAt ==> BalanceAt(h, u) <= cap
    ensures BalanceTime(h, opensAt, closesAt) <= cap * (closesAt - opensAt)
    decreases closesAt - opensAt
  {
    if opensAt < closesAt {
      BalanceTimeWithinCap(h, opensAt, closesAt - 1, cap);
      assert cap * (closesAt - opensAt) == cap * (closesAt - 1 - opensAt) + cap;
    }
  }
}
