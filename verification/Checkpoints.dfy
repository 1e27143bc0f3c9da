/** One checkpoint array of the time-weighted ledger: how it is written, and how it is searched. */
module Checkpoints {
  import opened Arithmetic
  import opened TwabHistory

  datatype Checkpoint = Checkpoint(timestamp: int, balance: int, cumulative: int)

  function LastBalance(cs: seq<Checkpoint>): int {
    if cs == [] then 0 else cs[|cs| - 1].balance
  }

  predicate Sorted(cs: seq<Checkpoint>) {
    forall i, j :: 0 <= i < j < |cs| ==> cs[i].timestamp < cs[j].timestamp
  }

  /** Whether the array refuses a write stamped `t`. */
  predicate Older(cs: seq<Checkpoint>, t: int) {
    cs != [] && t < cs[|cs| - 1].timestamp
  }

  /** The array after recording that the balance is `newBalance` from `t` on. */
  function Written(cs: seq<Checkpoint>, newBalance: int, t: int): seq<Checkpoint>
    requires !Older(cs, t)
  {
    if cs == [] then [Checkpoint(t, newBalance, 0)]
    else
      var previous := cs[|cs| - 1];
      var next := Checkpoint(t, newBalance, previous.cumulative + previous.balance * (t - previous.timestamp));
      if previous.timestamp == t then cs[..|cs| - 1] + [next] else cs + [next]
  }

  /** The cumulative value at `t`: the newest observation not after `t`, extended at its balance. */
  function Interpolated(cs: seq<Checkpoint>, t: int): int {
    if cs == [] then 0
    else
      var last := cs[|cs| - 1];
      if last.timestamp <= t then last.cumulative + last.balance * (t - last.timestamp)
      else Interpolated(cs[..|cs| - 1], t)
  }

  lemma {:induction false} InterpolatedAt(cs: seq<Checkpoint>, t: int, k: nat)
    requires Sorted(cs) && k < |cs| && cs[k].timestamp <= t
    requires k + 1 < |cs| ==> t < cs[k + 1].timestamp
    ensures Interpolated(cs, t) == cs[k].cumulative + cs[k].balance * (t - cs[k].timestamp)
  {
    if k + 1 < |cs| {
      assert cs[k + 1].timestamp <= cs[|cs| - 1].timestamp;
      InterpolatedAt(cs[..|cs| - 1], t, k);
    }
  }

  lemma {:induction false} InterpolatedBeforeFirst(cs: seq<Checkpoint>, t: int)
    requires Sorted(cs) && cs != [] && t < cs[0].timestamp
    ensures Interpolated(cs, t) == 0
  {
    assert cs[0].timestamp <= cs[|cs| - 1].timestamp;
    if |cs| > 1 {
      InterpolatedBeforeFirst(cs[..|cs| - 1], t);
    }
  }

  /** The binary search of the source finds that observation. */
  method Interpolate(cs: seq<Checkpoint>, t: int) returns (r: int)
    requires Sorted(cs)
    ensures r == Interpolated(cs, t)
  {
    if cs == [] {
      return 0;
    }
    if t < cs[0].timestamp {
      InterpolatedBeforeFirst(cs, t);
      return 0;
    }
    var low, high := 0, |cs|;
    while low + 1 < high
      invariant 0 <= low < high <= |cs|
      invariant cs[low].timestamp <= t
      invariant high < |cs| ==> t < cs[high].timestamp
    {
      var middle := low + (high - low) / 2;
      if cs[middle].timestamp <= t {
        low := middle;
      } else {
        high := middle;
      }
    }
    InterpolatedAt(cs, t, low);
    r := cs[low].cumulative + cs[low].balance * (t - cs[low].timestamp);
  }

  /** The cumulative value never falls as the queried time grows. */
  ghost predicate Rising(cs: seq<Checkpoint>) {
    forall t, u :: t <= u ==> Interpolated(cs, t) <= Interpolated(cs, u)
  }

  /** What every checkpoint array of a reachable ledger satisfies. */
  ghost predicate Sound(cs: seq<Checkpoint>) {
    Sorted(cs) && Rising(cs) && LastBalance(cs) >= 0
  }

  /** The array answers every query as the history's integral does. */
  ghost predicate Represents(cs: seq<Checkpoint>, h: seq<BalanceAction>) {
    && Sorted(cs)
    && LastBalance(cs) == Total(h)
    && (forall t :: Interpolated(cs, t) == Accrued(h, t))
  }

  lemma WrittenSorted(cs: seq<Checkpoint>, newBalance: int, t: int)
    requires Sorted(cs) && !Older(cs, t)
    ensures Sorted(Written(cs, newBalance, t))
    ensures Written(cs, newBalance, t) != []
    ensures LastBalance(Written(cs, newBalance, t)) == newBalance
  {
  }

  /** A write never changes the cumulative value at or before its own timestamp. */
  lemma {:induction false} WrittenKeepsPast(cs: seq<Checkpoint>, newBalance: int, t: int, u: int)
    requires Sorted(cs) && !Older(cs, t) && u <= t
    ensures Interpolated(Written(cs, newBalance, t), u) == Interpolated(cs, u)
  {
    var w := Written(cs, newBalance, t);
    if cs == [] {
    } else if cs[|cs| - 1].timestamp == t {
      assert w[..|w| - 1] == cs[..|cs| - 1];
    } else {
      assert w[..|w| - 1] == cs;
    }
  }

  /** Beyond its timestamp a write changes the slope, and nothing else. */
  lemma {:induction false} WrittenFromNow(cs: seq<Checkpoint>, newBalance: int, t: int, u: int)
    requires !Older(cs, t) && t <= u
    ensures Interpolated(Written(cs, newBalance, t), u)
         == Interpolated(cs, u) + (newBalance - LastBalance(cs)) * (u - t)
  {
    if cs != [] {
      var p := cs[|cs| - 1];
      assert p.balance * (t - p.timestamp) + newBalance * (u - t)
          == p.balance * (u - p.timestamp) + (newBalance - p.balance) * (u - t);
    }
  }

  /** Both facts at once: a write adds the contribution of its action, at every time. */
  lemma {:induction false} WrittenAt(cs: seq<Checkpoint>, delta: int, t: int, u: int)
    requires Sorted(cs) && !Older(cs, t)
    ensures Interpolated(Written(cs, LastBalance(cs) + delta, t), u) == Interpolated(cs, u) + Contribution(t, delta, u)
  {
    var newBalance := LastBalance(cs) + delta;
    assert newBalance - LastBalance(cs) == delta;
    if u <= t {
      WrittenKeepsPast(cs, newBalance, t, u);
    } else {
      WrittenFromNow(cs, newBalance, t, u);
    }
  }

  /** Writing keeps the array faithful to the history extended by the same action. */
  lemma {:induction false} WrittenRepresents(cs: seq<Checkpoint>, h: seq<BalanceAction>, delta: int, t: int)
    requires Represents(cs, h) && !Older(cs, t)
    ensures Represents(Written(cs, LastBalance(cs) + delta, t), h + [BalanceAction(t, delta)])
  {
    var h' := h + [BalanceAction(t, delta)];
    var w := Written(cs, LastBalance(cs) + delta, t);
    WrittenSorted(cs, LastBalance(cs) + delta, t);
    AccruedAppend(h, BalanceAction(t, delta), t);
    forall u ensures Interpolated(w, u) == Accrued(h', u) {
      WrittenAt(cs, delta, t, u);
      AccruedAppend(h, BalanceAction(t, delta), u);
    }
  }

  lemma {:induction false} WrittenExtends(cs: seq<Checkpoint>, newBalance: int, t: int, u: int)
    requires Sorted(cs) && !Older(cs, t)
    ensures var w := Written(cs, newBalance, t);
            Interpolated(w, u) == Interpolated(w, if u <= t then u else t) + newBalance * ((if u <= t then t else u) - t)
  {
    if t < u {
      var w := Written(cs, newBalance, t);
      assert w[|w| - 1].balance == newBalance && w[|w| - 1].timestamp == t;
    }
  }

  lemma {:induction false} WrittenRises(cs: seq<Checkpoint>, newBalance: int, t: int, u: int, u': int)
    requires Sound(cs) && !Older(cs, t) && newBalance >= 0 && u <= u'
    ensures Interpolated(Written(cs, newBalance, t), u) <= Interpolated(Written(cs, newBalance, t), u')
  {
    var low, high := if u <= t then u else t, if u' <= t then u' else t;
    WrittenKeepsPast(cs, newBalance, t, low);
    WrittenKeepsPast(cs, newBalance, t, high);
    WrittenExtends(cs, newBalance, t, u);
    WrittenExtends(cs, newBalance, t, u');
    assert Interpolated(cs, low) <= Interpolated(cs, high);
    Scaled(newBalance, (if u <= t then t else u) - t, (if u' <= t then t else u') - t);
  }

  lemma {:induction false} WrittenSound(cs: seq<Checkpoint>, newBalance: int, t: int)
    requires Sound(cs) && !Older(cs, t) && newBalance >= 0
    ensures Sound(Written(cs, newBalance, t))
  {
    WrittenSorted(cs, newBalance, t);
    forall u, u' | u <= u'
      ensures Interpolated(Written(cs, newBalance, t), u) <= Interpolated(Written(cs, newBalance, t), u')
    {
      WrittenRises(cs, newBalance, t, u, u');
    }
  }
}
