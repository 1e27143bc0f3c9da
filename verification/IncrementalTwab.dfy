/** The incremental accrual of scripts/sg3-domain.ts, and its agreement with the checkpoint ledger. */
module IncrementalTwab {
  import opened Outcomes
  import opened TwabHistory
  import opened Checkpoints
  import opened TwabModel
  import opened TwabRuns
  import opened TwabOrder

  const TOKEN_SCALE: int := 1_000_000
  const MAX_POOL_BASE_UNITS: int := 1_000_000_000 * TOKEN_SCALE
  const MAX_ROUND_DURATION_SECONDS: int := 365 * (24 * 60 * 60)
  const MAX_USER_BALANCE_BASE_UNITS: int := MAX_POOL_BASE_UNITS
  const MAX_USER_TWAB: int := MAX_USER_BALANCE_BASE_UNITS * MAX_ROUND_DURATION_SECONDS
  const MAX_AGGREGATE_TWAB: int := MAX_POOL_BASE_UNITS * MAX_ROUND_DURATION_SECONDS

  datatype TwabState = TwabState(balance: int, cumulativeTwab: int, lastUpdate: int)

  datatype TwabUpdate = TwabUpdate(
    balance: int, cumulativeTwab: int, effectiveTime: int, elapsed: int, weightedDelta: int)

  /** The first violated bound, if any, of `requireWithin`. */
  function RequireWithin(name: string, value: int, maximum: int): Outcome {
    if value < 0 then Thrown(name + " must be non-negative")
    else if value > maximum then Thrown(name + " exceeds its locked maximum")
    else Done
  }

  function Clamped(t: int, roundEnd: int): int {
    if t < roundEnd then t else roundEnd
  }

  /** Accrue the old balance up to now, but never past the end of the round; then change the balance. */
  function UpdateTwabBeforeBalanceMutation(
      state: TwabState, currentTimestamp: int, roundEnd: int, nextBalance: int): Result<TwabUpdate>
  {
    var balance := RequireWithin("balance", state.balance, MAX_USER_BALANCE_BASE_UNITS);
    if balance.Thrown? then Err(balance.error) else
    var next := RequireWithin("next balance", nextBalance, MAX_USER_BALANCE_BASE_UNITS);
    if next.Thrown? then Err(next.error) else
    var cumulative := RequireWithin("cumulative TWAB", state.cumulativeTwab, MAX_USER_TWAB);
    if cumulative.Thrown? then Err(cumulative.error) else
    if !(currentTimestamp >= 0 && roundEnd >= 0 && state.lastUpdate >= 0)
    then Err("timestamps must be non-negative") else
    var effectiveTime := Clamped(currentTimestamp, roundEnd);
    if effectiveTime < state.lastUpdate then Err("effective time precedes last update") else
    var elapsed := effectiveTime - state.lastUpdate;
    var time := RequireWithin("elapsed time", elapsed, MAX_ROUND_DURATION_SECONDS);
    if time.Thrown? then Err(time.error) else
    var weightedDelta := state.balance * elapsed;
    var weighted := RequireWithin("weighted delta", weightedDelta, MAX_USER_TWAB);
    if weighted.Thrown? then Err(weighted.error) else
    if state.cumulativeTwab > MAX_USER_TWAB - weightedDelta then Err("cumulative TWAB addition overflows") else
    Ok(TwabUpdate(nextBalance, state.cumulativeTwab + weightedDelta, effectiveTime, elapsed, weightedDelta))
  }

  function Next(u: TwabUpdate): TwabState {
    TwabState(u.balance, u.cumulativeTwab, u.effectiveTime)
  }

  /** One update per balance action, in order; the first error ends the run. */
  function UpdateAll(state: TwabState, actions: seq<BalanceAction>, roundEnd: int): Result<TwabState> {
    if actions == [] then Ok(state)
    else
      var before := UpdateAll(state, actions[..|actions| - 1], roundEnd);
      if before.Err? then before
      else
        var a := actions[|actions| - 1];
        var update :=
          UpdateTwabBeforeBalanceMutation(before.value, a.timestamp, roundEnd, before.value.balance + a.delta);
        if update.Err? then Err(update.error) else Ok(Next(update.value))
  }

  /** The round is well placed, and the balance carried into it is within the cap. */
  predicate RoundStart(opening: TwabState, roundEnd: int) {
    && 0 <= opening.lastUpdate <= roundEnd <= opening.lastUpdate + MAX_ROUND_DURATION_SECONDS
    && 0 <= opening.balance <= MAX_USER_BALANCE_BASE_UNITS
    && opening.cumulativeTwab == 0
  }

  /** What the source asks of the actions: balances within the cap, clamped times in order.
      Nothing about cumulative values. */
  predicate InOrderWithinCap(opening: TwabState, actions: seq<BalanceAction>, roundEnd: int) {
    actions == [] ||
    (var front, a := actions[..|actions| - 1], actions[|actions| - 1];
     && InOrderWithinCap(opening, front, roundEnd)
     && 0 <= opening.balance + Total(actions) <= MAX_USER_BALANCE_BASE_UNITS
     && LastUpdate(opening, front, roundEnd) <= Clamped(a.timestamp, roundEnd))
  }

  function LastUpdate(opening: TwabState, actions: seq<BalanceAction>, roundEnd: int): int {
    if actions == [] then opening.lastUpdate else Clamped(actions[|actions| - 1].timestamp, roundEnd)
  }

  lemma ProductWithin(x: int, xMax: int, y: int, yMax: int)
    requires 0 <= x <= xMax && 0 <= y <= yMax
    ensures 0 <= x * y <= xMax * y <= xMax * yMax
  {
  }

  /** No locked bound ever trips: the run throws iff some action breaks the order or the balance cap. In particular the
      overflow check never fires, and what has accrued is at most the cap times the elapsed time. */
  lemma {:induction false} NoLockedBoundTrips(opening: TwabState, actions: seq<BalanceAction>, roundEnd: int)
    requires RoundStart(opening, roundEnd)
    ensures UpdateAll(opening, actions, roundEnd).Ok? <==> InOrderWithinCap(opening, actions, roundEnd)
    ensures UpdateAll(opening, actions, roundEnd).Ok? ==>
      var s := UpdateAll(opening, actions, roundEnd).value;
      && s.balance == opening.balance + Total(actions)
      && s.lastUpdate == LastUpdate(opening, actions, roundEnd)
      && 0 <= s.balance <= MAX_USER_BALANCE_BASE_UNITS
      && opening.lastUpdate <= s.lastUpdate <= roundEnd
      && 0 <= s.cumulativeTwab <= MAX_USER_BALANCE_BASE_UNITS * (s.lastUpdate - opening.lastUpdate)
  {
    if actions != [] {
      var front, a := actions[..|actions| - 1], actions[|actions| - 1];
      NoLockedBoundTrips(opening, front, roundEnd);
      var before := UpdateAll(opening, front, roundEnd);
      if before.Ok? {
        StepBounds(opening, before.value, a, roundEnd);
      }
    }
  }

  lemma StepBounds(opening: TwabState, s: TwabState, a: BalanceAction, roundEnd: int)
    requires RoundStart(opening, roundEnd)
    requires 0 <= s.balance <= MAX_USER_BALANCE_BASE_UNITS
    requires opening.lastUpdate <= s.lastUpdate <= roundEnd
    requires 0 <= s.cumulativeTwab <= MAX_USER_BALANCE_BASE_UNITS * (s.lastUpdate - opening.lastUpdate)
    ensures var u := UpdateTwabBeforeBalanceMutation(s, a.timestamp, roundEnd, s.balance + a.delta);
      && (u.Ok? <==>
            0 <= s.balance + a.delta <= MAX_USER_BALANCE_BASE_UNITS && s.lastUpdate <= Clamped(a.timestamp, roundEnd))
      && (u.Ok? ==> 0 <= u.value.cumulativeTwab
                 <= MAX_USER_BALANCE_BASE_UNITS * (u.value.effectiveTime - opening.lastUpdate))
  {
    var now := Clamped(a.timestamp, roundEnd);
    if s.lastUpdate <= now {
      ProductWithin(s.balance, MAX_USER_BALANCE_BASE_UNITS, now - s.lastUpdate, MAX_ROUND_DURATION_SECONDS);
    }
  }

  /** After the round has closed an update adds nothing. */
  lemma PostCloseUpdateAddsZero(s: TwabState, t: int, roundEnd: int, nextBalance: int)
    requires s.lastUpdate == roundEnd <= t
    ensures var u := UpdateTwabBeforeBalanceMutation(s, t, roundEnd, nextBalance);
      u.Ok? ==> u.value == TwabUpdate(nextBalance, s.cumulativeTwab, roundEnd, 0, 0)
  {
    assert s.balance * 0 == 0;
  }

  /** The state has accrued exactly the integral of `h` since `opensAt`, and holds its final balance. */
  ghost predicate Accrues(s: TwabState, h: seq<BalanceAction>, opensAt: int, roundEnd: int) {
    && s.cumulativeTwab == Accrued(h, s.lastUpdate) - Accrued(h, opensAt)
    && s.balance == Total(h)
    && (s.lastUpdate == roundEnd || forall i :: 0 <= i < |h| ==> h[i].timestamp <= s.lastUpdate)
  }

  /** The incremental sum is the integral over the part of the round that has been accrued. */
  lemma {:induction false} IncrementalIsAccrued(
      earlier: seq<BalanceAction>, opening: TwabState, actions: seq<BalanceAction>, roundEnd: int)
    requires RoundStart(opening, roundEnd) && opening.balance == Total(earlier)
    requires forall i :: 0 <= i < |earlier| ==> earlier[i].timestamp <= opening.lastUpdate
    requires InOrderWithinCap(opening, actions, roundEnd)
    ensures UpdateAll(opening, actions, roundEnd).Ok?
    ensures Accrues(UpdateAll(opening, actions, roundEnd).value, earlier + actions, opening.lastUpdate, roundEnd)
  {
    NoLockedBoundTrips(opening, actions, roundEnd);
    if actions == [] {
      assert earlier + actions == earlier;
    } else {
      var front, a := actions[..|actions| - 1], actions[|actions| - 1];
      IncrementalIsAccrued(earlier, opening, front, roundEnd);
      NoLockedBoundTrips(opening, front, roundEnd);
      assert earlier + actions == (earlier + front) + [a];
      LastFollows(opening, actions, roundEnd);
      IncrementalStep(earlier + front, opening, UpdateAll(opening, front, roundEnd).value, a, roundEnd);
    }
  }

  /** The state after an accepted update. */
  function Following(s: TwabState, a: BalanceAction, roundEnd: int): TwabState {
    var now := Clamped(a.timestamp, roundEnd);
    TwabState(s.balance + a.delta, s.cumulativeTwab + s.balance * (now - s.lastUpdate), now)
  }

  lemma UpdateFollows(s: TwabState, a: BalanceAction, roundEnd: int)
    ensures var u := UpdateTwabBeforeBalanceMutation(s, a.timestamp, roundEnd, s.balance + a.delta);
      u.Ok? ==> Next(u.value) == Following(s, a, roundEnd) && s.lastUpdate <= Clamped(a.timestamp, roundEnd)
  {
  }

  lemma LastFollows(opening: TwabState, actions: seq<BalanceAction>, roundEnd: int)
    requires actions != [] && UpdateAll(opening, actions, roundEnd).Ok?
    ensures var before, a := UpdateAll(opening, actions[..|actions| - 1], roundEnd), actions[|actions| - 1];
      && before.Ok? && before.value.lastUpdate <= Clamped(a.timestamp, roundEnd)
      && UpdateAll(opening, actions, roundEnd).value == Following(before.value, a, roundEnd)
  {
    var before, a := UpdateAll(opening, actions[..|actions| - 1], roundEnd), actions[|actions| - 1];
    if before.Ok? {
      UpdateFollows(before.value, a, roundEnd);
    }
  }

  /** Which updates are accepted: balances within the cap, times in order and not negative, and neither the elapsed time nor
      the cumulative value beyond its bound. What an accepted one reports: time moves forward by `elapsed`, at most to the
      end of the round, and the cumulative value rises by `weightedDelta`, the old balance over that time. */
  lemma UpdateReports(s: TwabState, t: int, roundEnd: int, nextBalance: int)
    ensures var elapsed := Clamped(t, roundEnd) - s.lastUpdate;
      UpdateTwabBeforeBalanceMutation(s, t, roundEnd, nextBalance).Ok?
      <==> 0 <= s.balance <= MAX_USER_BALANCE_BASE_UNITS && 0 <= nextBalance <= MAX_USER_BALANCE_BASE_UNITS
           && 0 <= t && 0 <= roundEnd && 0 <= s.lastUpdate && 0 <= elapsed <= MAX_ROUND_DURATION_SECONDS
           && 0 <= s.cumulativeTwab && s.cumulativeTwab + s.balance * elapsed <= MAX_USER_TWAB
    ensures UpdateTwabBeforeBalanceMutation(s, t, roundEnd, nextBalance).Ok? ==>
      var u := UpdateTwabBeforeBalanceMutation(s, t, roundEnd, nextBalance).value;
      && u.balance == nextBalance
      && u.effectiveTime == s.lastUpdate + u.elapsed <= roundEnd && 0 <= u.elapsed <= MAX_ROUND_DURATION_SECONDS
      && (u.effectiveTime == t || u.effectiveTime == roundEnd < t)
      && u.weightedDelta == s.balance * u.elapsed
      && u.cumulativeTwab == s.cumulativeTwab + u.weightedDelta <= MAX_USER_TWAB
  {
    var elapsed := Clamped(t, roundEnd) - s.lastUpdate;
    if 0 <= s.balance <= MAX_USER_BALANCE_BASE_UNITS && 0 <= elapsed <= MAX_ROUND_DURATION_SECONDS {
      ProductWithin(s.balance, MAX_USER_BALANCE_BASE_UNITS, elapsed, MAX_ROUND_DURATION_SECONDS);
    }
  }

  lemma {:induction false} IncrementalStep(
      h: seq<BalanceAction>, opening: TwabState, s: TwabState, a: BalanceAction, roundEnd: int)
    requires opening.lastUpdate <= s.lastUpdate <= Clamped(a.timestamp, roundEnd)
    requires Accrues(s, h, opening.lastUpdate, roundEnd)
    ensures Accrues(Following(s, a, roundEnd), h + [a], opening.lastUpdate, roundEnd)
  {
    var now := Clamped(a.timestamp, roundEnd);
    AccruedAppend(h, a, now);
    AccruedAppend(h, a, opening.lastUpdate);
    NoContribution(a.timestamp, a.delta, now);
    NoContribution(a.timestamp, a.delta, opening.lastUpdate);
    AccruedSince(h, s, now);
  }

  lemma NoContribution(timestamp: int, delta: int, t: int)
    requires t <= timestamp
    ensures Contribution(timestamp, delta, t) == 0
  {
    assert delta * 0 == 0;
  }

  lemma AccruedSince(h: seq<BalanceAction>, s: TwabState, now: int)
    requires s.balance == Total(h) && s.lastUpdate <= now
    requires s.lastUpdate == now || forall i :: 0 <= i < |h| ==> h[i].timestamp <= s.lastUpdate
    ensures Accrued(h, now) == Accrued(h, s.lastUpdate) + s.balance * (now - s.lastUpdate)
  {
    if s.lastUpdate < now {
      AccruedIsLinearAfter(h, s.lastUpdate, now);
    }
  }

  /** Incremental refines historical: on a faithful ledger, accruing a user's actions of the round, the last of them at
      or after its close, yields exactly the ledger's weight. */
  lemma {:induction false} IncrementalRefinesLedger(
      b: Books, v: VaultId, a: Account,
      earlier: seq<BalanceAction>, actions: seq<BalanceAction>, opensAt: int, closesAt: int)
    requires Faithful(b) && Select(b.accountPosts, v, a) == earlier + actions
    requires forall i :: 0 <= i < |earlier| ==> earlier[i].timestamp <= opensAt
    requires RoundStart(TwabState(Total(earlier), 0, opensAt), closesAt)
    requires InOrderWithinCap(TwabState(Total(earlier), 0, opensAt), actions, closesAt)
    requires actions != [] && closesAt <= actions[|actions| - 1].timestamp
    ensures UpdateAll(TwabState(Total(earlier), 0, opensAt), actions, closesAt).Ok?
    ensures UpdateAll(TwabState(Total(earlier), 0, opensAt), actions, closesAt).value.cumulativeTwab
         == b.ledger.Weight(v, a, opensAt, closesAt)
  {
    var opening := TwabState(Total(earlier), 0, opensAt);
    NoLockedBoundTrips(opening, actions, closesAt);
    IncrementalIsAccrued(earlier, opening, actions, closesAt);
    assert Represents(b.ledger.AccountLog(v, a), earlier + actions);
  }

  /** With the pool within its cap throughout the round, the aggregate weight is at most cap times duration, and so is
      the sum of the weights of any number of participants. */
  lemma {:induction false} AggregateWithinCap(
      b: Books, v: VaultId, accounts: seq<Account>, opensAt: int, closesAt: int)
    requires Aligned(b) && Lists(accounts, b.ledger, v)
    requires opensAt <= closesAt <= opensAt + MAX_ROUND_DURATION_SECONDS
    requires forall u :: opensAt <= u < closesAt ==> BalanceAt(SelectVault(b.totalPosts, v), u) <= MAX_POOL_BASE_UNITS
    ensures 0 <= SumWeight(b.ledger, v, accounts, opensAt, closesAt)
    ensures SumWeight(b.ledger, v, accounts, opensAt, closesAt) == b.ledger.AggregateWeight(v, opensAt, closesAt)
         <= MAX_POOL_BASE_UNITS * (closesAt - opensAt) <= MAX_AGGREGATE_TWAB
  {
    VaultIsSumOfAccounts(b, v, accounts, opensAt, closesAt);
    var h := SelectVault(b.totalPosts, v);
    assert Represents(b.ledger.TotalLog(v), h) && Sound(b.ledger.TotalLog(v));
    BalanceTimeIsAccrued(h, opensAt, closesAt);
    BalanceTimeWithinCap(h, opensAt, closesAt, MAX_POOL_BASE_UNITS);
    ProductWithin(MAX_POOL_BASE_UNITS, MAX_POOL_BASE_UNITS, closesAt - opensAt, MAX_ROUND_DURATION_SECONDS);
  }
}
