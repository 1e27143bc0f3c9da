/** Exact proportional fairness of the complete draw, and its end-to-end form on ledger weights. */
module DrawFairness {
  import opened Weights
  import opened Rejection
  import opened Settlement
  import opened TwabHistory
  import opened Checkpoints
  import opened TwabModel
  import opened TwabRuns
  import opened TwabOrder
  import opened IncrementalTwab

  /** On this candidate the draw succeeds and participant `i` wins. */
  predicate WinsOn(ps: seq<DrawParticipant>, i: int, candidate: int, prize: int, timestamp: int, principalCap: int) {
    var r := CompletePrivateDraw(ps, candidate, prize, timestamp, principalCap);
    r.Ok? && r.value.settlement.winnerIndex == i
  }

  ghost function WinningCandidates(
      ps: seq<DrawParticipant>, i: int, prize: int, timestamp: int, principalCap: int): set<int>
  {
    set c: int | 0 <= c < UINT128_DOMAIN && WinsOn(ps, i, c, prize, timestamp, principalCap)
  }

  ghost function FailingCandidates(
      ps: seq<DrawParticipant>, prize: int, timestamp: int, principalCap: int): set<int>
  {
    set c: int | 0 <= c < UINT128_DOMAIN && CompletePrivateDraw(ps, c, prize, timestamp, principalCap).Err?
  }

  /** The outcome of a draw by the position of its candidate. */
  lemma {:induction false} OutcomeOf(
      ps: seq<DrawParticipant>, i: nat, c: int, prize: int, timestamp: int, principalCap: int)
    requires NonNegative(WeightsOf(ps)) && 0 < Sum(WeightsOf(ps)) < UINT128_DOMAIN && 0 <= prize && i < |ps|
    requires 0 <= c < UINT128_DOMAIN
    ensures var ws, total := WeightsOf(ps), Sum(WeightsOf(ps));
      && (CompletePrivateDraw(ps, c, prize, timestamp, principalCap).Ok? <==> c < UINT128_DOMAIN / total * total)
      && (WinsOn(ps, i, c, prize, timestamp, principalCap)
          <==> c < UINT128_DOMAIN / total * total && Sum(ws[..i]) <= c % total < Sum(ws[..i + 1]))
  {
    var total := Sum(WeightsOf(ps));
    MapCandidateLaw(c, total);
    DivisionLaw(c, total);
    CrossingInterval(WeightsOf(ps), c % total, i);
  }

  /** Which inputs a complete draw refuses, whatever they are. */
  lemma {:induction false} DrawRefusals(
      ps: seq<DrawParticipant>, c: int, prize: int, timestamp: int, principalCap: int)
    ensures var total := Sum(WeightsOf(ps));
      CompletePrivateDraw(ps, c, prize, timestamp, principalCap).Ok?
      <==> 0 <= c < UINT128_DOMAIN && 0 < total < UINT128_DOMAIN && c < UINT128_DOMAIN / total * total
           && 0 <= prize && NonNegative(WeightsOf(ps))
  {
    var total := Sum(WeightsOf(ps));
    if 0 <= c < UINT128_DOMAIN && 0 < total < UINT128_DOMAIN {
      MapCandidateLaw(c, total);
      DivisionLaw(c, total);
    }
  }

  /** What a complete draw that goes through pays, in terms of its own arguments: the ticket is the residue of the candidate,
      its holder wins, and the settlement is of this prize, at this time, under this cap. */
  lemma {:induction false} DrawPays(
      ps: seq<DrawParticipant>, c: int, prize: int, timestamp: int, principalCap: int, i: nat)
    requires CompletePrivateDraw(ps, c, prize, timestamp, principalCap).Ok? && i < |ps|
    ensures var r, total := CompletePrivateDraw(ps, c, prize, timestamp, principalCap).value, Sum(WeightsOf(ps));
      && r.candidate == c && r.candidateValid && 0 < total && r.acceptedTicket == c % total
      && |r.settlement.participants| == |ps|
      && Wins(ps, r.settlement, c % total, i)
      && PaysPrize(ps, r.settlement, prize, principalCap)
      && PaysRow(ps, r.settlement, timestamp, i)
  {
    DrawRefusals(ps, c, prize, timestamp, principalCap);
    MapCandidateLaw(c, Sum(WeightsOf(ps)));
    SettlementLaws(ps, c % Sum(WeightsOf(ps)), prize, timestamp, principalCap, i);
  }

  /** The headline count. Of the 2^128 candidates, participant `i` wins on exactly quotient times weight, and exactly
      2^128 mod T of them fail, whatever the prize, the time and the cap. */
  lemma {:induction false} ExactProportionalFairness(
      ps: seq<DrawParticipant>, i: nat, prize: int, timestamp: int, principalCap: int)
    requires NonNegative(WeightsOf(ps)) && 0 < Sum(WeightsOf(ps)) < UINT128_DOMAIN && 0 <= prize && i < |ps|
    ensures |WinningCandidates(ps, i, prize, timestamp, principalCap)|
         == UINT128_DOMAIN / Sum(WeightsOf(ps)) * ps[i].weight
    ensures |FailingCandidates(ps, prize, timestamp, principalCap)| == UINT128_DOMAIN % Sum(WeightsOf(ps))
  {
    var ws, total := WeightsOf(ps), Sum(WeightsOf(ps));
    var q := UINT128_DOMAIN / total;
    var low, high := Sum(ws[..i]), Sum(ws[..i + 1]);
    SumNext(ws, i);
    TotalOfPrefixes(ws, i);
    TotalOfPrefixes(ws, i + 1);
    LimitLaw(UINT128_DOMAIN, total);
    forall c: int | 0 <= c < UINT128_DOMAIN
      ensures CompletePrivateDraw(ps, c, prize, timestamp, principalCap).Ok? <==> c < q * total
      ensures WinsOn(ps, i, c, prize, timestamp, principalCap) <==> c < q * total && InWindow(c, total, low, high)
    {
      OutcomeOf(ps, i, c, prize, timestamp, principalCap);
    }
    WindowSize(q, 0, total, low, high);
    assert WinningCandidates(ps, i, prize, timestamp, principalCap) == Window(q * total + 0, total, low, high);
    RangeSize(q * total, UINT128_DOMAIN);
    assert FailingCandidates(ps, prize, timestamp, principalCap) == Range(q * total, UINT128_DOMAIN) by {
      assert forall c: int :: Between(q * total, c, UINT128_DOMAIN) <==> q * total <= c < UINT128_DOMAIN;
    }
  }

  // ----- the draw on the weights of the ledger -----

  /** The participants of a vault's round: one per account, weighing what the ledger says. */
  ghost predicate DrawsOn(
      ps: seq<DrawParticipant>, s: Ledger, v: VaultId, accounts: seq<Account>, opensAt: int, closesAt: int)
  {
    && |ps| == |accounts|
    && forall i :: 0 <= i < |ps| ==> ps[i].weight == s.Weight(v, accounts[i], opensAt, closesAt)
  }

  lemma {:induction false} DrawTotalIsLedgerTotal(
      ps: seq<DrawParticipant>, s: Ledger, v: VaultId, accounts: seq<Account>, opensAt: int, closesAt: int)
    requires DrawsOn(ps, s, v, accounts, opensAt, closesAt)
    ensures Sum(WeightsOf(ps)) == SumWeight(s, v, accounts, opensAt, closesAt)
  {
    if ps != [] {
      DrawTotalIsLedgerTotal(ps[1..], s, v, accounts[1..], opensAt, closesAt);
      assert WeightsOf(ps)[1..] == WeightsOf(ps[1..]);
    }
  }

  /** From deposits to winners. After any run that leaves the books aligned, as every chronological run and every run
      without throws does, and whose pool stays within its cap through the round, the draw over all accounts is within
      the ticket domain; if anything was held at all, account `accounts[i]` wins on exactly quotient times its balance
      integrated over the seconds of the round. */
  lemma {:induction false} SavingsDecideOdds(
      actions: seq<Action>, v: VaultId, accounts: seq<Account>, opensAt: int, closesAt: int,
      ps: seq<DrawParticipant>, i: nat, prize: int, timestamp: int, principalCap: int)
    requires Aligned(Run(actions)) && Lists(accounts, Run(actions).ledger, v)
    requires opensAt <= closesAt <= opensAt + MAX_ROUND_DURATION_SECONDS
    requires forall u :: opensAt <= u < closesAt ==>
      BalanceAt(SelectVault(Run(actions).accountPosts, v), u) <= MAX_POOL_BASE_UNITS
    requires DrawsOn(ps, Run(actions).ledger, v, accounts, opensAt, closesAt)
    requires i < |ps| && 0 <= prize
    requires BalanceTime(SelectVault(Run(actions).accountPosts, v), opensAt, closesAt) != 0
    ensures var posts := Run(actions).accountPosts;
      var pool := BalanceTime(SelectVault(posts, v), opensAt, closesAt);
      && 0 < pool == Sum(WeightsOf(ps)) <= MAX_AGGREGATE_TWAB < UINT128_DOMAIN
      && |WinningCandidates(ps, i, prize, timestamp, principalCap)|
         == UINT128_DOMAIN / pool * BalanceTime(Select(posts, v, accounts[i]), opensAt, closesAt)
  {
    AggregateWithinCap(Run(actions), v, accounts, opensAt, closesAt);
    DrawTotalIsLedgerTotal(ps, Run(actions).ledger, v, accounts, opensAt, closesAt);
    WeightIsBalanceTime(actions, v, accounts[i], opensAt, closesAt);
    AggregateFitsTicketWidth();
    LedgerWeightsNonNegative(ps, Run(actions).ledger, v, accounts, opensAt, closesAt);
    ExactProportionalFairness(ps, i, prize, timestamp, principalCap);
  }

  lemma LedgerWeightsNonNegative(
      ps: seq<DrawParticipant>, s: Ledger, v: VaultId, accounts: seq<Account>, opensAt: int, closesAt: int)
    requires s.Valid() && DrawsOn(ps, s, v, accounts, opensAt, closesAt) && opensAt <= closesAt
    ensures NonNegative(WeightsOf(ps))
  {
    forall i | 0 <= i < |ps| ensures 0 <= WeightsOf(ps)[i] {
      assert Sound(s.AccountLog(v, accounts[i]));
    }
  }
}
