/** Where the ledger's books stop reconciling: exactly which calls do it, and by how much. */
module TwabGaps {
  import opened Outcomes
  import opened TwabHistory
  import opened Checkpoints
  import opened TwabModel
  import opened TwabRuns
  import opened TwabOrder

  // ----- the gap between the accounts and the vault total -----

  /** What the accounts of a vault were posted beyond its total. */
  function BalanceGap(b: Books, v: VaultId): int {
    Total(SelectVault(b.accountPosts, v)) - Total(SelectVault(b.totalPosts, v))
  }

  /** The same, integrated up to `t`. */
  function CumulativeGap(b: Books, v: VaultId, t: int): int {
    Accrued(SelectVault(b.accountPosts, v), t) - Accrued(SelectVault(b.totalPosts, v), t)
  }

  lemma {:induction false} GapOfBooks(b: Books, v: VaultId, accounts: seq<Account>, opensAt: int, closesAt: int)
    requires Faithful(b) && Lists(accounts, b.ledger, v)
    ensures SumBalance(b.ledger, v, accounts) - b.ledger.TotalBalance(v) == BalanceGap(b, v)
    ensures SumWeight(b.ledger, v, accounts, opensAt, closesAt) - b.ledger.AggregateWeight(v, opensAt, closesAt)
         == CumulativeGap(b, v, closesAt) - CumulativeGap(b, v, opensAt)
  {
    SumsReadTheLedger(b, v, accounts, opensAt, closesAt);
    SumsOverVault(b.accountPosts, v, accounts, opensAt);
    SumsOverVault(b.accountPosts, v, accounts, closesAt);
    assert Represents(b.ledger.TotalLog(v), SelectVault(b.totalPosts, v));
  }

  /** On every run, throwing calls included: the balances of all accounts exceed the vault total, and their weights the
      aggregate weight, by exactly what was posted to the accounts and not to the total. */
  lemma {:induction false} GapOnEveryRun(
      actions: seq<Action>, v: VaultId, accounts: seq<Account>, opensAt: int, closesAt: int)
    requires Lists(accounts, Run(actions).ledger, v)
    ensures var b := Run(actions);
      && SumBalance(b.ledger, v, accounts) - b.ledger.TotalBalance(v) == BalanceGap(b, v)
      && SumWeight(b.ledger, v, accounts, opensAt, closesAt) - b.ledger.AggregateWeight(v, opensAt, closesAt)
         == CumulativeGap(b, v, closesAt) - CumulativeGap(b, v, opensAt)
  {
    RunIsFaithful(actions);
    GapOfBooks(Run(actions), v, accounts, opensAt, closesAt);
  }

  /** A posting widens the gap of its vault exactly if it is half committed. */
  lemma {:induction false} PostGap(b: Books, p: Posting, v: VaultId, t: int)
    ensures var stranded := HalfCommits(b.ledger, p) && p.vault == v;
      && BalanceGap(Post(b, p), v) == BalanceGap(b, v) + (if stranded then p.delta else 0)
      && CumulativeGap(Post(b, p), v, t)
         == CumulativeGap(b, v, t) + (if stranded then Contribution(p.timestamp, p.delta, t) else 0)
  {
    var a := BalanceAction(p.timestamp, p.delta);
    SelectAppend(b.accountPosts, p, v, p.account);
    SelectAppend(b.totalPosts, p, v, p.account);
    AccruedAppend(SelectVault(b.accountPosts, v), a, t);
    AccruedAppend(SelectVault(b.totalPosts, v), a, t);
    assert Change(b.ledger, p).outcome.Done? ==> AccountRefusal(b.ledger, p).Done?;
  }

  // ----- which actions do it -----

  /** The action passes its guards and its account accepts it, but a vault total it touches does not: for the vault's
      balance, or because the total is newer than the action. */
  predicate LeavesTotalBehind(s: Ledger, action: Action) {
    Admissible(s, action) &&
    match action
    case Deposit(v, a, _, t) =>
      !Older(s.AccountLog(v, a), t) && Older(s.TotalLog(v), t)
    case Withdraw(v, a, amount, t) =>
      !Older(s.AccountLog(v, a), t) && (s.TotalBalance(v) < amount || Older(s.TotalLog(v), t))
    case Move(source, destination, a, amount, t) =>
      !Older(s.AccountLog(source, a), t) &&
      (s.TotalBalance(source) < amount || Older(s.TotalLog(source), t)
       || (!Older(s.AccountLog(destination, a), t) && Older(s.TotalLog(destination), t)))
  }

  /** The posting of an action that is half committed; there is at most one, as the call throws there. */
  function Stranded(s: Ledger, action: Action): Option<Posting> {
    var ps := Attempts(s, action);
    if |ps| == 1 then if HalfCommits(s, ps[0]) then Some(ps[0]) else None
    else if |ps| == 2 then if HalfCommits(Change(s, ps[0]).ledger, ps[1]) then Some(ps[1]) else None
    else None
  }

  /** The gaps of `b'` are those of `b`, widened by the posting if there is one in this vault. */
  predicate WidenedAt(b: Books, b': Books, p: Option<Posting>, v: VaultId, t: int) {
    var here := p.Some? && p.value.vault == v;
    && BalanceGap(b', v) == BalanceGap(b, v) + (if here then p.value.delta else 0)
    && CumulativeGap(b', v, t)
       == CumulativeGap(b, v, t) + (if here then Contribution(p.value.timestamp, p.value.delta, t) else 0)
  }

  lemma {:induction false} SingleGap(b: Books, p: Posting, v: VaultId, t: int)
    ensures WidenedAt(b, PostAll(b, [p]), if HalfCommits(b.ledger, p) then Some(p) else None, v, t)
  {
    PostOne(b, p);
    PostGap(b, p, v, t);
  }

  lemma {:induction false} PairGap(b: Books, p: Posting, q: Posting, v: VaultId, t: int)
    requires Change(b.ledger, p).outcome.Done?
    ensures WidenedAt(b, PostAll(b, [p, q]), if HalfCommits(Change(b.ledger, p).ledger, q) then Some(q) else None, v, t)
  {
    PostWhenDone(b, p);
    PostPair(b, p, q);
    PostGap(b, p, v, t);
    PostGap(Post(b, p), q, v, t);
  }

  lemma {:induction false} StrandedGap(b: Books, action: Action, v: VaultId, t: int)
    ensures WidenedAt(b, PostAll(b, Attempts(b.ledger, action)), Stranded(b.ledger, action), v, t)
  {
    var ps := Attempts(b.ledger, action);
    if |ps| == 0 {
      assert ps == [];
    } else if |ps| == 1 {
      assert ps == [ps[0]];
      SingleGap(b, ps[0], v, t);
    } else {
      assert ps == [ps[0], ps[1]];
      PairGap(b, ps[0], ps[1], v, t);
    }
  }

  /** When a posting is half committed, in terms of the ledger before it. */
  lemma HalfCommitsIff(s: Ledger, p: Posting)
    ensures HalfCommits(s, p) <==>
      && 0 <= s.Balance(p.vault, p.account) + p.delta && !Older(s.AccountLog(p.vault, p.account), p.timestamp)
      && (s.TotalBalance(p.vault) + p.delta < 0 || Older(s.TotalLog(p.vault), p.timestamp))
  {
    if AccountRefusal(s, p).Done? {
      assert WithAccount(s, p).TotalLog(p.vault) == s.TotalLog(p.vault);
    }
  }

  lemma SingleStranded(s: Ledger, action: Action)
    requires s.Valid() && !action.Move?
    ensures Stranded(s, action).Some? <==> LeavesTotalBehind(s, action)
  {
    var p := Intended(action)[0];
    HalfCommitsIff(s, p);
    assert Sound(s.AccountLog(p.vault, p.account)) && Sound(s.TotalLog(p.vault));
    assert Attempts(s, action) == if Admissible(s, action) then [p] else [];
  }

  lemma MoveStranded(s: Ledger, source: VaultId, destination: VaultId, a: Account, amount: int, t: int)
    requires s.Valid() && Admissible(s, Move(source, destination, a, amount, t))
    ensures Stranded(s, Move(source, destination, a, amount, t)).Some?
       <==> LeavesTotalBehind(s, Move(source, destination, a, amount, t))
  {
    var p, q := Posting(source, a, -amount, t), Posting(destination, a, amount, t);
    HalfCommitsIff(s, p);
    if Change(s, p).outcome.Done? {
      var taken := Change(s, p).ledger;
      MoveAttempts(s, source, destination, a, amount, t);
      HalfCommitsIff(taken, q);
      PostedLogs(s, p, destination, a);
      assert Sound(s.AccountLog(destination, a)) && Sound(s.TotalLog(destination));
    } else {
      assert Attempts(s, Move(source, destination, a, amount, t)) == [p];
    }
  }

  lemma {:induction false} StrandedIff(s: Ledger, action: Action)
    requires s.Valid()
    ensures Stranded(s, action).Some? <==> LeavesTotalBehind(s, action)
    ensures Stranded(s, action).Some? ==> Stranded(s, action).value.delta != 0
  {
    if !action.Move? {
      SingleStranded(s, action);
    } else if Admissible(s, action) {
      MoveStranded(s, action.source, action.destination, action.account, action.amount, action.timestamp);
    } else {
      assert Attempts(s, action) == [];
    }
  }

  ghost predicate SameBalanceGaps(b: Books, b': Books) {
    forall v: VaultId :: BalanceGap(b', v) == BalanceGap(b, v)
  }

  ghost predicate SameCumulativeGaps(b: Books, b': Books) {
    forall v: VaultId, t: int :: CumulativeGap(b', v, t) == CumulativeGap(b, v, t)
  }

  /** Widening by a non-zero posting shows in the balances, and in the cumulative values a second later. */
  lemma {:induction false} SameGapsIff(b: Books, b': Books, p: Option<Posting>)
    requires forall v: VaultId, t: int :: WidenedAt(b, b', p, v, t)
    requires p.Some? ==> p.value.delta != 0
    ensures SameBalanceGaps(b, b') <==> p.None?
    ensures SameCumulativeGaps(b, b') <==> p.None?
  {
    if p.Some? {
      var v, t := p.value.vault, p.value.timestamp + 1;
      assert WidenedAt(b, b', p, v, t);
      assert BalanceGap(b', v) != BalanceGap(b, v);
      assert CumulativeGap(b', v, t) != CumulativeGap(b, v, t);
    } else {
      forall v: VaultId, t: int
        ensures BalanceGap(b', v) == BalanceGap(b, v) && CumulativeGap(b', v, t) == CumulativeGap(b, v, t)
      {
        assert WidenedAt(b, b', p, v, t);
      }
      assert SameBalanceGaps(b, b') by {
        forall v: VaultId ensures BalanceGap(b', v) == BalanceGap(b, v) {
          assert WidenedAt(b, b', p, v, 0);
        }
      }
    }
  }

  /** The exact condition, for every action on every reachable ledger: it changes how far the balances, or the cumulative
      values, of the accounts are from their vault total iff it leaves a total behind. */
  lemma {:induction false} ReconcilesUnlessTotalIsLeftBehind(b: Books, action: Action)
    requires Faithful(b)
    ensures var b' := PostAll(b, Attempts(b.ledger, action));
      && (SameBalanceGaps(b, b') <==> !LeavesTotalBehind(b.ledger, action))
      && (SameCumulativeGaps(b, b') <==> !LeavesTotalBehind(b.ledger, action))
  {
    StrandedIff(b.ledger, action);
    var b', p := PostAll(b, Attempts(b.ledger, action)), Stranded(b.ledger, action);
    forall v: VaultId, t: int ensures WidenedAt(b, b', p, v, t) {
      StrandedGap(b, action, v, t);
    }
    SameGapsIff(b, b', p);
  }

  /** Balances and weights of all accounts sum to those of their vaults. */
  ghost predicate Reconciled(b: Books) {
    && (forall v: VaultId :: BalanceGap(b, v) == 0)
    && (forall v: VaultId, t: int :: CumulativeGap(b, v, t) == 0)
  }

  ghost predicate AlwaysReconciled(actions: seq<Action>) {
    Reconciled(Run(actions)) && (actions != [] ==> AlwaysReconciled(actions[..|actions| - 1]))
  }

  predicate NeverLeavesTotalBehind(actions: seq<Action>) {
    actions == [] ||
    (var front := actions[..|actions| - 1];
     NeverLeavesTotalBehind(front) && !LeavesTotalBehind(Run(front).ledger, actions[|actions| - 1]))
  }

  /** A run reconciles at every point iff none of its actions leaves a total behind. */
  lemma {:induction false} RunReconcilesUnlessTotalIsLeftBehind(actions: seq<Action>)
    ensures AlwaysReconciled(actions) <==> NeverLeavesTotalBehind(actions)
  {
    if actions != [] {
      var front, action := actions[..|actions| - 1], actions[|actions| - 1];
      var b := Run(front);
      RunReconcilesUnlessTotalIsLeftBehind(front);
      RunIsFaithful(front);
      ReconcilesUnlessTotalIsLeftBehind(b, action);
      if Reconciled(b) {
        GapsFromZero(b, Run(actions));
      }
      assert AlwaysReconciled(front) ==> Reconciled(b);
    }
  }

  lemma GapsFromZero(b: Books, b': Books)
    requires Reconciled(b)
    ensures Reconciled(b') <==> SameBalanceGaps(b, b') && SameCumulativeGaps(b, b')
  {
  }

  /** "negative aggregate" is thrown exactly when the account covers the posting and the vault total does not; the vault's
      accounts then already hold more than its total. */
  lemma {:induction false} NegativeAggregateNeedsGap(b: Books, p: Posting)
    requires Faithful(b)
    ensures Change(b.ledger, p).outcome == Thrown("negative aggregate")
       <==> AccountRefusal(b.ledger, p).Done? && b.ledger.TotalBalance(p.vault) + p.delta < 0
    ensures AccountRefusal(b.ledger, p).Done? && b.ledger.TotalBalance(p.vault) + p.delta < 0
       ==> 0 < BalanceGap(b, p.vault)
  {
    if AccountRefusal(b.ledger, p).Done? {
      assert WithAccount(b.ledger, p).TotalLog(p.vault) == b.ledger.TotalLog(p.vault);
      var accounts := ListAccounts(b.ledger, p.vault);
      GapOfBooks(b, p.vault, accounts, 0, 0);
      BalanceWithinSum(b.ledger, p.vault, accounts, p.account);
    }
    assert |"negative aggregate"| != |"actions must be chronological"|;
    assert |"negative balance"| != |"negative aggregate"|;
  }

  // ----- runs on which it happens -----

  lemma {:induction false} RunOfTwo(first: Action, second: Action)
    ensures Run([first, second]).ledger == Apply(Apply(EMPTY, first).ledger, second).ledger
  {
    RunFollowsApply([], first);
    RunFollowsApply([first], second);
    assert [] + [first] == [first] && [first] + [second] == [first, second];
  }

  /** A posting changes one balance, and only if the account accepts it. */
  lemma {:induction false} ChangeBalance(s: Ledger, p: Posting, v: VaultId, a: Account)
    ensures Change(s, p).ledger.Balance(v, a)
         == s.Balance(v, a) + if p.vault == v && p.account == a && AccountRefusal(s, p).Done? then p.delta else 0
    ensures !(p.vault == v && p.account == a) ==> Change(s, p).ledger.AccountLog(v, a) == s.AccountLog(v, a)
  {
  }

  function LateDeposit(): Ledger {
    Run([Deposit(1, "bob", 7, 10), Deposit(1, "alice", 5, 4)]).ledger
  }

  lemma AfterLateDeposit()
    ensures var s := LateDeposit();
      && s.AccountLog(1, "bob") == [Checkpoint(10, 7, 0)] && s.AccountLog(1, "alice") == [Checkpoint(4, 5, 0)]
      && s.TotalLog(1) == [Checkpoint(10, 7, 0)]
  {
    RunOfTwo(Deposit(1, "bob", 7, 10), Deposit(1, "alice", 5, 4));
  }

  /** A run that ends with the accounts holding more than the vault total. */
  lemma LateDepositBreaksAdditivity()
    ensures SumBalance(LateDeposit(), 1, ["alice", "bob"]) == 12 && LateDeposit().TotalBalance(1) == 7
  {
    AfterLateDeposit();
    assert ["alice", "bob"][1..] == ["bob"] && ["bob"][1..] == [];
  }

  lemma BobLeaves()
    ensures var s := Apply(LateDeposit(), Withdraw(1, "bob", 7, 11)).ledger;
      && s.AccountLog(1, "alice") == [Checkpoint(4, 5, 0)]
      && s.TotalBalance(1) == 0
  {
    AfterLateDeposit();
  }

  /** The same run, once bob has left: alice cannot withdraw what she holds. */
  lemma LateDepositCannotBeWithdrawn()
    ensures var s := Run([Deposit(1, "bob", 7, 10), Deposit(1, "alice", 5, 4), Withdraw(1, "bob", 7, 11)]).ledger;
      && s.Balance(1, "alice") == 5
      && Apply(s, Withdraw(1, "alice", 5, 12)).outcome == Thrown("negative aggregate")
  {
    var first, second, third := Deposit(1, "bob", 7, 10), Deposit(1, "alice", 5, 4), Withdraw(1, "bob", 7, 11);
    RunFollowsApply([first, second], third);
    assert [first, second] + [third] == [first, second, third];
    BobLeaves();
    var s := Run([first, second, third]).ledger;
    assert s.AccountLog(1, "alice") == [Checkpoint(4, 5, 0)] && s.TotalBalance(1) == 0;
    RunIsFaithful([first, second, third]);
    NegativeAggregateNeedsGap(Run([first, second, third]), Posting(1, "alice", -5, 12));
  }

  // ----- moves -----

  /** What the account holds in the two vaults of a move. */
  function Holdings(s: Ledger, source: VaultId, destination: VaultId, a: Account): int {
    s.Balance(source, a) + s.Balance(destination, a)
  }

  /** The exact condition, for every move on every reachable ledger: it conserves what the account holds iff its guards or
      the account's source array refuse it at once, or nothing after that does: neither the source total nor the
      account's destination array. The withdrawal is never undone. */
  lemma {:induction false} MoveConservesIff(
      s: Ledger, source: VaultId, destination: VaultId, a: Account, amount: int, t: int)
    requires s.Valid()
    ensures var move := Move(source, destination, a, amount, t);
      Holdings(Apply(s, move).ledger, source, destination, a) == Holdings(s, source, destination, a)
      <==> (!Admissible(s, move) || Older(s.AccountLog(source, a), t)
            || (amount <= s.TotalBalance(source) && !Older(s.TotalLog(source), t)
                && !Older(s.AccountLog(destination, a), t)))
  {
    var p, q := Posting(source, a, -amount, t), Posting(destination, a, amount, t);
    var taken := Change(s, p).ledger;
    if Admissible(s, Move(source, destination, a, amount, t)) {
      HalfCommitsIff(s, p);
      ChangeBalance(s, p, source, a);
      ChangeBalance(s, p, destination, a);
      ChangeBalance(taken, q, source, a);
      ChangeBalance(taken, q, destination, a);
      assert Sound(s.AccountLog(destination, a));
      assert AccountRefusal(taken, q).Done? <==> !Older(s.AccountLog(destination, a), t);
      if Change(s, p).outcome.Done? {
        MoveAttempts(s, source, destination, a, amount, t);
      }
    }
  }

  /** A move refused by the newer total of its source vault: the withdrawal stays half committed. */
  lemma MoveLosesAtTheSource()
    ensures var s := Run([Deposit(1, "alice", 5, 1), Deposit(1, "bob", 7, 10)]).ledger;
      && Holdings(s, 1, 2, "alice") == 5
      && Holdings(Apply(s, Move(1, 2, "alice", 3, 4)).ledger, 1, 2, "alice") == 2
  {
    RunOfTwo(Deposit(1, "alice", 5, 1), Deposit(1, "bob", 7, 10));
    var s := Run([Deposit(1, "alice", 5, 1), Deposit(1, "bob", 7, 10)]).ledger;
    assert s.Balance(1, "alice") == 5 && s.Balance(2, "alice") == 0;
    assert Older(s.TotalLog(1), 4);
    var p := Posting(1, "alice", -3, 4);
    HalfCommitsIff(s, p);
    ChangeBalance(s, p, 1, "alice");
    ChangeBalance(s, p, 2, "alice");
  }

  /** A move refused by the newer destination array of its own account: the withdrawal is committed, the deposit is not. */
  lemma MoveLosesAtTheDestination()
    ensures var s := Run([Deposit(1, "alice", 5, 1), Deposit(2, "alice", 1, 10)]).ledger;
      && Holdings(s, 1, 2, "alice") == 6
      && Holdings(Apply(s, Move(1, 2, "alice", 3, 4)).ledger, 1, 2, "alice") == 3
  {
    RunOfTwo(Deposit(1, "alice", 5, 1), Deposit(2, "alice", 1, 10));
    var s := Run([Deposit(1, "alice", 5, 1), Deposit(2, "alice", 1, 10)]).ledger;
    assert s.Balance(1, "alice") == 5 && s.Balance(2, "alice") == 1;
    var p, q := Posting(1, "alice", -3, 4), Posting(2, "alice", 3, 4);
    HalfCommitsIff(s, p);
    assert Change(s, p).outcome.Done?;
    ChangeBalance(s, p, 1, "alice");
    ChangeBalance(s, p, 2, "alice");
    var taken := Change(s, p).ledger;
    assert Older(taken.AccountLog(2, "alice"), 4);
    ChangeBalance(taken, q, 1, "alice");
    ChangeBalance(taken, q, 2, "alice");
  }
}
