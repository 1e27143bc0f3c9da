/** What the order of timestamps decides: closed history, half-committed calls, and additivity of chronological runs. */
module TwabOrder {
  import opened Outcomes
  import opened Checkpoints
  import opened TwabModel
  import opened TwabRuns

  // ----- closed history -----

  function ApplyAll(s: Ledger, actions: seq<Action>): Ledger {
    if actions == [] then s else Apply(ApplyAll(s, actions[..|actions| - 1]), actions[|actions| - 1]).ledger
  }

  predicate SamePast(s: Ledger, s': Ledger, t: int, v: VaultId, a: Account) {
    && s'.CumulativeAt(v, a, t) == s.CumulativeAt(v, a, t)
    && Interpolated(s'.TotalLog(v), t) == Interpolated(s.TotalLog(v), t)
  }

  lemma {:induction false} WithAccountKeepsPast(s: Ledger, p: Posting, t: int, v: VaultId, a: Account)
    requires Sorted(s.AccountLog(p.vault, p.account)) && t <= p.timestamp && AccountRefusal(s, p).Done?
    ensures SamePast(s, WithAccount(s, p), t, v, a)
  {
    WrittenKeepsPast(s.AccountLog(p.vault, p.account), s.Balance(p.vault, p.account) + p.delta, p.timestamp, t);
  }

  lemma {:induction false} WithTotalKeepsPast(s: Ledger, p: Posting, t: int, v: VaultId, a: Account)
    requires Sorted(s.TotalLog(p.vault)) && t <= p.timestamp && TotalRefusal(s, p).Done?
    ensures SamePast(s, WithTotal(s, p), t, v, a)
  {
    WrittenKeepsPast(s.TotalLog(p.vault), s.TotalBalance(p.vault) + p.delta, p.timestamp, t);
  }

  lemma {:induction false} ChangeKeepsPast(s: Ledger, p: Posting, t: int, v: VaultId, a: Account)
    requires Sorted(s.AccountLog(p.vault, p.account)) && Sorted(s.TotalLog(p.vault)) && t <= p.timestamp
    ensures SamePast(s, Change(s, p).ledger, t, v, a)
  {
    if AccountRefusal(s, p).Done? {
      WithAccountKeepsPast(s, p, t, v, a);
      var s' := WithAccount(s, p);
      if TotalRefusal(s', p).Done? {
        assert s'.TotalLog(p.vault) == s.TotalLog(p.vault);
        WithTotalKeepsPast(s', p, t, v, a);
      }
    }
  }

  lemma ValidIsSorted(s: Ledger, v: VaultId, a: Account)
    requires s.Valid()
    ensures Sorted(s.AccountLog(v, a)) && Sorted(s.TotalLog(v))
  {
    assert Sound(s.AccountLog(v, a)) && Sound(s.TotalLog(v));
  }

  /** No later action, accepted, refused or half committed, changes a weight that closed at or before it. */
  lemma {:induction false} ClosedHistoryIsImmutable(
      s: Ledger, actions: seq<Action>, v: VaultId, a: Account, opensAt: int, closesAt: int)
    requires s.Valid() && opensAt <= closesAt
    requires forall i :: 0 <= i < |actions| ==> closesAt <= actions[i].timestamp
    ensures ApplyAll(s, actions).Valid()
    ensures ApplyAll(s, actions).Weight(v, a, opensAt, closesAt) == s.Weight(v, a, opensAt, closesAt)
    ensures ApplyAll(s, actions).AggregateWeight(v, opensAt, closesAt) == s.AggregateWeight(v, opensAt, closesAt)
  {
    if actions != [] {
      var before, action := ApplyAll(s, actions[..|actions| - 1]), actions[|actions| - 1];
      ClosedHistoryIsImmutable(s, actions[..|actions| - 1], v, a, opensAt, closesAt);
      ApplyKeepsPast(before, action, opensAt, v, a);
      ApplyKeepsPast(before, action, closesAt, v, a);
    }
  }

  lemma {:induction false} PostingKeepsPast(s: Ledger, p: Posting, t: int, v: VaultId, a: Account)
    requires s.Valid() && t <= p.timestamp
    ensures Change(s, p).ledger.Valid() && SamePast(s, Change(s, p).ledger, t, v, a)
  {
    ChangeKeepsValid(s, p);
    ValidIsSorted(s, p.vault, p.account);
    ChangeKeepsPast(s, p, t, v, a);
  }

  lemma {:induction false} ApplyKeepsPast(s: Ledger, action: Action, t: int, v: VaultId, a: Account)
    requires s.Valid() && t <= action.timestamp
    ensures Apply(s, action).ledger.Valid() && SamePast(s, Apply(s, action).ledger, t, v, a)
  {
    var p := Intended(action)[0];
    var s' := Change(s, p).ledger;
    PostingKeepsPast(s, p, t, v, a);
    if action.Move? {
      var q := Intended(action)[1];
      PostingKeepsPast(s', q, t, v, a);
      assert Apply(s, action).ledger in {s, s', Change(s', q).ledger};
    } else {
      assert Apply(s, action).ledger in {s, s'};
    }
  }

  // ----- half-committed postings -----

  /** Account and total have received the same postings, and no account is ahead of its vault. */
  ghost predicate Aligned(b: Books) {
    && Faithful(b)
    && b.accountPosts == b.totalPosts
    && forall v: VaultId, a: Account :: NotAhead(b.ledger.AccountLog(v, a), b.ledger.TotalLog(v))
  }

  predicate NotAhead(cs: seq<Checkpoint>, total: seq<Checkpoint>) {
    cs != [] ==> total != [] && cs[|cs| - 1].timestamp <= total[|total| - 1].timestamp
  }

  /** The call throws, yet the account has already been written. */
  predicate HalfCommits(s: Ledger, p: Posting) {
    AccountRefusal(s, p).Done? && Change(s, p).outcome.Thrown?
  }

  lemma ListAccounts(s: Ledger, v: VaultId) returns (accounts: seq<Account>)
    ensures Lists(accounts, s, v)
  {
    var rest := set k | k in s.checkpoints :: k.1;
    accounts := [];
    while rest != {}
      invariant Distinct(accounts)
      invariant forall a :: a in accounts ==> a !in rest
      invariant forall a :: (v, a) in s.checkpoints ==> a in accounts || a in rest
      decreases rest
    {
      var a :| a in rest;
      accounts, rest := accounts + [a], rest - {a};
    }
    forall a | (v, a) in s.checkpoints ensures a in accounts {
      assert a !in rest;
    }
  }

  lemma {:induction false} BalanceWithinSum(s: Ledger, v: VaultId, accounts: seq<Account>, a: Account)
    requires s.Valid()
    ensures 0 <= SumBalance(s, v, accounts)
    ensures a in accounts ==> s.Balance(v, a) <= SumBalance(s, v, accounts)
  {
    if accounts != [] {
      BalanceWithinSum(s, v, accounts[1..], a);
      assert Sound(s.AccountLog(v, accounts[0]));
    }
  }

  /** With aligned books "negative aggregate" cannot be thrown: a withdrawal within the account's balance is within the
      vault's. */
  lemma {:induction false} NegativeAggregateIsUnreachable(b: Books, p: Posting)
    requires Aligned(b) && AccountRefusal(b.ledger, p).Done?
    ensures TotalRefusal(b.ledger, p) != Thrown("negative aggregate")
    ensures 0 <= b.ledger.TotalBalance(p.vault) + p.delta
  {
    var accounts := ListAccounts(b.ledger, p.vault);
    VaultIsSumOfAccounts(b, p.vault, accounts, 0, 0);
    BalanceWithinSum(b.ledger, p.vault, accounts, p.account);
  }

  /** With aligned books, the guard a caller can check beforehand: a posting is half committed iff only the vault total is
      too new for it. */
  lemma {:induction false} HalfCommitsWhenTotalIsNewer(b: Books, p: Posting)
    requires Aligned(b)
    ensures HalfCommits(b.ledger, p)
        <==> AccountRefusal(b.ledger, p).Done? && Older(b.ledger.TotalLog(p.vault), p.timestamp)
  {
    if AccountRefusal(b.ledger, p).Done? {
      NegativeAggregateIsUnreachable(b, p);
      assert WithAccount(b.ledger, p).TotalLog(p.vault) == b.ledger.TotalLog(p.vault);
    }
  }

  lemma {:induction false} PostedNotAhead(s: Ledger, p: Posting, v: VaultId, a: Account)
    requires Change(s, p).outcome.Done? && NotAhead(s.AccountLog(v, a), s.TotalLog(v))
    ensures NotAhead(Change(s, p).ledger.AccountLog(v, a), Change(s, p).ledger.TotalLog(v))
  {
    PostedLogs(s, p, v, a);
  }

  lemma {:induction false} PostKeepsAligned(b: Books, p: Posting)
    requires Aligned(b) && !HalfCommits(b.ledger, p)
    ensures Aligned(Post(b, p))
  {
    PostIsFaithful(b, p);
    if AccountRefusal(b.ledger, p).Done? {
      PostWhenDone(b, p);
      forall v: VaultId, a: Account
        ensures NotAhead(Post(b, p).ledger.AccountLog(v, a), Post(b, p).ledger.TotalLog(v))
      {
        PostedNotAhead(b.ledger, p, v, a);
      }
    } else {
      assert Post(b, p) == b;
    }
  }

  /** Where a completed posting leaves the newest timestamps. */
  lemma {:induction false} PostedLogs(s: Ledger, p: Posting, v: VaultId, a: Account)
    requires Change(s, p).outcome.Done?
    ensures var s' := Change(s, p).ledger;
      && (if p.vault == v && p.account == a
          then s'.AccountLog(v, a) != [] && s'.AccountLog(v, a)[|s'.AccountLog(v, a)| - 1].timestamp == p.timestamp
          else s'.AccountLog(v, a) == s.AccountLog(v, a))
      && (if p.vault == v
          then s'.TotalLog(v) != [] && s'.TotalLog(v)[|s'.TotalLog(v)| - 1].timestamp == p.timestamp
               && !Older(s.TotalLog(v), p.timestamp)
          else s'.TotalLog(v) == s.TotalLog(v))
  {
  }

  /** A run without throws half commits nothing. */
  lemma {:induction false} NoThrowIsAligned(actions: seq<Action>)
    requires NoThrow(actions)
    ensures Aligned(Run(actions))
  {
    if actions == [] {
      RunIsFaithful([]);
    } else {
      var b, action := Run(actions[..|actions| - 1]), actions[|actions| - 1];
      NoThrowIsAligned(actions[..|actions| - 1]);
      var p := Intended(action)[0];
      PostKeepsAligned(b, p);
      if action.Move? {
        PostKeepsAligned(Post(b, p), Intended(action)[1]);
        PostPair(b, p, Intended(action)[1]);
      } else {
        PostOne(b, p);
      }
    }
  }

  // ----- chronological runs -----

  predicate Touches(action: Action, v: VaultId) {
    if action.Move? then v == action.source || v == action.destination else v == action.vault
  }

  /** No vault the action touches has a newer total. */
  ghost predicate OnTime(s: Ledger, action: Action) {
    forall v: VaultId :: Touches(action, v) ==> !Older(s.TotalLog(v), action.timestamp)
  }

  /** Whether an action passes the guards of its own method. */
  predicate Admissible(s: Ledger, action: Action) {
    && 0 < action.amount
    && (action.Withdraw? ==> action.amount <= s.Balance(action.vault, action.account))
    && (action.Move? ==> action.source != action.destination && action.amount <= s.Balance(action.source, action.account))
  }

  lemma {:induction false} PostOnTime(b: Books, p: Posting)
    requires Aligned(b) && !Older(b.ledger.TotalLog(p.vault), p.timestamp)
    requires 0 <= b.ledger.Balance(p.vault, p.account) + p.delta
    ensures Change(b.ledger, p).outcome.Done? && Aligned(Post(b, p))
  {
    assert NotAhead(b.ledger.AccountLog(p.vault, p.account), b.ledger.TotalLog(p.vault));
    assert AccountRefusal(b.ledger, p).Done?;
    HalfCommitsWhenTotalIsNewer(b, p);
    PostKeepsAligned(b, p);
  }

  lemma {:induction false} MoveOnTime(
      b: Books, source: VaultId, destination: VaultId, a: Account, amount: int, t: int)
    requires Aligned(b) && source != destination && 0 < amount <= b.ledger.Balance(source, a)
    requires !Older(b.ledger.TotalLog(source), t) && !Older(b.ledger.TotalLog(destination), t)
    ensures var p, q := Posting(source, a, -amount, t), Posting(destination, a, amount, t);
      && Change(b.ledger, p).outcome.Done?
      && Change(Change(b.ledger, p).ledger, q).outcome.Done?
      && Aligned(Post(Post(b, p), q))
  {
    var p, q := Posting(source, a, -amount, t), Posting(destination, a, amount, t);
    PostOnTime(b, p);
    PostedLogs(b.ledger, p, destination, a);
    BalanceNonNegative(Post(b, p), destination, a);
    PostOnTime(Post(b, p), q);
  }

  lemma BalanceNonNegative(b: Books, v: VaultId, a: Account)
    requires Aligned(b)
    ensures 0 <= b.ledger.Balance(v, a)
  {
    assert Sound(b.ledger.AccountLog(v, a));
  }

  lemma {:induction false} SingleOnTime(b: Books, action: Action)
    requires Aligned(b) && OnTime(b.ledger, action) && !action.Move? && Admissible(b.ledger, action)
    ensures Apply(b.ledger, action).outcome.Done? && Aligned(PostAll(b, Attempts(b.ledger, action)))
  {
    var p := Intended(action)[0];
    assert Touches(action, p.vault);
    BalanceNonNegative(b, p.vault, p.account);
    PostOnTime(b, p);
    PostOne(b, p);
    assert Attempts(b.ledger, action) == [p];
  }

  lemma MoveAttempts(s: Ledger, source: VaultId, destination: VaultId, a: Account, amount: int, t: int)
    requires source != destination && 0 < amount <= s.Balance(source, a)
    requires Change(s, Posting(source, a, -amount, t)).outcome.Done?
    ensures Attempts(s, Move(source, destination, a, amount, t))
         == [Posting(source, a, -amount, t), Posting(destination, a, amount, t)]
    ensures Apply(s, Move(source, destination, a, amount, t))
         == Change(Change(s, Posting(source, a, -amount, t)).ledger, Posting(destination, a, amount, t))
  {
  }

  lemma {:induction false} CrossingOnTime(
      b: Books, source: VaultId, destination: VaultId, a: Account, amount: int, t: int)
    requires Aligned(b) && source != destination && 0 < amount <= b.ledger.Balance(source, a)
    requires !Older(b.ledger.TotalLog(source), t) && !Older(b.ledger.TotalLog(destination), t)
    ensures Apply(b.ledger, Move(source, destination, a, amount, t)).outcome.Done?
    ensures Aligned(PostAll(b, Attempts(b.ledger, Move(source, destination, a, amount, t))))
  {
    MoveOnTime(b, source, destination, a, amount, t);
    MoveAttempts(b.ledger, source, destination, a, amount, t);
    PostPair(b, Posting(source, a, -amount, t), Posting(destination, a, amount, t));
  }

  /** An action that is on time succeeds exactly when its guards pass, and keeps the books aligned either way. */
  lemma {:induction false} OnTimeOutcome(b: Books, action: Action)
    requires Aligned(b) && OnTime(b.ledger, action)
    ensures Apply(b.ledger, action).outcome.Done? <==> Admissible(b.ledger, action)
    ensures Aligned(PostAll(b, Attempts(b.ledger, action)))
  {
    if !Admissible(b.ledger, action) {
      assert Attempts(b.ledger, action) == [];
    } else if action.Move? {
      assert Touches(action, action.source) && Touches(action, action.destination);
      CrossingOnTime(b, action.source, action.destination, action.account, action.amount, action.timestamp);
    } else {
      SingleOnTime(b, action);
    }
  }

  /** Per vault, the actions that touch it come in the order of their timestamps. */
  ghost predicate Chronological(actions: seq<Action>) {
    forall i, j, v: VaultId :: 0 <= i < j < |actions| && Touches(actions[i], v) && Touches(actions[j], v)
      ==> actions[i].timestamp <= actions[j].timestamp
  }

  ghost predicate NewestWithin(s: Ledger, v: VaultId, bound: int) {
    s.TotalLog(v) != [] ==> s.TotalLog(v)[|s.TotalLog(v)| - 1].timestamp <= bound
  }

  lemma {:induction false} ChangeNewest(s: Ledger, p: Posting, v: VaultId, bound: int)
    requires NewestWithin(s, v, bound) && (p.vault == v ==> p.timestamp <= bound)
    ensures NewestWithin(Change(s, p).ledger, v, bound)
  {
    if Change(s, p).outcome.Done? {
      PostedLogs(s, p, v, p.account);
    } else {
      assert Change(s, p).ledger.TotalLog(v) == s.TotalLog(v);
    }
  }

  lemma {:induction false} ApplyNewest(s: Ledger, action: Action, v: VaultId, bound: int)
    requires NewestWithin(s, v, bound) && (Touches(action, v) ==> action.timestamp <= bound)
    ensures NewestWithin(Apply(s, action).ledger, v, bound)
  {
    var p := Intended(action)[0];
    var s' := Change(s, p).ledger;
    ChangeNewest(s, p, v, bound);
    if action.Move? {
      var q := Intended(action)[1];
      ChangeNewest(s', q, v, bound);
      assert Apply(s, action).ledger in {s, s', Change(s', q).ledger};
    } else {
      assert Apply(s, action).ledger in {s, s'};
    }
  }

  lemma {:induction false} RunNewest(actions: seq<Action>, v: VaultId, bound: int)
    requires forall i :: 0 <= i < |actions| && Touches(actions[i], v) ==> actions[i].timestamp <= bound
    ensures NewestWithin(Run(actions).ledger, v, bound)
  {
    if actions != [] {
      var front, action := actions[..|actions| - 1], actions[|actions| - 1];
      RunNewest(front, v, bound);
      assert front + [action] == actions;
      RunFollowsApply(front, action);
      ApplyNewest(Run(front).ledger, action, v, bound);
    }
  }

  /** Chronological runs stay aligned, whatever else is refused along the way. */
  lemma {:induction false} ChronologicalIsAligned(actions: seq<Action>)
    requires Chronological(actions)
    ensures Aligned(Run(actions))
  {
    if actions == [] {
      RunIsFaithful([]);
    } else {
      var front, action := actions[..|actions| - 1], actions[|actions| - 1];
      ChronologicalIsAligned(front);
      forall v: VaultId | Touches(action, v) ensures !Older(Run(front).ledger.TotalLog(v), action.timestamp) {
        RunNewest(front, v, action.timestamp);
      }
      OnTimeOutcome(Run(front), action);
    }
  }

  /** The aggregate is the sum over the accounts, for weights of every interval and for balances. */
  lemma {:induction false} ChronologicalIsAdditive(
      actions: seq<Action>, v: VaultId, accounts: seq<Account>, opensAt: int, closesAt: int)
    requires Chronological(actions) && Lists(accounts, Run(actions).ledger, v)
    ensures SumBalance(Run(actions).ledger, v, accounts) == Run(actions).ledger.TotalBalance(v)
    ensures SumWeight(Run(actions).ledger, v, accounts, opensAt, closesAt)
         == Run(actions).ledger.AggregateWeight(v, opensAt, closesAt)
  {
    ChronologicalIsAligned(actions);
    VaultIsSumOfAccounts(Run(actions), v, accounts, opensAt, closesAt);
  }
}
