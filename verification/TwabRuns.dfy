/** Properties of the time-weighted ledger over whole runs. */
module TwabRuns {
  import opened TwabHistory
  import opened Checkpoints
  import opened TwabModel

  /** A ledger with the postings that reached its account arrays, and those that reached its vault totals. */
  datatype Books = Books(ledger: Ledger, accountPosts: seq<Posting>, totalPosts: seq<Posting>)

  const BLANK := Books(EMPTY, [], [])

  function Post(b: Books, p: Posting): Books {
    Books(
      Change(b.ledger, p).ledger,
      if AccountRefusal(b.ledger, p).Done? then b.accountPosts + [p] else b.accountPosts,
      if Change(b.ledger, p).outcome.Done? then b.totalPosts + [p] else b.totalPosts)
  }

  /** The postings an action attempts on ledger `s`, in order: none when a guard refuses it. */
  function Attempts(s: Ledger, action: Action): seq<Posting> {
    match action
    case Deposit(v, a, amount, t) =>
      if amount <= 0 then [] else [Posting(v, a, amount, t)]
    case Withdraw(v, a, amount, t) =>
      if amount <= 0 || amount > s.Balance(v, a) then [] else [Posting(v, a, -amount, t)]
    case Move(source, destination, a, amount, t) =>
      if source == destination || amount <= 0 || amount > s.Balance(source, a) then []
      else if Change(s, Posting(source, a, -amount, t)).outcome.Thrown? then [Posting(source, a, -amount, t)]
      else [Posting(source, a, -amount, t), Posting(destination, a, amount, t)]
  }

  function PostAll(b: Books, ps: seq<Posting>): Books {
    if ps == [] then b else Post(PostAll(b, ps[..|ps| - 1]), ps[|ps| - 1])
  }

  /** The books after a run; a refused call leaves whatever it had already written. */
  function Run(actions: seq<Action>): Books {
    if actions == [] then BLANK
    else
      var b := Run(actions[..|actions| - 1]);
      PostAll(b, Attempts(b.ledger, actions[|actions| - 1]))
  }

  lemma {:induction false} PostOne(b: Books, p: Posting)
    ensures PostAll(b, []) == b && PostAll(b, [p]) == Post(b, p)
  {
    assert [p][..0] == [];
  }

  lemma {:induction false} PostPair(b: Books, p: Posting, q: Posting)
    ensures PostAll(b, [p, q]) == Post(Post(b, p), q)
  {
    assert [p, q][..1] == [p];
    PostOne(b, p);
  }

  /** One action posts to the books what `Apply` does to the ledger. */
  lemma {:induction false} StepFollowsApply(b: Books, action: Action)
    ensures PostAll(b, Attempts(b.ledger, action)).ledger == Apply(b.ledger, action).ledger
  {
    match action
    case Deposit(v, a, amount, t) =>
      PostOne(b, Posting(v, a, amount, t));
    case Withdraw(v, a, amount, t) =>
      PostOne(b, Posting(v, a, -amount, t));
    case Move(source, destination, a, amount, t) =>
      var p, q := Posting(source, a, -amount, t), Posting(destination, a, amount, t);
      PostOne(b, p);
      PostPair(b, p, q);
      assert Post(b, p).ledger == Change(b.ledger, p).ledger;
  }

  /** The books follow the class: a run of `Apply` reaches the same ledger. */
  lemma {:induction false} RunFollowsApply(actions: seq<Action>, action: Action)
    ensures Run(actions + [action]).ledger == Apply(Run(actions).ledger, action).ledger
  {
    assert (actions + [action])[..|actions|] == actions;
    StepFollowsApply(Run(actions), action);
  }

  // ----- the ledger answers as the integral does -----

  /** The actions of one account in one vault. */
  function Select(ps: seq<Posting>, v: VaultId, a: Account): seq<BalanceAction> {
    if ps == [] then []
    else
      var p := ps[|ps| - 1];
      var before := Select(ps[..|ps| - 1], v, a);
      if p.vault == v && p.account == a then before + [BalanceAction(p.timestamp, p.delta)] else before
  }

  /** The actions of one vault, all accounts together. */
  function SelectVault(ps: seq<Posting>, v: VaultId): seq<BalanceAction> {
    if ps == [] then []
    else
      var p := ps[|ps| - 1];
      var before := SelectVault(ps[..|ps| - 1], v);
      if p.vault == v then before + [BalanceAction(p.timestamp, p.delta)] else before
  }

  /** Every array of the ledger represents the history of the postings that reached it. */
  ghost predicate Faithful(b: Books) {
    && b.ledger.Valid()
    && (forall v: VaultId, a: Account :: Represents(b.ledger.AccountLog(v, a), Select(b.accountPosts, v, a)))
    && (forall v: VaultId :: Represents(b.ledger.TotalLog(v), SelectVault(b.totalPosts, v)))
    && (forall i :: 0 <= i < |b.accountPosts| ==>
          (b.accountPosts[i].vault, b.accountPosts[i].account) in b.ledger.checkpoints)
  }

  lemma {:induction false} SelectAppend(ps: seq<Posting>, p: Posting, v: VaultId, a: Account)
    ensures Select(ps + [p], v, a)
         == if p.vault == v && p.account == a then Select(ps, v, a) + [BalanceAction(p.timestamp, p.delta)]
            else Select(ps, v, a)
    ensures SelectVault(ps + [p], v)
         == if p.vault == v then SelectVault(ps, v) + [BalanceAction(p.timestamp, p.delta)] else SelectVault(ps, v)
  {
    assert (ps + [p])[..|ps|] == ps;
  }

  lemma {:induction false} AccountRowIsFaithful(b: Books, p: Posting, v: VaultId, a: Account)
    requires AccountRefusal(b.ledger, p).Done?
    requires Represents(b.ledger.AccountLog(v, a), Select(b.accountPosts, v, a))
    ensures Represents(WithAccount(b.ledger, p).AccountLog(v, a), Select(b.accountPosts + [p], v, a))
  {
    var cs := b.ledger.AccountLog(v, a);
    SelectAppend(b.accountPosts, p, v, a);
    if p.vault == v && p.account == a {
      WrittenRepresents(cs, Select(b.accountPosts, v, a), p.delta, p.timestamp);
      assert WithAccount(b.ledger, p).AccountLog(v, a) == Written(cs, LastBalance(cs) + p.delta, p.timestamp);
    } else {
      assert WithAccount(b.ledger, p).AccountLog(v, a) == cs;
    }
  }

  lemma {:induction false} AccountPostIsFaithful(b: Books, p: Posting)
    requires Faithful(b) && AccountRefusal(b.ledger, p).Done?
    ensures Faithful(b.(ledger := WithAccount(b.ledger, p), accountPosts := b.accountPosts + [p]))
  {
    var s' := WithAccount(b.ledger, p);
    WithAccountKeepsValid(b.ledger, p);
    forall v: VaultId, a: Account ensures Represents(s'.AccountLog(v, a), Select(b.accountPosts + [p], v, a)) {
      AccountRowIsFaithful(b, p, v, a);
    }
    forall v: VaultId ensures Represents(s'.TotalLog(v), SelectVault(b.totalPosts, v)) {
      assert s'.TotalLog(v) == b.ledger.TotalLog(v);
    }
  }

  lemma {:induction false} TotalRowIsFaithful(b: Books, p: Posting, v: VaultId)
    requires TotalRefusal(b.ledger, p).Done?
    requires Represents(b.ledger.TotalLog(v), SelectVault(b.totalPosts, v))
    ensures Represents(WithTotal(b.ledger, p).TotalLog(v), SelectVault(b.totalPosts + [p], v))
  {
    SelectAppend(b.totalPosts, p, v, p.account);
    WithTotalLog(b.ledger, p, v);
    RowRepresents(
      b.ledger.TotalLog(v), SelectVault(b.totalPosts, v),
      WithTotal(b.ledger, p).TotalLog(v), SelectVault(b.totalPosts + [p], v), p, p.vault == v);
  }

  /** One array and its history, after a posting that may or may not be for it. */
  lemma {:induction false} RowRepresents(
      cs: seq<Checkpoint>, h: seq<BalanceAction>, cs': seq<Checkpoint>, h': seq<BalanceAction>, p: Posting, here: bool)
    requires Represents(cs, h)
    requires if here then !Older(cs, p.timestamp) && cs' == Written(cs, LastBalance(cs) + p.delta, p.timestamp)
                          && h' == h + [BalanceAction(p.timestamp, p.delta)]
             else cs' == cs && h' == h
    ensures Represents(cs', h')
  {
    if here {
      WrittenRepresents(cs, h, p.delta, p.timestamp);
    }
  }

  lemma WithTotalLog(s: Ledger, p: Posting, v: VaultId)
    requires TotalRefusal(s, p).Done?
    ensures var cs := s.TotalLog(v);
      WithTotal(s, p).TotalLog(v)
      == if p.vault == v then Written(cs, LastBalance(cs) + p.delta, p.timestamp) else cs
  {
  }

  lemma {:induction false} TotalPostIsFaithful(b: Books, p: Posting)
    requires Faithful(b) && TotalRefusal(b.ledger, p).Done?
    ensures Faithful(b.(ledger := WithTotal(b.ledger, p), totalPosts := b.totalPosts + [p]))
  {
    var s' := WithTotal(b.ledger, p);
    WithTotalKeepsValid(b.ledger, p);
    forall v: VaultId, a: Account ensures Represents(s'.AccountLog(v, a), Select(b.accountPosts, v, a)) {
      assert s'.AccountLog(v, a) == b.ledger.AccountLog(v, a);
    }
    forall v: VaultId ensures Represents(s'.TotalLog(v), SelectVault(b.totalPosts + [p], v)) {
      TotalRowIsFaithful(b, p, v);
    }
  }

  lemma {:induction false} PostIsFaithful(b: Books, p: Posting)
    requires Faithful(b)
    ensures Faithful(Post(b, p))
  {
    if AccountRefusal(b.ledger, p).Done? {
      AccountPostIsFaithful(b, p);
      var b' := b.(ledger := WithAccount(b.ledger, p), accountPosts := b.accountPosts + [p]);
      if TotalRefusal(b'.ledger, p).Done? {
        TotalPostIsFaithful(b', p);
      }
    }
  }

  lemma {:induction false} PostAllIsFaithful(b: Books, ps: seq<Posting>)
    requires Faithful(b)
    ensures Faithful(PostAll(b, ps))
  {
    if ps != [] {
      PostAllIsFaithful(b, ps[..|ps| - 1]);
      PostIsFaithful(PostAll(b, ps[..|ps| - 1]), ps[|ps| - 1]);
    }
  }

  /** On every run whatsoever, throwing calls included. */
  lemma {:induction false} RunIsFaithful(actions: seq<Action>)
    ensures Faithful(Run(actions))
  {
    if actions != [] {
      var b := Run(actions[..|actions| - 1]);
      RunIsFaithful(actions[..|actions| - 1]);
      PostAllIsFaithful(b, Attempts(b.ledger, actions[|actions| - 1]));
    }
  }

  /** The weight of an account is the second-by-second integral of its balance. */
  lemma {:induction false} WeightIsBalanceTime(actions: seq<Action>, v: VaultId, a: Account, opensAt: int, closesAt: int)
    requires opensAt <= closesAt
    ensures Run(actions).ledger.Weight(v, a, opensAt, closesAt)
         == BalanceTime(Select(Run(actions).accountPosts, v, a), opensAt, closesAt)
    ensures Run(actions).ledger.AggregateWeight(v, opensAt, closesAt)
         == BalanceTime(SelectVault(Run(actions).totalPosts, v), opensAt, closesAt)
  {
    RunIsFaithful(actions);
    var b := Run(actions);
    var h, g := Select(b.accountPosts, v, a), SelectVault(b.totalPosts, v);
    assert Represents(b.ledger.AccountLog(v, a), h) && Represents(b.ledger.TotalLog(v), g);
    BalanceTimeIsAccrued(h, opensAt, closesAt);
    BalanceTimeIsAccrued(g, opensAt, closesAt);
  }

  // ----- runs in which no call threw -----

  /** The postings an action calls for, read off the action alone. */
  function Intended(action: Action): seq<Posting> {
    match action
    case Deposit(v, a, amount, t) => [Posting(v, a, amount, t)]
    case Withdraw(v, a, amount, t) => [Posting(v, a, -amount, t)]
    case Move(source, destination, a, amount, t) =>
      [Posting(source, a, -amount, t), Posting(destination, a, amount, t)]
  }

  function History(actions: seq<Action>): seq<Posting> {
    if actions == [] then [] else History(actions[..|actions| - 1]) + Intended(actions[|actions| - 1])
  }

  ghost predicate NoThrow(actions: seq<Action>) {
    actions == [] ||
    (var front := actions[..|actions| - 1];
     NoThrow(front) && Apply(Run(front).ledger, actions[|actions| - 1]).outcome.Done?)
  }

  lemma {:induction false} PostWhenDone(b: Books, p: Posting)
    requires Change(b.ledger, p).outcome.Done?
    ensures Post(b, p) == Books(Change(b.ledger, p).ledger, b.accountPosts + [p], b.totalPosts + [p])
  {
    assert AccountRefusal(b.ledger, p).Done?;
  }

  lemma {:induction false} StepWhenDone(b: Books, action: Action)
    requires Apply(b.ledger, action).outcome.Done?
    ensures var b' := PostAll(b, Attempts(b.ledger, action));
      b'.accountPosts == b.accountPosts + Intended(action) && b'.totalPosts == b.totalPosts + Intended(action)
  {
    var p := Intended(action)[0];
    assert Change(b.ledger, p).outcome.Done?;
    PostWhenDone(b, p);
    if action.Move? {
      var q := Intended(action)[1];
      assert Change(Change(b.ledger, p).ledger, q).outcome.Done?;
      PostWhenDone(Post(b, p), q);
      PostPair(b, p, q);
      assert Intended(action) == [p, q];
      assert b.accountPosts + [p] + [q] == b.accountPosts + Intended(action);
      assert b.totalPosts + [p] + [q] == b.totalPosts + Intended(action);
    } else {
      PostOne(b, p);
    }
  }

  lemma {:induction false} NoThrowPostsIntended(actions: seq<Action>)
    requires NoThrow(actions)
    ensures Run(actions).accountPosts == Run(actions).totalPosts == History(actions)
  {
    if actions != [] {
      NoThrowPostsIntended(actions[..|actions| - 1]);
      StepWhenDone(Run(actions[..|actions| - 1]), actions[|actions| - 1]);
    }
  }

  /** Weights after a run without throws, stated on the list of actions alone. */
  lemma {:induction false} NoThrowWeight(actions: seq<Action>, v: VaultId, a: Account, opensAt: int, closesAt: int)
    requires NoThrow(actions) && opensAt <= closesAt
    ensures Run(actions).ledger.Weight(v, a, opensAt, closesAt)
         == BalanceTime(Select(History(actions), v, a), opensAt, closesAt)
    ensures Run(actions).ledger.AggregateWeight(v, opensAt, closesAt)
         == BalanceTime(SelectVault(History(actions), v), opensAt, closesAt)
  {
    NoThrowPostsIntended(actions);
    WeightIsBalanceTime(actions, v, a, opensAt, closesAt);
  }

  // ----- the vault total is the sum over its accounts -----

  predicate Distinct(accounts: seq<Account>) {
    forall i, j :: 0 <= i < j < |accounts| ==> accounts[i] != accounts[j]
  }

  /** A listing, without repetition, of every account that has an array in the vault. */
  ghost predicate Lists(accounts: seq<Account>, s: Ledger, v: VaultId) {
    Distinct(accounts) && forall a :: (v, a) in s.checkpoints ==> a in accounts
  }

  function SumBalance(s: Ledger, v: VaultId, accounts: seq<Account>): int {
    if accounts == [] then 0 else SumBalance(s, v, accounts[1..]) + s.Balance(v, accounts[0])
  }

  function SumWeight(s: Ledger, v: VaultId, accounts: seq<Account>, opensAt: int, closesAt: int): int {
    if accounts == [] then 0
    else SumWeight(s, v, accounts[1..], opensAt, closesAt) + s.Weight(v, accounts[0], opensAt, closesAt)
  }

  function SumTotal(ps: seq<Posting>, v: VaultId, accounts: seq<Account>): int {
    if accounts == [] then 0 else SumTotal(ps, v, accounts[1..]) + Total(Select(ps, v, accounts[0]))
  }

  function SumAccrued(ps: seq<Posting>, v: VaultId, accounts: seq<Account>, t: int): int {
    if accounts == [] then 0 else SumAccrued(ps, v, accounts[1..], t) + Accrued(Select(ps, v, accounts[0]), t)
  }

  /** One more posting raises exactly one addend. */
  lemma {:induction false} SumsAppend(ps: seq<Posting>, p: Posting, v: VaultId, accounts: seq<Account>, t: int)
    requires Distinct(accounts)
    ensures var here := p.vault == v && p.account in accounts;
      && SumTotal(ps + [p], v, accounts) == SumTotal(ps, v, accounts) + (if here then p.delta else 0)
      && SumAccrued(ps + [p], v, accounts, t)
         == SumAccrued(ps, v, accounts, t) + (if here then Contribution(p.timestamp, p.delta, t) else 0)
  {
    if accounts != [] {
      SumsAppend(ps, p, v, accounts[1..], t);
      SelectAppend(ps, p, v, accounts[0]);
      AccruedAppend(Select(ps, v, accounts[0]), BalanceAction(p.timestamp, p.delta), t);
      assert accounts == [accounts[0]] + accounts[1..];
    }
  }

  lemma {:induction false} SumsOfNothing(v: VaultId, accounts: seq<Account>, t: int)
    ensures SumTotal([], v, accounts) == 0 && SumAccrued([], v, accounts, t) == 0
  {
    if accounts != [] {
      SumsOfNothing(v, accounts[1..], t);
    }
  }

  /** Splitting the history of a vault by account loses nothing. */
  lemma {:induction false} SumsOverVault(ps: seq<Posting>, v: VaultId, accounts: seq<Account>, t: int)
    requires Distinct(accounts)
    requires forall i :: 0 <= i < |ps| && ps[i].vault == v ==> ps[i].account in accounts
    ensures SumTotal(ps, v, accounts) == Total(SelectVault(ps, v))
    ensures SumAccrued(ps, v, accounts, t) == Accrued(SelectVault(ps, v), t)
  {
    if ps == [] {
      SumsOfNothing(v, accounts, t);
    } else {
      var front, p := ps[..|ps| - 1], ps[|ps| - 1];
      assert ps == front + [p];
      SumsOverVault(front, v, accounts, t);
      SumsAppend(front, p, v, accounts, t);
      SelectAppend(front, p, v, p.account);
      AccruedAppend(SelectVault(front, v), BalanceAction(p.timestamp, p.delta), t);
      assert ps[|ps| - 1].vault == v ==> p.account in accounts;
    }
  }

  lemma {:induction false} SumsReadTheLedger(b: Books, v: VaultId, accounts: seq<Account>, opensAt: int, closesAt: int)
    requires Faithful(b)
    ensures SumBalance(b.ledger, v, accounts) == SumTotal(b.accountPosts, v, accounts)
    ensures SumWeight(b.ledger, v, accounts, opensAt, closesAt)
         == SumAccrued(b.accountPosts, v, accounts, closesAt) - SumAccrued(b.accountPosts, v, accounts, opensAt)
  {
    if accounts != [] {
      SumsReadTheLedger(b, v, accounts[1..], opensAt, closesAt);
      assert Represents(b.ledger.AccountLog(v, accounts[0]), Select(b.accountPosts, v, accounts[0]));
    }
  }

  /** While no posting is half committed, totals and aggregate weights are the sums over the accounts. */
  lemma {:induction false} VaultIsSumOfAccounts(b: Books, v: VaultId, accounts: seq<Account>, opensAt: int, closesAt: int)
    requires Faithful(b) && b.accountPosts == b.totalPosts && Lists(accounts, b.ledger, v)
    ensures SumBalance(b.ledger, v, accounts) == b.ledger.TotalBalance(v)
    ensures SumWeight(b.ledger, v, accounts, opensAt, closesAt) == b.ledger.AggregateWeight(v, opensAt, closesAt)
  {
    SumsReadTheLedger(b, v, accounts, opensAt, closesAt);
    SumsOverVault(b.accountPosts, v, accounts, opensAt);
    SumsOverVault(b.accountPosts, v, accounts, closesAt);
    assert Represents(b.ledger.TotalLog(v), SelectVault(b.totalPosts, v));
  }
}
