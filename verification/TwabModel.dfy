/** The time-weighted balance ledger of reference/leopoldModels.ts: per-account and per-vault checkpoint arrays. */
module TwabModel {
  import opened Outcomes
  import opened Checkpoints

  type VaultId = v: int | 1 <= v <= 4 witness 1
  type Account = string

  /** The two maps of the model, as a value. */
  datatype Ledger = Ledger(
    checkpoints: map<(VaultId, Account), seq<Checkpoint>>,
    vaultTotals: map<VaultId, seq<Checkpoint>>)
  {
    function AccountLog(v: VaultId, a: Account): seq<Checkpoint> {
      if (v, a) in checkpoints then checkpoints[(v, a)] else []
    }

    function TotalLog(v: VaultId): seq<Checkpoint> {
      if v in vaultTotals then vaultTotals[v] else []
    }

    function Balance(v: VaultId, a: Account): int {
      LastBalance(AccountLog(v, a))
    }

    function TotalBalance(v: VaultId): int {
      LastBalance(TotalLog(v))
    }

    function CumulativeAt(v: VaultId, a: Account, t: int): int {
      Interpolated(AccountLog(v, a), t)
    }

    function Weight(v: VaultId, a: Account, opensAt: int, closesAt: int): int {
      CumulativeAt(v, a, closesAt) - CumulativeAt(v, a, opensAt)
    }

    function AggregateWeight(v: VaultId, opensAt: int, closesAt: int): int {
      Interpolated(TotalLog(v), closesAt) - Interpolated(TotalLog(v), opensAt)
    }

    ghost predicate Valid() {
      && (forall v: VaultId, a: Account :: Sound(AccountLog(v, a)))
      && (forall v: VaultId :: Sound(TotalLog(v)))
    }
  }

  const EMPTY := Ledger(map[], map[])

  /** One balance change, as `change` receives it. */
  datatype Posting = Posting(vault: VaultId, account: Account, delta: int, timestamp: int)

  /** A ledger together with how the call that produced it ended. */
  datatype Step = Step(ledger: Ledger, outcome: Outcome)

  /** Why the account's own array refuses the posting, if it does. */
  function AccountRefusal(s: Ledger, p: Posting): (r: Outcome) {
    if s.Balance(p.vault, p.account) + p.delta < 0 then Thrown("negative balance")
    else if Older(s.AccountLog(p.vault, p.account), p.timestamp) then Thrown("actions must be chronological")
    else Done
  }

  function TotalRefusal(s: Ledger, p: Posting): (r: Outcome) {
    if s.TotalBalance(p.vault) + p.delta < 0 then Thrown("negative aggregate")
    else if Older(s.TotalLog(p.vault), p.timestamp) then Thrown("actions must be chronological")
    else Done
  }

  function WithAccount(s: Ledger, p: Posting): Ledger
    requires AccountRefusal(s, p).Done?
  {
    s.(checkpoints := s.checkpoints[(p.vault, p.account) :=
        Written(s.AccountLog(p.vault, p.account), s.Balance(p.vault, p.account) + p.delta, p.timestamp)])
  }

  function WithTotal(s: Ledger, p: Posting): Ledger
    requires TotalRefusal(s, p).Done?
  {
    s.(vaultTotals := s.vaultTotals[p.vault :=
        Written(s.TotalLog(p.vault), s.TotalBalance(p.vault) + p.delta, p.timestamp)])
  }

  /** The account is written before the vault total is examined, so a refusal by the total leaves the account changed. */
  function Change(s: Ledger, p: Posting): Step {
    var first := AccountRefusal(s, p);
    if first.Thrown? then Step(s, first)
    else
      var s' := WithAccount(s, p);
      var second := TotalRefusal(s', p);
      if second.Thrown? then Step(s', second) else Step(WithTotal(s', p), Done)
  }

  datatype Action =
    | Deposit(vault: VaultId, account: Account, amount: int, timestamp: int)
    | Withdraw(vault: VaultId, account: Account, amount: int, timestamp: int)
    | Move(source: VaultId, destination: VaultId, account: Account, amount: int, timestamp: int)

  function ApplyDeposit(s: Ledger, v: VaultId, a: Account, amount: int, t: int): Step {
    if amount <= 0 then Step(s, Thrown("deposit must be positive"))
    else Change(s, Posting(v, a, amount, t))
  }

  function ApplyWithdraw(s: Ledger, v: VaultId, a: Account, amount: int, t: int): Step {
    if amount <= 0 || amount > s.Balance(v, a) then Step(s, Thrown("invalid withdrawal"))
    else Change(s, Posting(v, a, -amount, t))
  }

  function Apply(s: Ledger, action: Action): Step {
    match action
    case Deposit(v, a, amount, t) => ApplyDeposit(s, v, a, amount, t)
    case Withdraw(v, a, amount, t) => ApplyWithdraw(s, v, a, amount, t)
    case Move(source, destination, a, amount, t) =>
      if source == destination then Step(s, Thrown("vault move must cross vaults"))
      else
        var taken := ApplyWithdraw(s, source, a, amount, t);
        if taken.outcome.Thrown? then taken else ApplyDeposit(taken.ledger, destination, a, amount, t)
  }

  lemma WithAccountKeepsValid(s: Ledger, p: Posting)
    requires s.Valid() && AccountRefusal(s, p).Done?
    ensures WithAccount(s, p).Valid()
  {
    var s' := WithAccount(s, p);
    forall v: VaultId, a: Account ensures Sound(s'.AccountLog(v, a)) {
      if (v, a) == (p.vault, p.account) {
        WrittenSound(s.AccountLog(v, a), s.Balance(v, a) + p.delta, p.timestamp);
      } else {
        assert s'.AccountLog(v, a) == s.AccountLog(v, a);
      }
    }
    forall v: VaultId ensures Sound(s'.TotalLog(v)) {
      assert s'.TotalLog(v) == s.TotalLog(v);
    }
  }

  lemma WithTotalKeepsValid(s: Ledger, p: Posting)
    requires s.Valid() && TotalRefusal(s, p).Done?
    ensures WithTotal(s, p).Valid()
  {
    var s' := WithTotal(s, p);
    forall v: VaultId, a: Account ensures Sound(s'.AccountLog(v, a)) {
      assert s'.AccountLog(v, a) == s.AccountLog(v, a);
    }
    forall v: VaultId ensures Sound(s'.TotalLog(v)) {
      if v == p.vault {
        WrittenSound(s.TotalLog(v), s.TotalBalance(v) + p.delta, p.timestamp);
      } else {
        assert s'.TotalLog(v) == s.TotalLog(v);
      }
    }
  }

  /** Every call, refused or not, keeps every array sorted, rising and non-negative. */
  lemma ChangeKeepsValid(s: Ledger, p: Posting)
    requires s.Valid()
    ensures Change(s, p).ledger.Valid()
  {
    if AccountRefusal(s, p).Done? {
      WithAccountKeepsValid(s, p);
      if TotalRefusal(WithAccount(s, p), p).Done? {
        WithTotalKeepsValid(WithAccount(s, p), p);
      }
    }
  }

  /** The class of the source. Its methods are proved against `Apply`, throwing calls included. */
  class TwabReferenceModel {
    var checkpoints: map<(VaultId, Account), seq<Checkpoint>>
    var vaultTotals: map<VaultId, seq<Checkpoint>>

    function Snapshot(): Ledger
      reads this
    {
      Ledger(checkpoints, vaultTotals)
    }

    ghost predicate Valid()
      reads this
    {
      Snapshot().Valid()
    }

    constructor ()
      ensures Valid() && Snapshot() == EMPTY
    {
      checkpoints, vaultTotals := map[], map[];
    }

    method Deposit(v: VaultId, a: Account, amount: int, t: int) returns (r: Outcome)
      requires Valid()
      modifies this
      ensures Valid() && Step(Snapshot(), r) == Apply(old(Snapshot()), Action.Deposit(v, a, amount, t))
    {
      if amount <= 0 {
        return Thrown("deposit must be positive");
      }
      r := PostChange(v, a, amount, t);
    }

    method Withdraw(v: VaultId, a: Account, amount: int, t: int) returns (r: Outcome)
      requires Valid()
      modifies this
      ensures Valid() && Step(Snapshot(), r) == Apply(old(Snapshot()), Action.Withdraw(v, a, amount, t))
    {
      if amount <= 0 || amount > Snapshot().Balance(v, a) {
        return Thrown("invalid withdrawal");
      }
      r := PostChange(v, a, -amount, t);
    }

    method Move(source: VaultId, destination: VaultId, a: Account, amount: int, t: int) returns (r: Outcome)
      requires Valid()
      modifies this
      ensures Valid() && Step(Snapshot(), r) == Apply(old(Snapshot()), Action.Move(source, destination, a, amount, t))
    {
      if source == destination {
        return Thrown("vault move must cross vaults");
      }
      r := Withdraw(source, a, amount, t);
      if r.Done? {
        r := Deposit(destination, a, amount, t);
      }
    }

    method CumulativeAt(v: VaultId, a: Account, t: int) returns (r: int)
      requires Valid()
      ensures r == Snapshot().CumulativeAt(v, a, t)
    {
      r := Interpolate(Snapshot().AccountLog(v, a), t);
    }

    method Weight(v: VaultId, a: Account, opensAt: int, closesAt: int) returns (r: Result<int>)
      requires Valid()
      ensures r == if closesAt < opensAt then Err("invalid interval") else Ok(Snapshot().Weight(v, a, opensAt, closesAt))
      ensures r.Ok? ==> r.value >= 0
    {
      if closesAt < opensAt {
        return Err("invalid interval");
      }
      var close := CumulativeAt(v, a, closesAt);
      var open := CumulativeAt(v, a, opensAt);
      assert Rising(Snapshot().AccountLog(v, a));
      return Ok(close - open);
    }

    /** Unlike `Weight`, the aggregate accepts a reversed interval. */
    method AggregateWeight(v: VaultId, opensAt: int, closesAt: int) returns (r: int)
      requires Valid()
      ensures r == Snapshot().AggregateWeight(v, opensAt, closesAt)
      ensures opensAt <= closesAt ==> r >= 0
    {
      var close := Interpolate(Snapshot().TotalLog(v), closesAt);
      var open := Interpolate(Snapshot().TotalLog(v), opensAt);
      assert Rising(Snapshot().TotalLog(v));
      return close - open;
    }

    method PostChange(v: VaultId, a: Account, delta: int, t: int) returns (r: Outcome)
      requires Valid()
      modifies this
      ensures Valid() && Step(Snapshot(), r) == Change(old(Snapshot()), Posting(v, a, delta, t))
    {
      ChangeKeepsValid(Snapshot(), Posting(v, a, delta, t));
      var user := Snapshot().AccountLog(v, a);
      var userBalance := LastBalance(user);
      if userBalance + delta < 0 {
        return Thrown("negative balance");
      }
      var written := Write(user, userBalance + delta, t);
      if written.Err? {
        return Thrown(written.error);
      }
      checkpoints := checkpoints[(v, a) := written.value];

      var total := Snapshot().TotalLog(v);
      var totalBalance := LastBalance(total);
      if totalBalance + delta < 0 {
        return Thrown("negative aggregate");
      }
      written := Write(total, totalBalance + delta, t);
      if written.Err? {
        return Thrown(written.error);
      }
      vaultTotals := vaultTotals[v := written.value];
      return Done;
    }

    static method Write(cs: seq<Checkpoint>, newBalance: int, t: int) returns (r: Result<seq<Checkpoint>>)
      ensures r == if Older(cs, t) then Err("actions must be chronological") else Ok(Written(cs, newBalance, t))
    {
      if cs == [] {
        return Ok([Checkpoint(t, newBalance, 0)]);
      }
      var previous := cs[|cs| - 1];
      if t < previous.timestamp {
        return Err("actions must be chronological");
      }
      var cumulative := previous.cumulative + previous.balance * (t - previous.timestamp);
      if previous.timestamp == t {
        var next := previous.(balance := newBalance, cumulative := cumulative);
        assert cs[|cs| - 1 := next] == cs[..|cs| - 1] + [next];
        return Ok(cs[|cs| - 1 := next]);
      }
      return Ok(cs + [Checkpoint(t, newBalance, cumulative)]);
    }
  }
}
