/** Posting draws to the category ledger: what is owed in total stays what the participants hold. */
module DrawLedger {
  import opened Weights
  import opened Settlement
  import opened Accounting

  /** The participants of a vault beside its category ledger. */
  datatype Vault = Vault(participants: seq<DrawParticipant>, ledger: AccountingSnapshot)

  datatype Event =
    | Operate(op: Op)
    | Save(saver: nat, amount: int)
    | Take(saver: nat, amount: int)
    | Claim(saver: nat, amount: int)
    | HoldDraw(weights: seq<int>, autoSaves: seq<bool>, ticket: int, prize: int, timestamp: int, principalCap: int)

  /** An operation that leaves both liabilities alone: deployment, losses, harvests, sponsorship, reservation. */
  predicate Neutral(op: Op) {
    !(op.DepositPrincipal? || op.WithdrawPrincipal? || op.AllocateWinnings? || op.AutoSave? || op.WithdrawWinnings?)
  }

  /** The participants as they enter a draw: holdings carried over, weights and preferences of the round. */
  function Entrants(ps: seq<DrawParticipant>, weights: seq<int>, autoSaves: seq<bool>): (es: seq<DrawParticipant>)
    requires |weights| == |autoSaves| == |ps|
    ensures |es| == |ps|
  {
    seq(|ps|, i requires 0 <= i < |ps| => ps[i].(weight := weights[i], autoSave := autoSaves[i]))
  }

  /** The operations that post a settled draw, each only when positive. */
  function Postings(r: DrawSettlementResult): seq<Op> {
    (if r.allocatedPrize > 0 then [AllocateWinnings(r.allocatedPrize)] else [])
    + (if r.principalAdded > 0 then [AutoSave(r.principalAdded)] else [])
  }

  predicate Ready(v: Vault, e: Event) {
    match e
    case Operate(op) => Neutral(op)
    case Save(i, _) => i < |v.participants|
    case Take(i, amount) => i < |v.participants| && amount <= v.participants[i].principal
    case Claim(i, amount) => i < |v.participants| && amount <= v.participants[i].winnings
    case HoldDraw(weights, autoSaves, _, prize, _, _) =>
      |weights| == |autoSaves| == |v.participants| && prize <= v.ledger.reservedPrize
  }

  /** Participant `i` with other holdings. */
  function Holding(ps: seq<DrawParticipant>, i: nat, principal: int, winnings: int): (rs: seq<DrawParticipant>)
    requires i < |ps|
    ensures |rs| == |ps|
  {
    ps[i := ps[i].(principal := principal, winnings := winnings)]
  }

  /** A deposit, withdrawal or claim of one saver changes the participant and the ledger together, or, when the ledger
      refuses the operation, neither. A draw that is refused changes nothing. */
  function Happen(v: Vault, e: Event): Vault
    requires Ready(v, e)
  {
    match e
    case Operate(op) => v.(ledger := Applied(v.ledger, op))
    case Save(i, amount) =>
      var p := v.participants[i];
      if Guard(v.ledger, DepositPrincipal(amount)).Thrown? then v
      else Vault(Holding(v.participants, i, p.principal + amount, p.winnings), Effect(v.ledger, DepositPrincipal(amount)))
    case Take(i, amount) =>
      var p := v.participants[i];
      if Guard(v.ledger, WithdrawPrincipal(amount)).Thrown? then v
      else Vault(Holding(v.participants, i, p.principal - amount, p.winnings), Effect(v.ledger, WithdrawPrincipal(amount)))
    case Claim(i, amount) =>
      var p := v.participants[i];
      if Guard(v.ledger, WithdrawWinnings(amount)).Thrown? then v
      else Vault(Holding(v.participants, i, p.principal, p.winnings - amount), Effect(v.ledger, WithdrawWinnings(amount)))
    case HoldDraw(weights, autoSaves, ticket, prize, timestamp, principalCap) =>
      var r := SettleOutcome(Entrants(v.participants, weights, autoSaves), ticket, prize, timestamp, principalCap);
      if r.Err? then v else Vault(After(r.value), Run(v.ledger, Postings(r.value)))
  }

  predicate Agrees(v: Vault) {
    && Solvent(v.ledger)
    && v.ledger.principalLiability == Sum(PrincipalsOf(v.participants))
    && v.ledger.winningsLiability == Sum(WinningsOf(v.participants))
    && NonNegative(PrincipalsOf(v.participants)) && NonNegative(WinningsOf(v.participants))
  }

  /** Both postings of a funded draw pass their guards, and move exactly the amounts the settlement decided. */
  lemma {:induction false} PostingsGoThrough(s: AccountingSnapshot, r: DrawSettlementResult)
    requires Solvent(s) && 0 <= r.principalAdded && 0 <= r.winningsAdded
    requires r.principalAdded + r.winningsAdded == r.allocatedPrize <= s.reservedPrize
    ensures Run(s, Postings(r)) == s.(
      reservedPrize := s.reservedPrize - r.allocatedPrize,
      allocatedWinnings := s.allocatedWinnings + r.allocatedPrize,
      winningsLiability := s.winningsLiability + r.winningsAdded,
      liquidPrizeAssets := s.liquidPrizeAssets - r.principalAdded,
      principalLiability := s.principalLiability + r.principalAdded,
      liquidPrincipal := s.liquidPrincipal + r.principalAdded,
      autoSavedWinnings := s.autoSavedWinnings + r.principalAdded)
    ensures Solvent(Run(s, Postings(r)))
  {
    if r.allocatedPrize > 0 {
      var first := AllocateWinnings(r.allocatedPrize);
      assert [first][..0] == [] && Run(s, [first]) == Applied(s, first) by {
        assert Run(s, []) == s;
      }
      if r.principalAdded > 0 {
        var second := AutoSave(r.principalAdded);
        assert Postings(r) == [first, second] && [first, second][..1] == [first];
      } else {
        assert Postings(r) == [first];
      }
    }
  }

  lemma {:induction false} HoldingSums(ps: seq<DrawParticipant>, i: nat, principal: int, winnings: int)
    requires i < |ps|
    ensures Sum(PrincipalsOf(Holding(ps, i, principal, winnings))) == Sum(PrincipalsOf(ps)) + principal - ps[i].principal
    ensures Sum(WinningsOf(Holding(ps, i, principal, winnings))) == Sum(WinningsOf(ps)) + winnings - ps[i].winnings
  {
    var rs := Holding(ps, i, principal, winnings);
    SumWithOneChange(PrincipalsOf(ps), PrincipalsOf(rs), i, principal - ps[i].principal);
    SumWithOneChange(WinningsOf(ps), WinningsOf(rs), i, winnings - ps[i].winnings);
  }

  /** An operation that changes the liabilities by what one participant's holdings change keeps the agreement. */
  lemma {:induction false} HoldingAgrees(v: Vault, i: nat, op: Op, principal: int, winnings: int)
    requires Agrees(v) && i < |v.participants| && Guard(v.ledger, op).Done? && 0 <= principal && 0 <= winnings
    requires Effect(v.ledger, op).principalLiability - v.ledger.principalLiability
          == principal - v.participants[i].principal
    requires Effect(v.ledger, op).winningsLiability - v.ledger.winningsLiability == winnings - v.participants[i].winnings
    ensures Agrees(Vault(Holding(v.participants, i, principal, winnings), Effect(v.ledger, op)))
  {
    GuardsKeepSolvent(v.ledger, op);
    HoldingSums(v.participants, i, principal, winnings);
    HoldingNonNegative(v.participants, i, principal, winnings);
  }

  lemma {:induction false} SaverKeepsAgreement(v: Vault, e: Event)
    requires Agrees(v) && Ready(v, e) && (e.Save? || e.Take? || e.Claim?)
    ensures Agrees(Happen(v, e))
  {
    var p, x := v.participants[e.saver], e.amount;
    assert p.principal == PrincipalsOf(v.participants)[e.saver] && p.winnings == WinningsOf(v.participants)[e.saver];
    if e.Save? && Guard(v.ledger, DepositPrincipal(x)).Done? {
      HoldingAgrees(v, e.saver, DepositPrincipal(x), p.principal + x, p.winnings);
    } else if e.Take? && Guard(v.ledger, WithdrawPrincipal(x)).Done? {
      HoldingAgrees(v, e.saver, WithdrawPrincipal(x), p.principal - x, p.winnings);
    } else if e.Claim? && Guard(v.ledger, WithdrawWinnings(x)).Done? {
      HoldingAgrees(v, e.saver, WithdrawWinnings(x), p.principal, p.winnings - x);
    }
  }

  lemma HoldingNonNegative(ps: seq<DrawParticipant>, i: nat, principal: int, winnings: int)
    requires i < |ps| && NonNegative(PrincipalsOf(ps)) && NonNegative(WinningsOf(ps))
    requires 0 <= principal && 0 <= winnings
    ensures NonNegative(PrincipalsOf(Holding(ps, i, principal, winnings)))
    ensures NonNegative(WinningsOf(Holding(ps, i, principal, winnings)))
  {
    var rs := Holding(ps, i, principal, winnings);
    forall j | 0 <= j < |rs| ensures 0 <= PrincipalsOf(rs)[j] && 0 <= WinningsOf(rs)[j] {
      assert 0 <= PrincipalsOf(ps)[j] && 0 <= WinningsOf(ps)[j];
    }
  }

  lemma {:induction false} DrawKeepsAgreement(v: Vault, e: Event)
    requires Agrees(v) && Ready(v, e) && e.HoldDraw?
    ensures Agrees(Happen(v, e))
  {
    var HoldDraw(weights, autoSaves, ticket, prize, timestamp, principalCap) := e;
    var entrants := Entrants(v.participants, weights, autoSaves);
    var r := SettleOutcome(entrants, ticket, prize, timestamp, principalCap);
    assert PrincipalsOf(entrants) == PrincipalsOf(v.participants);
    assert WinningsOf(entrants) == WinningsOf(v.participants);
    if r.Ok? {
      CrossingInterval(WeightsOf(entrants), ticket, 0);
      SettlementLaws(entrants, ticket, prize, timestamp, principalCap, 0);
      PostingsGoThrough(v.ledger, r.value);
      NobodyLoses(entrants, ticket, prize, timestamp, principalCap);
    }
  }

  lemma {:induction false} NobodyLoses(
      ps: seq<DrawParticipant>, ticket: int, prize: int, timestamp: int, principalCap: int)
    requires Refusal(ps, ticket, prize).Done?
    requires NonNegative(PrincipalsOf(ps)) && NonNegative(WinningsOf(ps))
    ensures var after := After(Settlement.Settlement(ps, ticket, prize, timestamp, principalCap));
      NonNegative(PrincipalsOf(after)) && NonNegative(WinningsOf(after))
  {
    var after := After(Settlement.Settlement(ps, ticket, prize, timestamp, principalCap));
    forall i | 0 <= i < |after| ensures 0 <= PrincipalsOf(after)[i] && 0 <= WinningsOf(after)[i] {
      SettlementLaws(ps, ticket, prize, timestamp, principalCap, i);
      assert 0 <= PrincipalsOf(ps)[i] && 0 <= WinningsOf(ps)[i];
    }
  }

  lemma {:induction false} EventKeepsAgreement(v: Vault, e: Event)
    requires Agrees(v) && Ready(v, e)
    ensures Agrees(Happen(v, e))
  {
    match e
    case Operate(op) => GuardsKeepSolvent(v.ledger, op);
    case HoldDraw(_, _, _, _, _, _) => DrawKeepsAgreement(v, e);
    case _ => SaverKeepsAgreement(v, e);
  }

  /** A history of events, each of them ready when it comes. */
  ghost predicate Reaches(v: Vault, events: seq<Event>, v': Vault)
    decreases |events|
  {
    if events == [] then v' == v
    else Ready(v, events[0]) && Reaches(Happen(v, events[0]), events[1..], v')
  }

  /** Draw and ledger agree after any sequence of funded draws, deposits, withdrawals, claims and ledger operations. */
  lemma {:induction false} HistoriesAgree(v: Vault, events: seq<Event>, v': Vault)
    requires Agrees(v) && Reaches(v, events, v')
    ensures Agrees(v') && |v'.participants| == |v.participants|
    decreases |events|
  {
    if events != [] {
      EventKeepsAgreement(v, events[0]);
      HistoriesAgree(Happen(v, events[0]), events[1..], v');
    }
  }

  lemma {:induction false} PartOfSum(s: seq<int>, i: nat)
    requires NonNegative(s) && i < |s|
    ensures 0 <= s[i] <= Sum(s)
  {
    TotalOfPrefixes(s, i);
    TotalOfPrefixes(s, i + 1);
    SumNext(s, i);
  }

  /** After any such history every saver can claim all or part of the winnings shown, at once and whatever the strategy has
      lost; principal shown can be taken as far as it is liquid; and a deposit is always taken in. */
  lemma {:induction false} SaversAreServed(v: Vault, events: seq<Event>, v': Vault, i: nat, amount: int)
    requires Agrees(v) && Reaches(v, events, v') && i < |v'.participants| && 0 < amount
    ensures var ps := v'.participants;
      && (amount <= ps[i].winnings ==>
            Happen(v', Claim(i, amount)).participants == Holding(ps, i, ps[i].principal, ps[i].winnings - amount))
      && (amount <= ps[i].principal && amount <= v'.ledger.liquidPrincipal ==>
            Happen(v', Take(i, amount)).participants == Holding(ps, i, ps[i].principal - amount, ps[i].winnings))
      && Happen(v', Save(i, amount)).participants == Holding(ps, i, ps[i].principal + amount, ps[i].winnings)
  {
    HistoriesAgree(v, events, v');
    PartOfSum(WinningsOf(v'.participants), i);
    SolventGuards(v'.ledger, amount);
  }
}
