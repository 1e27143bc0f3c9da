/** The category ledger: every operation, its guard, and the invariants no run can break. */
module Accounting {
  import opened Outcomes

  datatype AccountingSnapshot = AccountingSnapshot(
    principalLiability: int, liquidPrincipal: int, deployedPrincipal: int, principalInTransition: int,
    strategyShortfall: int, liquidPrizeAssets: int, realizedSurplus: int, reservedPrize: int, sponsoredPrize: int,
    winningsLiability: int, harvestedYield: int, sponsorContributions: int, allocatedWinnings: int,
    withdrawnWinnings: int, autoSavedWinnings: int)

  predicate Positives(s: AccountingSnapshot) {
    && 0 <= s.principalLiability && 0 <= s.liquidPrincipal && 0 <= s.deployedPrincipal
    && 0 <= s.principalInTransition && 0 <= s.strategyShortfall && 0 <= s.liquidPrizeAssets
    && 0 <= s.realizedSurplus && 0 <= s.reservedPrize && 0 <= s.sponsoredPrize && 0 <= s.winningsLiability
    && 0 <= s.harvestedYield && 0 <= s.sponsorContributions && 0 <= s.allocatedWinnings
    && 0 <= s.withdrawnWinnings && 0 <= s.autoSavedWinnings
  }

  /** Every category is zero. */
  predicate IsZero(s: AccountingSnapshot) {
    && s.principalLiability == 0 && s.liquidPrincipal == 0 && s.deployedPrincipal == 0
    && s.principalInTransition == 0 && s.strategyShortfall == 0 && s.liquidPrizeAssets == 0
    && s.realizedSurplus == 0 && s.reservedPrize == 0 && s.sponsoredPrize == 0 && s.winningsLiability == 0
    && s.harvestedYield == 0 && s.sponsorContributions == 0 && s.allocatedWinnings == 0
    && s.withdrawnWinnings == 0 && s.autoSavedWinnings == 0
  }

  /** All the principal there is, wherever it is held, losses included. */
  function Held(s: AccountingSnapshot): int {
    s.liquidPrincipal + s.deployedPrincipal + s.principalInTransition + s.strategyShortfall
  }

  /** No category is negative, and the three reconciliations hold. */
  predicate Reconciled(s: AccountingSnapshot) {
    && Positives(s)
    && Held(s) == s.principalLiability
    && s.realizedSurplus + s.sponsoredPrize + s.reservedPrize + s.winningsLiability == s.liquidPrizeAssets
    && s.harvestedYield + s.sponsorContributions == s.liquidPrizeAssets + s.withdrawnWinnings + s.autoSavedWinnings
  }

  /** What assertInvariants throws, if anything. */
  function AssertInvariants(s: AccountingSnapshot): (r: Outcome)
    ensures r.Done? <==> Reconciled(s)
  {
    if !Positives(s) then Thrown("negative accounting category")
    else if Held(s) != s.principalLiability
    then Thrown("principal reconciliation failed")
    else if s.realizedSurplus + s.sponsoredPrize + s.reservedPrize + s.winningsLiability != s.liquidPrizeAssets
    then Thrown("prize category reconciliation failed")
    else if s.harvestedYield + s.sponsorContributions != s.liquidPrizeAssets + s.withdrawnWinnings + s.autoSavedWinnings
    then Thrown("prize asset reconciliation failed")
    else Done
  }

  /** The checked invariants together with one the source leaves unstated. */
  predicate Solvent(s: AccountingSnapshot) {
    && Reconciled(s)
    && s.allocatedWinnings == s.winningsLiability + s.withdrawnWinnings + s.autoSavedWinnings
  }

  datatype Op =
    | DepositPrincipal(amount: int)
    | WithdrawPrincipal(amount: int)
    | DeployPrincipal(amount: int)
    | BeginAggregateDeployment(amount: int)
    | CompleteAggregateDeployment(amount: int)
    | CancelAggregateDeployment(amount: int)
    | RecognizeStrategyLoss(amount: int)
    | ReturnPrincipal(amount: int)
    | HarvestGenuineSurplus(amount: int)
    | Sponsor(amount: int)
    | ReservePrize(fromYield: int, fromSponsor: int)
    | AllocateWinnings(amount: int)
    | AutoSave(amount: int)
    | WithdrawWinnings(amount: int)

  /** The guards in front of each operation. */
  function Guard(s: AccountingSnapshot, op: Op): Outcome {
    if !op.ReservePrize? && op.amount <= 0 then Thrown("amount must be positive")
    else
      match op
      case WithdrawPrincipal(amount) =>
        if amount > s.principalLiability || amount > s.liquidPrincipal
        then Thrown("insufficient principal liquidity") else Done
      case DeployPrincipal(amount) =>
        if amount > s.liquidPrincipal then Thrown("insufficient liquid principal") else Done
      case BeginAggregateDeployment(amount) =>
        if amount > s.liquidPrincipal then Thrown("insufficient liquid principal") else Done
      case CompleteAggregateDeployment(amount) =>
        if amount > s.principalInTransition then Thrown("excess deployment completion") else Done
      case CancelAggregateDeployment(amount) =>
        if amount > s.principalInTransition then Thrown("excess deployment cancellation") else Done
      case RecognizeStrategyLoss(amount) =>
        if amount > s.deployedPrincipal then Thrown("loss exceeds deployed basis") else Done
      case ReturnPrincipal(amount) =>
        if amount > s.deployedPrincipal then Thrown("excess principal return") else Done
      case ReservePrize(fromYield, fromSponsor) =>
        if fromYield < 0 || fromSponsor < 0 then Thrown("negative prize source")
        else if fromYield > s.realizedSurplus || fromSponsor > s.sponsoredPrize then Thrown("unfunded prize")
        else Done
      case AllocateWinnings(amount) =>
        if amount > s.reservedPrize then Thrown("unreserved winnings") else Done
      case AutoSave(amount) =>
        if amount > s.winningsLiability then Thrown("excess auto-save") else Done
      case WithdrawWinnings(amount) =>
        if amount > s.winningsLiability || amount > s.liquidPrizeAssets
        then Thrown("insufficient winnings liquidity") else Done
      case _ => Done
  }

  /** What each operation does once past its guards. */
  function Effect(s: AccountingSnapshot, op: Op): AccountingSnapshot {
    match op
    case DepositPrincipal(x) =>
      s.(principalLiability := s.principalLiability + x, liquidPrincipal := s.liquidPrincipal + x)
    case WithdrawPrincipal(x) =>
      s.(principalLiability := s.principalLiability - x, liquidPrincipal := s.liquidPrincipal - x)
    case DeployPrincipal(x) =>
      s.(liquidPrincipal := s.liquidPrincipal - x, deployedPrincipal := s.deployedPrincipal + x)
    case BeginAggregateDeployment(x) =>
      s.(liquidPrincipal := s.liquidPrincipal - x, principalInTransition := s.principalInTransition + x)
    case CompleteAggregateDeployment(x) =>
      s.(principalInTransition := s.principalInTransition - x, deployedPrincipal := s.deployedPrincipal + x)
    case CancelAggregateDeployment(x) =>
      s.(principalInTransition := s.principalInTransition - x, liquidPrincipal := s.liquidPrincipal + x)
    case RecognizeStrategyLoss(x) =>
      s.(deployedPrincipal := s.deployedPrincipal - x, strategyShortfall := s.strategyShortfall + x)
    case ReturnPrincipal(x) =>
      s.(deployedPrincipal := s.deployedPrincipal - x, liquidPrincipal := s.liquidPrincipal + x)
    case HarvestGenuineSurplus(x) =>
      s.(liquidPrizeAssets := s.liquidPrizeAssets + x, realizedSurplus := s.realizedSurplus + x,
         harvestedYield := s.harvestedYield + x)
    case Sponsor(x) =>
      s.(liquidPrizeAssets := s.liquidPrizeAssets + x, sponsoredPrize := s.sponsoredPrize + x,
         sponsorContributions := s.sponsorContributions + x)
    case ReservePrize(y, z) =>
      s.(realizedSurplus := s.realizedSurplus - y, sponsoredPrize := s.sponsoredPrize - z,
         reservedPrize := s.reservedPrize + (y + z))
    case AllocateWinnings(x) =>
      s.(reservedPrize := s.reservedPrize - x, winningsLiability := s.winningsLiability + x,
         allocatedWinnings := s.allocatedWinnings + x)
    case AutoSave(x) =>
      s.(winningsLiability := s.winningsLiability - x, liquidPrizeAssets := s.liquidPrizeAssets - x,
         principalLiability := s.principalLiability + x, liquidPrincipal := s.liquidPrincipal + x,
         autoSavedWinnings := s.autoSavedWinnings + x)
    case WithdrawWinnings(x) =>
      s.(winningsLiability := s.winningsLiability - x, liquidPrizeAssets := s.liquidPrizeAssets - x,
         withdrawnWinnings := s.withdrawnWinnings + x)
  }

  function Applied(s: AccountingSnapshot, op: Op): AccountingSnapshot {
    if Guard(s, op).Done? then Effect(s, op) else s
  }

  lemma GuardsKeepPositives(s: AccountingSnapshot, op: Op)
    requires Solvent(s)
    ensures Positives(Applied(s, op))
  {
  }

  lemma SidesStep(s: AccountingSnapshot, op: Op)
    ensures var t := Applied(s, op);
      && Held(t) - Held(s) == t.principalLiability - s.principalLiability
      && (t.realizedSurplus + t.sponsoredPrize + t.reservedPrize + t.winningsLiability)
         - (s.realizedSurplus + s.sponsoredPrize + s.reservedPrize + s.winningsLiability)
         == t.liquidPrizeAssets - s.liquidPrizeAssets
      && (t.harvestedYield + t.sponsorContributions) - (s.harvestedYield + s.sponsorContributions)
         == (t.liquidPrizeAssets + t.withdrawnWinnings + t.autoSavedWinnings)
            - (s.liquidPrizeAssets + s.withdrawnWinnings + s.autoSavedWinnings)
      && t.allocatedWinnings - s.allocatedWinnings
         == (t.winningsLiability + t.withdrawnWinnings + t.autoSavedWinnings)
            - (s.winningsLiability + s.withdrawnWinnings + s.autoSavedWinnings)
  {
  }

  /** The guards alone keep the ledger solvent, so assertInvariants cannot throw after any operation. */
  lemma GuardsKeepSolvent(s: AccountingSnapshot, op: Op)
    requires Solvent(s)
    ensures Solvent(Applied(s, op))
  {
    GuardsKeepPositives(s, op);
    SidesStep(s, op);
  }

  // The empty ledger is solvent. Its two sides are proved apart: the sums of zeros together can keep the solver busy.

  lemma EmptyPrincipal(s: AccountingSnapshot)
    requires IsZero(s)
    ensures Positives(s) && Held(s) == s.principalLiability
  {
  }

  lemma EmptyPrizes(s: AccountingSnapshot)
    requires IsZero(s)
    ensures s.realizedSurplus + s.sponsoredPrize + s.reservedPrize + s.winningsLiability == s.liquidPrizeAssets
    ensures s.harvestedYield + s.sponsorContributions == s.liquidPrizeAssets + s.withdrawnWinnings + s.autoSavedWinnings
    ensures s.allocatedWinnings == s.winningsLiability + s.withdrawnWinnings + s.autoSavedWinnings
  {
  }

  lemma EmptyIsSolvent(s: AccountingSnapshot)
    requires IsZero(s)
    ensures Solvent(s)
  {
    EmptyPrincipal(s);
    EmptyPrizes(s);
  }

  /** The class of the source; each method ends as its guard says, never in assertInvariants. */
  class AccountingReferenceModel {
    var state: AccountingSnapshot

    ghost predicate Valid()
      reads this
    {
      Solvent(state)
    }

    /** How a method is proved: the state moves as `Applied` says and the outcome is that of the guard. */
    twostate predicate Performs(op: Op, r: Outcome)
      reads this
    {
      Valid() && state == Applied(old(state), op) && r == Guard(old(state), op)
    }

    constructor ()
      ensures Valid() && IsZero(state)
    {
      state := AccountingSnapshot(0, 0, 0, 0, 0, 0, 0, 0, 0, 0, 0, 0, 0, 0, 0);
      new;
      EmptyIsSolvent(state);
    }

    method DepositPrincipal(amount: int) returns (r: Outcome)
      requires Valid()
      modifies this
      ensures Performs(Op.DepositPrincipal(amount), r)
    {
      if amount <= 0 {
        return Thrown("amount must be positive");
      }
      state := state.(principalLiability := state.principalLiability + amount);
      state := state.(liquidPrincipal := state.liquidPrincipal + amount);
      r := AssertInvariants(state);
    }

    method WithdrawPrincipal(amount: int) returns (r: Outcome)
      requires Valid()
      modifies this
      ensures Performs(Op.WithdrawPrincipal(amount), r)
    {
      if amount <= 0 {
        return Thrown("amount must be positive");
      }
      if amount > state.principalLiability || amount > state.liquidPrincipal {
        return Thrown("insufficient principal liquidity");
      }
      state := state.(principalLiability := state.principalLiability - amount);
      state := state.(liquidPrincipal := state.liquidPrincipal - amount);
      r := AssertInvariants(state);
    }

    method DeployPrincipal(amount: int) returns (r: Outcome)
      requires Valid()
      modifies this
      ensures Performs(Op.DeployPrincipal(amount), r)
    {
      if amount <= 0 {
        return Thrown("amount must be positive");
      }
      if amount > state.liquidPrincipal {
        return Thrown("insufficient liquid principal");
      }
      state := state.(liquidPrincipal := state.liquidPrincipal - amount);
      state := state.(deployedPrincipal := state.deployedPrincipal + amount);
      r := AssertInvariants(state);
    }

    method BeginAggregateDeployment(amount: int) returns (r: Outcome)
      requires Valid()
      modifies this
      ensures Performs(Op.BeginAggregateDeployment(amount), r)
    {
      if amount <= 0 {
        return Thrown("amount must be positive");
      }
      if amount > state.liquidPrincipal {
        return Thrown("insufficient liquid principal");
      }
      state := state.(liquidPrincipal := state.liquidPrincipal - amount);
      state := state.(principalInTransition := state.principalInTransition + amount);
      r := AssertInvariants(state);
    }

    method CompleteAggregateDeployment(amount: int) returns (r: Outcome)
      requires Valid()
      modifies this
      ensures Performs(Op.CompleteAggregateDeployment(amount), r)
    {
      if amount <= 0 {
        return Thrown("amount must be positive");
      }
      if amount > state.principalInTransition {
        return Thrown("excess deployment completion");
      }
      state := state.(principalInTransition := state.principalInTransition - amount);
      state := state.(deployedPrincipal := state.deployedPrincipal + amount);
      r := AssertInvariants(state);
    }

    method CancelAggregateDeployment(amount: int) returns (r: Outcome)
      requires Valid()
      modifies this
      ensures Performs(Op.CancelAggregateDeployment(amount), r)
    {
      if amount <= 0 {
        return Thrown("amount must be positive");
      }
      if amount > state.principalInTransition {
        return Thrown("excess deployment cancellation");
      }
      state := state.(principalInTransition := state.principalInTransition - amount);
      state := state.(liquidPrincipal := state.liquidPrincipal + amount);
      r := AssertInvariants(state);
    }

    method RecognizeStrategyLoss(amount: int) returns (r: Outcome)
      requires Valid()
      modifies this
      ensures Performs(Op.RecognizeStrategyLoss(amount), r)
    {
      if amount <= 0 {
        return Thrown("amount must be positive");
      }
      if amount > state.deployedPrincipal {
        return Thrown("loss exceeds deployed basis");
      }
      state := state.(deployedPrincipal := state.deployedPrincipal - amount);
      state := state.(strategyShortfall := state.strategyShortfall + amount);
      r := AssertInvariants(state);
    }

    method ReturnPrincipal(amount: int) returns (r: Outcome)
      requires Valid()
      modifies this
      ensures Performs(Op.ReturnPrincipal(amount), r)
    {
      if amount <= 0 {
        return Thrown("amount must be positive");
      }
      if amount > state.deployedPrincipal {
        return Thrown("excess principal return");
      }
      state := state.(deployedPrincipal := state.deployedPrincipal - amount);
      state := state.(liquidPrincipal := state.liquidPrincipal + amount);
      r := AssertInvariants(state);
    }

    method HarvestGenuineSurplus(amount: int) returns (r: Outcome)
      requires Valid()
      modifies this
      ensures Performs(Op.HarvestGenuineSurplus(amount), r)
    {
      if amount <= 0 {
        return Thrown("amount must be positive");
      }
      state := state.(liquidPrizeAssets := state.liquidPrizeAssets + amount);
      state := state.(realizedSurplus := state.realizedSurplus + amount);
      state := state.(harvestedYield := state.harvestedYield + amount);
      r := AssertInvariants(state);
    }

    method Sponsor(amount: int) returns (r: Outcome)
      requires Valid()
      modifies this
      ensures Performs(Op.Sponsor(amount), r)
    {
      if amount <= 0 {
        return Thrown("amount must be positive");
      }
      state := state.(liquidPrizeAssets := state.liquidPrizeAssets + amount);
      state := state.(sponsoredPrize := state.sponsoredPrize + amount);
      state := state.(sponsorContributions := state.sponsorContributions + amount);
      r := AssertInvariants(state);
    }

    method ReservePrize(fromYield: int, fromSponsor: int) returns (r: Outcome)
      requires Valid()
      modifies this
      ensures Performs(Op.ReservePrize(fromYield, fromSponsor), r)
    {
      if fromYield < 0 || fromSponsor < 0 {
        return Thrown("negative prize source");
      }
      if fromYield > state.realizedSurplus || fromSponsor > state.sponsoredPrize {
        return Thrown("unfunded prize");
      }
      state := state.(realizedSurplus := state.realizedSurplus - fromYield);
      state := state.(sponsoredPrize := state.sponsoredPrize - fromSponsor);
      state := state.(reservedPrize := state.reservedPrize + (fromYield + fromSponsor));
      r := AssertInvariants(state);
    }

    method AllocateWinnings(amount: int) returns (r: Outcome)
      requires Valid()
      modifies this
      ensures Performs(Op.AllocateWinnings(amount), r)
    {
      if amount <= 0 {
        return Thrown("amount must be positive");
      }
      if amount > state.reservedPrize {
        return Thrown("unreserved winnings");
      }
      state := state.(reservedPrize := state.reservedPrize - amount);
      state := state.(winningsLiability := state.winningsLiability + amount);
      state := state.(allocatedWinnings := state.allocatedWinnings + amount);
      r := AssertInvariants(state);
    }

    method AutoSave(amount: int) returns (r: Outcome)
      requires Valid()
      modifies this
      ensures Performs(Op.AutoSave(amount), r)
    {
      if amount <= 0 {
        return Thrown("amount must be positive");
      }
      if amount > state.winningsLiability {
        return Thrown("excess auto-save");
      }
      state := state.(winningsLiability := state.winningsLiability - amount);
      state := state.(liquidPrizeAssets := state.liquidPrizeAssets - amount);
      state := state.(principalLiability := state.principalLiability + amount);
      state := state.(liquidPrincipal := state.liquidPrincipal + amount);
      state := state.(autoSavedWinnings := state.autoSavedWinnings + amount);
      r := AssertInvariants(state);
    }

    method WithdrawWinnings(amount: int) returns (r: Outcome)
      requires Valid()
      modifies this
      ensures Performs(Op.WithdrawWinnings(amount), r)
    {
      if amount <= 0 {
        return Thrown("amount must be positive");
      }
      if amount > state.winningsLiability || amount > state.liquidPrizeAssets {
        return Thrown("insufficient winnings liquidity");
      }
      state := state.(winningsLiability := state.winningsLiability - amount);
      state := state.(liquidPrizeAssets := state.liquidPrizeAssets - amount);
      state := state.(withdrawnWinnings := state.withdrawnWinnings + amount);
      r := AssertInvariants(state);
    }
  }

  // ----- whole runs -----

  function Run(s: AccountingSnapshot, ops: seq<Op>): AccountingSnapshot {
    if ops == [] then s else Applied(Run(s, ops[..|ops| - 1]), ops[|ops| - 1])
  }

  // What an operation asks for, by kind.
  function Deposited(op: Op): int { if op.DepositPrincipal? then op.amount else 0 }
  function PaidOut(op: Op): int { if op.WithdrawPrincipal? then op.amount else 0 }
  function Deployed(op: Op): int { if op.DeployPrincipal? then op.amount else 0 }
  function Begun(op: Op): int { if op.BeginAggregateDeployment? then op.amount else 0 }
  function Completed(op: Op): int { if op.CompleteAggregateDeployment? then op.amount else 0 }
  function Cancelled(op: Op): int { if op.CancelAggregateDeployment? then op.amount else 0 }
  function Lost(op: Op): int { if op.RecognizeStrategyLoss? then op.amount else 0 }
  function Returned(op: Op): int { if op.ReturnPrincipal? then op.amount else 0 }
  function Harvested(op: Op): int { if op.HarvestGenuineSurplus? then op.amount else 0 }
  function Sponsored(op: Op): int { if op.Sponsor? then op.amount else 0 }
  function YieldReserved(op: Op): int { if op.ReservePrize? then op.fromYield else 0 }
  function SponsorReserved(op: Op): int { if op.ReservePrize? then op.fromSponsor else 0 }
  function Allocated(op: Op): int { if op.AllocateWinnings? then op.amount else 0 }
  function AutoSaved(op: Op): int { if op.AutoSave? then op.amount else 0 }
  function Claimed(op: Op): int { if op.WithdrawWinnings? then op.amount else 0 }

  /** The sum, over the operations of a run that went through, of what they ask for. */
  function Through(s: AccountingSnapshot, ops: seq<Op>, asks: Op -> int): int {
    if ops == [] then 0
    else
      var front, last := ops[..|ops| - 1], ops[|ops| - 1];
      Through(s, front, asks) + Went(Run(s, front), last, asks)
  }

  function Went(s: AccountingSnapshot, op: Op, asks: Op -> int): int {
    if Guard(s, op).Done? then asks(op) else 0
  }

  /** Solvency over every run: the invariants hold after it, and the principal held as liquid, deployed, in transition or
      written off has changed by exactly what was deposited and auto-saved less what was paid out. */
  lemma {:induction false} RunsKeepSolvent(s: AccountingSnapshot, ops: seq<Op>)
    requires Solvent(s)
    ensures Solvent(Run(s, ops))
    ensures Held(Run(s, ops)) - Held(s)
         == Through(s, ops, Deposited) + Through(s, ops, AutoSaved) - Through(s, ops, PaidOut)
  {
    if ops != [] {
      RunsKeepSolvent(s, ops[..|ops| - 1]);
      GuardsKeepSolvent(Run(s, ops[..|ops| - 1]), ops[|ops| - 1]);
    }
  }

  lemma PrincipalStep(s: AccountingSnapshot, op: Op)
    ensures var t := Applied(s, op);
      && t.principalLiability - s.principalLiability
         == Went(s, op, Deposited) + Went(s, op, AutoSaved) - Went(s, op, PaidOut)
      && t.liquidPrincipal - s.liquidPrincipal
         == Went(s, op, Deposited) + Went(s, op, AutoSaved) + Went(s, op, Cancelled) + Went(s, op, Returned)
            - Went(s, op, PaidOut) - Went(s, op, Deployed) - Went(s, op, Begun)
      && t.deployedPrincipal - s.deployedPrincipal
         == Went(s, op, Deployed) + Went(s, op, Completed) - Went(s, op, Returned) - Went(s, op, Lost)
      && t.principalInTransition - s.principalInTransition
         == Went(s, op, Begun) - Went(s, op, Completed) - Went(s, op, Cancelled)
      && t.strategyShortfall - s.strategyShortfall == Went(s, op, Lost)
  {
  }

  /** Where principal is, after every run: each place has what went in by its own operations, less what went out by its
      own. A loss moves principal out of deployment and into the shortfall, and nothing ever brings it back. */
  lemma {:induction false} PrincipalFlows(s: AccountingSnapshot, ops: seq<Op>)
    ensures var t := Run(s, ops);
      && t.principalLiability - s.principalLiability
         == Through(s, ops, Deposited) + Through(s, ops, AutoSaved) - Through(s, ops, PaidOut)
      && t.liquidPrincipal - s.liquidPrincipal
         == Through(s, ops, Deposited) + Through(s, ops, AutoSaved) + Through(s, ops, Cancelled) + Through(s, ops, Returned)
            - Through(s, ops, PaidOut) - Through(s, ops, Deployed) - Through(s, ops, Begun)
      && t.deployedPrincipal - s.deployedPrincipal
         == Through(s, ops, Deployed) + Through(s, ops, Completed) - Through(s, ops, Returned) - Through(s, ops, Lost)
      && t.principalInTransition - s.principalInTransition
         == Through(s, ops, Begun) - Through(s, ops, Completed) - Through(s, ops, Cancelled)
      && t.strategyShortfall - s.strategyShortfall == Through(s, ops, Lost)
  {
    if ops != [] {
      PrincipalFlows(s, ops[..|ops| - 1]);
      PrincipalStep(Run(s, ops[..|ops| - 1]), ops[|ops| - 1]);
    }
  }

  lemma PrizeStep(s: AccountingSnapshot, op: Op)
    ensures var t := Applied(s, op);
      && t.realizedSurplus - s.realizedSurplus == Went(s, op, Harvested) - Went(s, op, YieldReserved)
      && t.sponsoredPrize - s.sponsoredPrize == Went(s, op, Sponsored) - Went(s, op, SponsorReserved)
      && t.reservedPrize - s.reservedPrize
         == Went(s, op, YieldReserved) + Went(s, op, SponsorReserved) - Went(s, op, Allocated)
      && t.winningsLiability - s.winningsLiability
         == Went(s, op, Allocated) - Went(s, op, AutoSaved) - Went(s, op, Claimed)
      && t.liquidPrizeAssets - s.liquidPrizeAssets
         == Went(s, op, Harvested) + Went(s, op, Sponsored) - Went(s, op, AutoSaved) - Went(s, op, Claimed)
  {
  }

  /** Where prize money is: yield and contributions come in apart and stay apart until they are reserved; what is reserved
      becomes winnings, and winnings are claimed or saved. */
  lemma {:induction false} PrizeFlows(s: AccountingSnapshot, ops: seq<Op>)
    ensures var t := Run(s, ops);
      && t.realizedSurplus - s.realizedSurplus == Through(s, ops, Harvested) - Through(s, ops, YieldReserved)
      && t.sponsoredPrize - s.sponsoredPrize == Through(s, ops, Sponsored) - Through(s, ops, SponsorReserved)
      && t.reservedPrize - s.reservedPrize
         == Through(s, ops, YieldReserved) + Through(s, ops, SponsorReserved) - Through(s, ops, Allocated)
      && t.winningsLiability - s.winningsLiability
         == Through(s, ops, Allocated) - Through(s, ops, AutoSaved) - Through(s, ops, Claimed)
      && t.liquidPrizeAssets - s.liquidPrizeAssets
         == Through(s, ops, Harvested) + Through(s, ops, Sponsored) - Through(s, ops, AutoSaved) - Through(s, ops, Claimed)
  {
    if ops != [] {
      PrizeFlows(s, ops[..|ops| - 1]);
      PrizeStep(Run(s, ops[..|ops| - 1]), ops[|ops| - 1]);
    }
  }

  lemma TotalStep(s: AccountingSnapshot, op: Op)
    ensures var t := Applied(s, op);
      && t.harvestedYield - s.harvestedYield == Went(s, op, Harvested)
      && t.sponsorContributions - s.sponsorContributions == Went(s, op, Sponsored)
      && t.allocatedWinnings - s.allocatedWinnings == Went(s, op, Allocated)
      && t.autoSavedWinnings - s.autoSavedWinnings == Went(s, op, AutoSaved)
      && t.withdrawnWinnings - s.withdrawnWinnings == Went(s, op, Claimed)
  {
  }

  /** The five running totals count each its own operation. */
  lemma {:induction false} TotalFlows(s: AccountingSnapshot, ops: seq<Op>)
    ensures var t := Run(s, ops);
      && t.harvestedYield - s.harvestedYield == Through(s, ops, Harvested)
      && t.sponsorContributions - s.sponsorContributions == Through(s, ops, Sponsored)
      && t.allocatedWinnings - s.allocatedWinnings == Through(s, ops, Allocated)
      && t.autoSavedWinnings - s.autoSavedWinnings == Through(s, ops, AutoSaved)
      && t.withdrawnWinnings - s.withdrawnWinnings == Through(s, ops, Claimed)
  {
    if ops != [] {
      TotalFlows(s, ops[..|ops| - 1]);
      TotalStep(Run(s, ops[..|ops| - 1]), ops[|ops| - 1]);
    }
  }

  /** What an operation draws on, if it draws on anything. */
  predicate Covered(s: AccountingSnapshot, op: Op) {
    match op
    case WithdrawPrincipal(x) => x <= s.liquidPrincipal
    case DeployPrincipal(x) => x <= s.liquidPrincipal
    case BeginAggregateDeployment(x) => x <= s.liquidPrincipal
    case CompleteAggregateDeployment(x) => x <= s.principalInTransition
    case CancelAggregateDeployment(x) => x <= s.principalInTransition
    case RecognizeStrategyLoss(x) => x <= s.deployedPrincipal
    case ReturnPrincipal(x) => x <= s.deployedPrincipal
    case ReservePrize(y, z) => y <= s.realizedSurplus && z <= s.sponsoredPrize
    case AllocateWinnings(x) => x <= s.reservedPrize
    case AutoSave(x) => x <= s.winningsLiability
    case WithdrawWinnings(x) => x <= s.winningsLiability
    case _ => true
  }

  predicate Proper(op: Op) {
    if op.ReservePrize? then 0 <= op.fromYield && 0 <= op.fromSponsor else 0 < op.amount
  }

  /** On every run an operation goes through iff its amount is positive, for a reservation not negative, and the one
      category it draws on covers it. */
  lemma {:induction false} GoesThroughIffCovered(s: AccountingSnapshot, ops: seq<Op>, op: Op)
    requires Solvent(s)
    ensures Guard(Run(s, ops), op).Done? <==> Proper(op) && Covered(Run(s, ops), op)
    ensures Guard(Run(s, ops), op).Thrown? ==> Run(s, ops + [op]) == Run(s, ops)
  {
    RunsKeepSolvent(s, ops);
    assert (ops + [op])[..|ops|] == ops;
  }

  /** What one operation undoes of another, and what two of them add up to. */
  lemma UndoLaws(s: AccountingSnapshot, x: int)
    requires Solvent(s) && 0 < x
    ensures Applied(Applied(s, Op.DepositPrincipal(x)), Op.WithdrawPrincipal(x)) == s
    ensures x <= s.liquidPrincipal ==>
      && Applied(Applied(s, Op.DeployPrincipal(x)), Op.ReturnPrincipal(x)) == s
      && Applied(Applied(s, Op.BeginAggregateDeployment(x)), Op.CancelAggregateDeployment(x)) == s
      && Applied(Applied(s, Op.BeginAggregateDeployment(x)), Op.CompleteAggregateDeployment(x))
         == Applied(s, Op.DeployPrincipal(x))
  {
  }

  lemma SolventGuards(s: AccountingSnapshot, amount: int)
    requires Solvent(s)
    ensures Guard(s, Op.WithdrawWinnings(amount)).Done? <==> 0 < amount <= s.winningsLiability
    ensures Guard(s, Op.WithdrawPrincipal(amount)).Done? <==> 0 < amount <= s.liquidPrincipal
  {
  }

  /** Two guards of the source are implied by the others on every run: savers with a claim on winnings are always liquid,
      and liquid principal is never more than is owed. */
  lemma {:induction false} RedundantGuards(s: AccountingSnapshot, ops: seq<Op>, amount: int)
    requires Solvent(s)
    ensures Guard(Run(s, ops), Op.WithdrawWinnings(amount)).Done? <==> 0 < amount <= Run(s, ops).winningsLiability
    ensures Guard(Run(s, ops), Op.WithdrawPrincipal(amount)).Done? <==> 0 < amount <= Run(s, ops).liquidPrincipal
  {
    RunsKeepSolvent(s, ops);
    SolventGuards(Run(s, ops), amount);
  }
}
