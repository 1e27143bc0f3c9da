/** Private settlement of a draw: the winner by prefix sums, the prize to principal or to winnings. */
module Settlement {
  import opened Outcomes
  import opened Weights
  import opened Rejection

  datatype DrawParticipant = DrawParticipant(
    account: string, weight: int, principal: int, winnings: int, autoSave: bool)

  datatype SettledParticipant = SettledParticipant(
    participant: DrawParticipant, winner: bool, autoSavedPrize: int, keptPrize: int, autoSaveTimestamp: Option<int>)

  datatype DrawSettlementResult = DrawSettlementResult(
    totalWeight: int, winnerIndex: int, finalCumulative: int, allocatedPrize: int,
    principalAdded: int, winningsAdded: int, participants: seq<SettledParticipant>)

  function WeightsOf(ps: seq<DrawParticipant>): (s: seq<int>)
    ensures |s| == |ps|
  {
    seq(|ps|, i requires 0 <= i < |ps| => ps[i].weight)
  }

  function PrincipalsOf(ps: seq<DrawParticipant>): (s: seq<int>)
    ensures |s| == |ps|
  {
    seq(|ps|, i requires 0 <= i < |ps| => ps[i].principal)
  }

  function WinningsOf(ps: seq<DrawParticipant>): (s: seq<int>)
    ensures |s| == |ps|
  {
    seq(|ps|, i requires 0 <= i < |ps| => ps[i].winnings)
  }

  // ----- specification -----

  /** Why a settlement is refused, if it is. */
  function Refusal(ps: seq<DrawParticipant>, ticket: int, prize: int): Outcome {
    if prize < 0 then Thrown("negative prize")
    else if Sum(WeightsOf(ps)) <= 0 then Thrown("empty round")
    else if !(0 <= ticket < Sum(WeightsOf(ps))) then Thrown("ticket outside aggregate")
    else if !NonNegative(WeightsOf(ps)) then Thrown("negative weight")
    else Done
  }

  function WinnerOf(ps: seq<DrawParticipant>, ticket: int): int {
    FirstCrossing(WeightsOf(ps), ticket)
  }

  /** The winner's prize goes to principal when the winner asked for it and the pool stays within its cap. */
  function SavedPrize(ps: seq<DrawParticipant>, ticket: int, prize: int, principalCap: int): int {
    var w := WinnerOf(ps, ticket);
    if 0 <= w < |ps| && ps[w].autoSave && Sum(PrincipalsOf(ps)) + prize <= principalCap then prize else 0
  }

  function Settled(p: DrawParticipant, winner: bool, saved: int, kept: int, timestamp: int): SettledParticipant {
    SettledParticipant(
      p.(principal := p.principal + saved, winnings := p.winnings + kept),
      winner, saved, kept, if saved > 0 then Some(timestamp) else None)
  }

  /** Row `i` after the prize went to row `w`, `saved` of it into principal. */
  function PaidRow(p: DrawParticipant, i: int, w: int, saved: int, prize: int, timestamp: int): SettledParticipant {
    if i == w then Settled(p, true, saved, prize - saved, timestamp) else Settled(p, false, 0, 0, timestamp)
  }

  /** What one settlement does, said declaratively: only the winner's row changes. */
  function Settlement(ps: seq<DrawParticipant>, ticket: int, prize: int, timestamp: int, principalCap: int)
      : DrawSettlementResult
  {
    var w, saved := WinnerOf(ps, ticket), SavedPrize(ps, ticket, prize, principalCap);
    DrawSettlementResult(
      Sum(WeightsOf(ps)), w, Sum(WeightsOf(ps)), prize, saved, prize - saved,
      seq(|ps|, i requires 0 <= i < |ps| => PaidRow(ps[i], i, w, saved, prize, timestamp)))
  }

  function SettleOutcome(ps: seq<DrawParticipant>, ticket: int, prize: int, timestamp: int, principalCap: int)
      : Result<DrawSettlementResult>
  {
    var refusal := Refusal(ps, ticket, prize);
    if refusal.Thrown? then Err(refusal.error) else Ok(Settlement(ps, ticket, prize, timestamp, principalCap))
  }

  // ----- the three passes of the source -----

  method Reduce(s: seq<int>) returns (total: int)
    ensures total == Sum(s)
  {
    total := 0;
    for i := 0 to |s|
      invariant total == Sum(s[..i])
    {
      SumNext(s, i);
      total := total + s[i];
    }
    assert s[..|s|] == s;
  }

  /** One predicate per participant, from a running cumulative weight. */
  method SelectWinner(ps: seq<DrawParticipant>, ticket: int)
      returns (predicates: seq<bool>, winnerIndex: int, cumulative: int, count: nat)
    requires NonNegative(WeightsOf(ps)) && 0 <= ticket < Sum(WeightsOf(ps))
    ensures cumulative == Sum(WeightsOf(ps)) && count == 1
    ensures 0 <= winnerIndex < |ps| && winnerIndex == WinnerOf(ps, ticket)
    ensures |predicates| == |ps| && forall i :: 0 <= i < |ps| ==> (predicates[i] <==> i == winnerIndex)
  {
    var weights := WeightsOf(ps);
    ghost var w := WinnerOf(ps, ticket);
    predicates, winnerIndex, cumulative, count := [], -1, 0, 0;
    CrossingInterval(weights, ticket, 0);
    for i := 0 to |ps|
      invariant cumulative == Sum(weights[..i])
      invariant |predicates| == i && forall j :: 0 <= j < i ==> (predicates[j] <==> j == w)
      invariant winnerIndex == if w < i then w else -1
      invariant count == if w < i then 1 else 0
    {
      SumNext(weights, i);
      CrossingInterval(weights, ticket, i);
      var start := cumulative;
      cumulative := cumulative + ps[i].weight;
      var winner := ps[i].weight > 0 && ticket >= start && ticket < cumulative;
      if winner {
        winnerIndex, count := i, count + 1;
      }
      predicates := predicates + [winner];
    }
    assert weights[..|ps|] == weights;
  }

  /** The payout pass: the running principal total decides whether a prize is saved. */
  method Payout(ps: seq<DrawParticipant>, predicates: seq<bool>, ghost w: int,
                prize: int, timestamp: int, principalCap: int)
      returns (settled: seq<SettledParticipant>, principalAdded: int, winningsAdded: int)
    requires 0 <= w < |ps| == |predicates| && forall i :: 0 <= i < |ps| ==> (predicates[i] <==> i == w)
    ensures var saved := if ps[w].autoSave && Sum(PrincipalsOf(ps)) + prize <= principalCap then prize else 0;
      && principalAdded == saved && winningsAdded == prize - saved
      && |settled| == |ps|
      && forall i :: 0 <= i < |ps| ==> settled[i] == PaidRow(ps[i], i, w, saved, prize, timestamp)
  {
    var totalPrincipal := Reduce(PrincipalsOf(ps));
    ghost var saved := if ps[w].autoSave && Sum(PrincipalsOf(ps)) + prize <= principalCap then prize else 0;
    settled, principalAdded, winningsAdded := [], 0, 0;
    for index := 0 to |ps|
      invariant totalPrincipal == Sum(PrincipalsOf(ps)) + principalAdded
      invariant if index <= w then principalAdded == winningsAdded == 0
                else principalAdded == saved && winningsAdded == prize - saved
      invariant |settled| == index
      invariant forall i :: 0 <= i < index ==> settled[i] == PaidRow(ps[i], i, w, saved, prize, timestamp)
    {
      var won := if predicates[index] then prize else 0;
      var canAutoSave := ps[index].autoSave && totalPrincipal + won <= principalCap;
      var autoSavedPrize := if canAutoSave then won else 0;
      var keptPrize := won - autoSavedPrize;
      totalPrincipal := totalPrincipal + autoSavedPrize;
      principalAdded := principalAdded + autoSavedPrize;
      winningsAdded := winningsAdded + keptPrize;
      settled := settled + [SettledParticipant(
        ps[index].(principal := ps[index].principal + autoSavedPrize, winnings := ps[index].winnings + keptPrize),
        predicates[index], autoSavedPrize, keptPrize,
        if autoSavedPrize > 0 then Some(timestamp) else None)];
    }
  }

  /** The whole settlement. Its two internal checks, "winner reconciliation failed" and "prize conservation failed", are
      not among the outcomes it can have. */
  method SettlePrivateDraw(ps: seq<DrawParticipant>, ticket: int, prize: int, timestamp: int, principalCap: int)
      returns (r: Result<DrawSettlementResult>)
    ensures r == SettleOutcome(ps, ticket, prize, timestamp, principalCap)
  {
    if prize < 0 {
      return Err("negative prize");
    }
    var totalWeight := Reduce(WeightsOf(ps));
    if totalWeight <= 0 {
      return Err("empty round");
    }
    if ticket < 0 || ticket >= totalWeight {
      return Err("ticket outside aggregate");
    }
    if exists i :: 0 <= i < |ps| && WeightsOf(ps)[i] < 0 {
      return Err("negative weight");
    }
    var predicates, winnerIndex, cumulative, count := SelectWinner(ps, ticket);
    if cumulative != totalWeight || count != 1 || winnerIndex < 0 {
      return Err("winner reconciliation failed");
    }
    var settled, principalAdded, winningsAdded :=
      Payout(ps, predicates, winnerIndex, prize, timestamp, principalCap);
    if principalAdded + winningsAdded != prize {
      return Err("prize conservation failed");
    }
    r := Ok(DrawSettlementResult(
      totalWeight, winnerIndex, cumulative, prize, principalAdded, winningsAdded, settled));
    assert r.value.participants == Settlement(ps, ticket, prize, timestamp, principalCap).participants;
  }

  // ----- what a settlement means -----

  function After(r: DrawSettlementResult): (ps: seq<DrawParticipant>)
    ensures |ps| == |r.participants|
  {
    seq(|r.participants|, i requires 0 <= i < |r.participants| => r.participants[i].participant)
  }

  lemma {:induction false} SumWithOneChange(s: seq<int>, t: seq<int>, w: nat, d: int)
    requires |s| == |t| && w < |s|
    requires forall i :: 0 <= i < |s| ==> t[i] == if i == w then s[i] + d else s[i]
    ensures Sum(t) == Sum(s) + d
  {
    if w == 0 {
      assert s[1..] == t[1..];
    } else {
      SumWithOneChange(s[1..], t[1..], w - 1, d);
    }
  }

  /** Who wins: the only participant whose interval of prefix weights holds the ticket, with positive weight. */
  ghost predicate Wins(ps: seq<DrawParticipant>, r: DrawSettlementResult, ticket: int, i: nat)
    requires i < |ps| == |r.participants|
  {
    var ws := WeightsOf(ps);
    && 0 <= r.winnerIndex < |ps| && 0 < ps[r.winnerIndex].weight
    && r.totalWeight == r.finalCumulative == Sum(ws)
    && (r.participants[i].winner <==> Sum(ws[..i]) <= ticket < Sum(ws[..i + 1]))
    && (i == r.winnerIndex <==> Sum(ws[..i]) <= ticket < Sum(ws[..i + 1]))
  }

  /** What is paid: all of the prize, to the winner's principal if the winner asked for it and the pool stays within its
      cap, and to the winner's winnings otherwise. */
  ghost predicate PaysPrize(ps: seq<DrawParticipant>, r: DrawSettlementResult, prize: int, principalCap: int)
    requires 0 <= r.winnerIndex < |ps|
  {
    && r.allocatedPrize == prize == r.principalAdded + r.winningsAdded
    && r.principalAdded
       == (if ps[r.winnerIndex].autoSave && Sum(PrincipalsOf(ps)) + prize <= principalCap then prize else 0)
    && Sum(PrincipalsOf(After(r))) == Sum(PrincipalsOf(ps)) + r.principalAdded
    && Sum(WinningsOf(After(r))) == Sum(WinningsOf(ps)) + r.winningsAdded
    && (r.principalAdded > 0 ==> Sum(PrincipalsOf(After(r))) <= principalCap)
  }

  /** What row `i` says: the winner's principal and winnings rise by what was added to each, nobody else's change, and
      nothing else does; the time of conversion is recorded exactly for a positive saved prize. */
  ghost predicate PaysRow(ps: seq<DrawParticipant>, r: DrawSettlementResult, timestamp: int, i: nat)
    requires i < |ps| == |r.participants|
  {
    var row := r.participants[i];
    && row.autoSavedPrize == (if i == r.winnerIndex then r.principalAdded else 0)
    && row.keptPrize == (if i == r.winnerIndex then r.winningsAdded else 0)
    && row.participant
       == ps[i].(principal := ps[i].principal + row.autoSavedPrize, winnings := ps[i].winnings + row.keptPrize)
    && row.autoSaveTimestamp == (if i == r.winnerIndex && r.principalAdded > 0 then Some(timestamp) else None)
  }

  /** An accepted settlement has the right winner, pays the prize in full, and changes nothing but the winner's row. */
  lemma {:induction false} SettlementLaws(
      ps: seq<DrawParticipant>, ticket: int, prize: int, timestamp: int, principalCap: int, i: nat)
    requires Refusal(ps, ticket, prize).Done? && i < |ps|
    ensures var r := Settlement(ps, ticket, prize, timestamp, principalCap);
      Wins(ps, r, ticket, i) && PaysPrize(ps, r, prize, principalCap) && PaysRow(ps, r, timestamp, i)
  {
    var r, ws := Settlement(ps, ticket, prize, timestamp, principalCap), WeightsOf(ps);
    var w := r.winnerIndex;
    CrossingInterval(ws, ticket, i);
    CrossingInterval(ws, ticket, w);
    SumNext(ws, w);
    SumWithOneChange(PrincipalsOf(ps), PrincipalsOf(After(r)), w, r.principalAdded);
    SumWithOneChange(WinningsOf(ps), WinningsOf(After(r)), w, r.winningsAdded);
  }

  // ----- the complete draw -----

  datatype CompleteDrawResult = CompleteDrawResult(
    candidate: int, candidateValid: bool, acceptedTicket: int, settlement: DrawSettlementResult)

  function CompletePrivateDraw(
      ps: seq<DrawParticipant>, candidate: int, prize: int, timestamp: int, principalCap: int): Result<CompleteDrawResult>
  {
    var mapped := MapCandidate(candidate, Sum(WeightsOf(ps)));
    if mapped.Err? then Err(mapped.error)
    else if mapped.value.Rejected? then Err("candidate objectively rejected")
    else
      var r := SettleOutcome(ps, mapped.value.ticket, prize, timestamp, principalCap);
      if r.Err? then Err(r.error) else Ok(CompleteDrawResult(candidate, true, mapped.value.ticket, r.value))
  }
}
