/** The round state machine: one accepted ticket, replacements only after a rejection. */
module RoundModel {
  import opened Outcomes
  import opened Rejection

  datatype RoundState =
    | OPEN
    | AGGREGATE_PENDING
    | AGGREGATE_FINALIZED
    | EMPTY
    | VALIDITY_PENDING
    | REJECTED
    | ACCEPTED
    | WINNER_PROCESSING
    | WINNINGS_ALLOCATED
    | SETTLED

  datatype RoundEvent =
    | Close
    | FinalizeAggregate(totalWeight: int)
    | Candidate(acceptsAll: bool)
    | Validity(valid: bool)

  function RoundStep(state: RoundState, event: RoundEvent): Result<RoundState> {
    match event
    case Close =>
      if state == OPEN then Ok(AGGREGATE_PENDING) else Err("illegal round transition")
    case FinalizeAggregate(total) =>
      if state != AGGREGATE_PENDING then Err("illegal round transition")
      else Ok(if total == 0 then EMPTY else AGGREGATE_FINALIZED)
    case Candidate(acceptsAll) =>
      if state != AGGREGATE_FINALIZED && state != REJECTED then Err("illegal candidate generation")
      else Ok(if acceptsAll then ACCEPTED else VALIDITY_PENDING)
    case Validity(valid) =>
      if state != VALIDITY_PENDING then Err("illegal round transition")
      else Ok(if valid then ACCEPTED else REJECTED)
  }

  /** How a call of the class may end: moved as `RoundStep` says, or refused with the state untouched. */
  predicate Follows(before: RoundState, event: RoundEvent, after: RoundState, r: Outcome) {
    match RoundStep(before, event)
    case Ok(next) => after == next && r == Done
    case Err(error) => after == before && r == Thrown(error)
  }

  class RoundStateReferenceModel {
    var state: RoundState

    constructor ()
      ensures state == OPEN
    {
      state := OPEN;
    }

    method Close() returns (r: Outcome)
      modifies this
      ensures Follows(old(state), RoundEvent.Close, state, r)
    {
      r := Transition(OPEN, AGGREGATE_PENDING);
    }

    method FinalizeAggregate(totalWeight: int) returns (r: Outcome)
      modifies this
      ensures Follows(old(state), RoundEvent.FinalizeAggregate(totalWeight), state, r)
    {
      r := Transition(AGGREGATE_PENDING, if totalWeight == 0 then EMPTY else AGGREGATE_FINALIZED);
    }

    method Candidate(acceptsAll: bool) returns (r: Outcome)
      modifies this
      ensures Follows(old(state), RoundEvent.Candidate(acceptsAll), state, r)
    {
      if state != AGGREGATE_FINALIZED && state != REJECTED {
        return Thrown("illegal candidate generation");
      }
      state := if acceptsAll then ACCEPTED else VALIDITY_PENDING;
      return Done;
    }

    method Validity(valid: bool) returns (r: Outcome)
      modifies this
      ensures Follows(old(state), RoundEvent.Validity(valid), state, r)
    {
      r := Transition(VALIDITY_PENDING, if valid then ACCEPTED else REJECTED);
    }

    method Transition(expected: RoundState, next: RoundState) returns (r: Outcome)
      modifies this
      ensures if old(state) == expected then state == next && r == Done
              else state == old(state) && r == Thrown("illegal round transition")
    {
      if state != expected {
        return Thrown("illegal round transition");
      }
      state := next;
      return Done;
    }
  }

  // ----- whole runs -----

  /** The state after any sequence of calls, refused ones included. */
  function StateAfter(start: RoundState, events: seq<RoundEvent>): RoundState {
    if events == [] then start
    else
      var before := StateAfter(start, events[..|events| - 1]);
      var next := RoundStep(before, events[|events| - 1]);
      if next.Ok? then next.value else before
  }

  // Kinds of calls.
  predicate Closes(e: RoundEvent) { e.Close? }
  predicate Finalizes(e: RoundEvent) { e.FinalizeAggregate? }
  predicate FinalizesWeight(e: RoundEvent) { e.FinalizeAggregate? && e.totalWeight != 0 }
  predicate Generates(e: RoundEvent) { e.Candidate? }
  predicate AcceptsAtOnce(e: RoundEvent) { e.Candidate? && e.acceptsAll }
  predicate AwaitsCheck(e: RoundEvent) { e.Candidate? && !e.acceptsAll }
  predicate Checks(e: RoundEvent) { e.Validity? }
  predicate ChecksOut(e: RoundEvent) { e.Validity? && e.valid }
  predicate Rejects(e: RoundEvent) { e.Validity? && !e.valid }

  /** How many calls of a kind went through. */
  function Passed(start: RoundState, events: seq<RoundEvent>, kind: RoundEvent -> bool): nat {
    if events == [] then 0
    else
      var front, last := events[..|events| - 1], events[|events| - 1];
      Passed(start, front, kind) + if kind(last) && RoundStep(StateAfter(start, front), last).Ok? then 1 else 0
  }

  function Generated(start: RoundState, events: seq<RoundEvent>): nat {
    Passed(start, events, Generates)
  }

  function Rejections(start: RoundState, events: seq<RoundEvent>): nat {
    Passed(start, events, Rejects)
  }

  /** What the calls that went through say about the state of a round, whatever else was called and refused. */
  ghost predicate Recorded(events: seq<RoundEvent>, s: RoundState) {
    var closed, finalized := Passed(OPEN, events, Closes), Passed(OPEN, events, Finalizes);
    var weighted, generated := Passed(OPEN, events, FinalizesWeight), Passed(OPEN, events, Generates);
    var rejected, checked := Passed(OPEN, events, Rejects), Passed(OPEN, events, Checks);
    var awaited := Passed(OPEN, events, AwaitsCheck);
    var accepted := Passed(OPEN, events, AcceptsAtOnce) + Passed(OPEN, events, ChecksOut);
    && closed == (if s == OPEN then 0 else 1)
    && finalized == (if s in {OPEN, AGGREGATE_PENDING} then 0 else 1)
    && weighted == (if s in {OPEN, AGGREGATE_PENDING, EMPTY} then 0 else 1)
    && accepted == (if s == ACCEPTED then 1 else 0)
    && awaited == checked + (if s == VALIDITY_PENDING then 1 else 0)
    && generated == Passed(OPEN, events, AcceptsAtOnce) + awaited
    && checked == Passed(OPEN, events, ChecksOut) + rejected
    && (generated == 0 <==> s in {OPEN, AGGREGATE_PENDING, EMPTY, AGGREGATE_FINALIZED})
    && (s == REJECTED ==> 0 < rejected)
    && s !in {WINNER_PROCESSING, WINNINGS_ALLOCATED, SETTLED}
  }

  /** One more call keeps the record. */
  lemma RecordedStep(events: seq<RoundEvent>, e: RoundEvent)
    requires Recorded(events, StateAfter(OPEN, events))
    ensures Recorded(events + [e], StateAfter(OPEN, events + [e]))
  {
    assert (events + [e])[..|events|] == events;
  }

  lemma {:induction false} HistoryDecidesState(events: seq<RoundEvent>)
    ensures Recorded(events, StateAfter(OPEN, events))
  {
    if events != [] {
      var front := events[..|events| - 1];
      HistoryDecidesState(front);
      RecordedStep(front, events[|events| - 1]);
      assert front + [events[|events| - 1]] == events;
    }
  }

  /** When each call goes through, in terms of the calls before it alone: closing, once; finalizing, once and after closing;
      generating, after a finalization with weight, when every candidate so far was rejected; checking, when one
      candidate that needs it has not been checked. A round is accepted by one candidate that needs no check or by one
      check that succeeds, and empty by a finalization without weight. */
  lemma {:induction false} CallsGoThroughIff(events: seq<RoundEvent>, total: int, acceptsAll: bool, valid: bool)
    ensures var s := StateAfter(OPEN, events);
      && (RoundStep(s, RoundEvent.Close).Ok? <==> Passed(OPEN, events, Closes) == 0)
      && (RoundStep(s, RoundEvent.FinalizeAggregate(total)).Ok?
          <==> Passed(OPEN, events, Closes) == 1 && Passed(OPEN, events, Finalizes) == 0)
      && (RoundStep(s, RoundEvent.Candidate(acceptsAll)).Ok?
          <==> Passed(OPEN, events, FinalizesWeight) == 1 && Generated(OPEN, events) == Rejections(OPEN, events))
      && (RoundStep(s, RoundEvent.Validity(valid)).Ok?
          <==> Passed(OPEN, events, AwaitsCheck) == Passed(OPEN, events, Checks) + 1)
      && (s == ACCEPTED <==> Passed(OPEN, events, AcceptsAtOnce) + Passed(OPEN, events, ChecksOut) == 1)
      && (s == EMPTY <==> Passed(OPEN, events, Finalizes) == 1 && Passed(OPEN, events, FinalizesWeight) == 0)
  {
    HistoryDecidesState(events);
  }

  /** Where every candidate accepts all, nothing is ever checked, and the first candidate is the last. */
  lemma {:induction false} AcceptingAllNeedsNoCheck(events: seq<RoundEvent>)
    requires Passed(OPEN, events, AwaitsCheck) == 0
    ensures Passed(OPEN, events, Checks) == 0 && Generated(OPEN, events) <= 1
    ensures Generated(OPEN, events) == 1 <==> StateAfter(OPEN, events) == ACCEPTED
  {
    HistoryDecidesState(events);
  }

  /** Every candidate beyond the first is paid for by a rejection, on every run; an empty round has none. */
  lemma {:induction false} ReplacementsArePaidFor(events: seq<RoundEvent>)
    ensures var s := StateAfter(OPEN, events);
      && s in {OPEN, AGGREGATE_PENDING, AGGREGATE_FINALIZED, EMPTY, VALIDITY_PENDING, REJECTED, ACCEPTED}
      && Generated(OPEN, events)
         == Rejections(OPEN, events) + (if s == VALIDITY_PENDING || s == ACCEPTED then 1 else 0)
      && (s in {OPEN, AGGREGATE_PENDING, AGGREGATE_FINALIZED, EMPTY} ==> Generated(OPEN, events) == 0)
      && (s == REJECTED ==> 0 < Rejections(OPEN, events))
  {
    if events != [] {
      ReplacementsArePaidFor(events[..|events| - 1]);
    }
  }

  /** A candidate can be generated after an earlier one only in the state REJECTED. */
  lemma {:induction false} ReplacementNeedsRejection(events: seq<RoundEvent>, acceptsAll: bool)
    requires RoundStep(StateAfter(OPEN, events), RoundEvent.Candidate(acceptsAll)).Ok?
    ensures 0 < Generated(OPEN, events) <==> StateAfter(OPEN, events) == REJECTED
  {
    ReplacementsArePaidFor(events);
  }

  /** ACCEPTED and EMPTY never change again. */
  lemma {:induction false} FinalStatesAreFinal(start: RoundState, events: seq<RoundEvent>)
    requires start == ACCEPTED || start == EMPTY
    ensures StateAfter(start, events) == start && Generated(start, events) == 0
  {
    if events != [] {
      FinalStatesAreFinal(start, events[..|events| - 1]);
    }
  }

  // ----- driving the machine with a stream of candidates -----

  predicate InDomain(candidates: seq<int>) {
    forall i :: 0 <= i < |candidates| ==> 0 <= candidates[i] < UINT128_DOMAIN
  }

  predicate Valid(candidate: int, total: int)
    requires 0 < total
  {
    candidate < UINT128_DOMAIN / total * total
  }

  /** The position of the first valid candidate, or the length of the stream. */
  function FirstValid(candidates: seq<int>, total: int): (j: nat)
    requires 0 < total
    ensures j <= |candidates| && (forall i :: 0 <= i < j ==> !Valid(candidates[i], total))
    ensures j < |candidates| ==> Valid(candidates[j], total)
  {
    if candidates == [] || Valid(candidates[0], total) then 0 else 1 + FirstValid(candidates[1..], total)
  }

  lemma CandidateLaw(candidate: int, total: int)
    requires 0 < total < UINT128_DOMAIN && 0 <= candidate < UINT128_DOMAIN
    ensures RejectionParameters(total).Ok?
    ensures RejectionParameters(total).value.acceptsAll ==> Valid(candidate, total)
    ensures MapCandidate(candidate, total) == Ok(if Valid(candidate, total) then Accepted(candidate % total) else Rejected)
  {
    MapCandidateLaw(candidate, total);
  }

  /** While no valid candidate has come, the next one is accepted iff it is the first valid one. */
  lemma TurnLaw(candidates: seq<int>, total: int, turn: nat)
    requires 0 < total < UINT128_DOMAIN && InDomain(candidates)
    requires turn < |candidates| && turn <= FirstValid(candidates, total)
    ensures var j := FirstValid(candidates, total);
      && RejectionParameters(total).Ok? && (RejectionParameters(total).value.acceptsAll ==> turn == j)
      && MapCandidate(candidates[turn], total) == Ok(if turn == j then Accepted(candidates[turn] % total) else Rejected)
  {
    CandidateLaw(candidates[turn], total);
  }

  /** Close the aggregate and generate candidates until one is accepted or the attempts run out. The ticket is the first
      valid candidate modulo the total; nothing is generated after it, nor for a zero total. */
  method DriveDraw(round: RoundStateReferenceModel, total: int, candidates: seq<int>)
      returns (ticket: Option<int>, generated: nat, r: Outcome)
    requires round.state == AGGREGATE_PENDING && 0 <= total < UINT128_DOMAIN && InDomain(candidates)
    modifies round
    ensures total == 0 ==> round.state == EMPTY && ticket == None && generated == 0 && r.Done?
    ensures total > 0 ==>
      var j := FirstValid(candidates, total);
      if j < |candidates| then round.state == ACCEPTED && ticket == Some(candidates[j] % total) && generated == j + 1
                                && r.Done?
      else ticket == None && generated == |candidates|
           && r == Thrown("RNG_TICKET_NOT_ACCEPTED_WITHIN_RETRY_BUDGET")
           && round.state == if candidates == [] then AGGREGATE_FINALIZED else REJECTED
  {
    ticket, generated, r := None, 0, Done;
    var outcome := round.FinalizeAggregate(total);
    if round.state == EMPTY {
      return;
    }
    var parameters := RejectionParameters(total).value;
    ghost var j := FirstValid(candidates, total);
    while generated < |candidates|
      invariant generated <= j && generated <= |candidates| && ticket == None
      invariant round.state == if generated == 0 then AGGREGATE_FINALIZED else REJECTED
    {
      var candidate := candidates[generated];
      TurnLaw(candidates, total, generated);
      var mapped := MapCandidate(candidate, total).value;
      generated := generated + 1;
      outcome := round.Candidate(parameters.acceptsAll);
      if round.state == ACCEPTED {
        ticket := Some(mapped.ticket);
        return;
      }
      if round.state != VALIDITY_PENDING {
        assert false;
        r := Thrown("RNG_UNEXPECTED_STATE");
        return;
      }
      outcome := round.Validity(mapped.Accepted?);
      if round.state == ACCEPTED {
        ticket := Some(mapped.ticket);
        return;
      }
    }
    r := Thrown("RNG_TICKET_NOT_ACCEPTED_WITHIN_RETRY_BUDGET");
  }

  /** The streams of `k` candidates on which the driver gives up. */
  ghost function FailingStreams(total: int, k: nat): set<seq<int>>
    requires 0 < total
  {
    set s | s in Sequences(Range(0, UINT128_DOMAIN), k) && FirstValid(s, total) == k
  }

  lemma {:induction false} RejectedIsInvalid(total: int, c: int)
    requires 0 < total < UINT128_DOMAIN
    ensures c in RejectedCandidates(total, 128) <==> c in Range(0, UINT128_DOMAIN) && !Valid(c, total)
  {
    LimitLaw(UINT128_DOMAIN, total);
    assert Between(0, c, UINT128_DOMAIN) <==> 0 <= c < UINT128_DOMAIN;
    if 0 <= c < UINT128_DOMAIN {
      MapsAgree(c, total);
      MapCandidateLaw(c, total);
    }
  }

  lemma {:induction false} FailingIsRejected(total: int, k: nat, s: seq<int>)
    requires 0 < total < UINT128_DOMAIN
    ensures s in FailingStreams(total, k) <==> s in Sequences(RejectedCandidates(total, 128), k)
  {
    SequencesAre(Range(0, UINT128_DOMAIN), k, s);
    SequencesAre(RejectedCandidates(total, 128), k, s);
    forall i | 0 <= i < |s|
      ensures s[i] in RejectedCandidates(total, 128) <==> s[i] in Range(0, UINT128_DOMAIN) && !Valid(s[i], total)
    {
      RejectedIsInvalid(total, s[i]);
    }
  }

  lemma {:induction false} FailingAreRejected(total: int, k: nat)
    requires 0 < total < UINT128_DOMAIN
    ensures FailingStreams(total, k) == Sequences(RejectedCandidates(total, 128), k)
  {
    forall s ensures s in FailingStreams(total, k) <==> s in Sequences(RejectedCandidates(total, 128), k) {
      FailingIsRejected(total, k, s);
    }
  }

  /** A budget of k attempts fails on fewer than one stream in 2^k; the live script allows eight. */
  lemma {:induction false} DriverRarelyFails(total: int, k: nat)
    requires 0 < total < UINT128_DOMAIN && 0 < k
    ensures Pow2(k) * |FailingStreams(total, k)| < |Sequences(Range(0, UINT128_DOMAIN), k)|
  {
    FailingAreRejected(total, k);
    RetriesRarelyFail(total, 128, k);
    SequencesSize(Range(0, UINT128_DOMAIN), k);
    RangeSize(0, UINT128_DOMAIN);
  }
}
