/** Rejection sampling: which random candidates become tickets, and exactly how many of them. */
module Rejection {
  import opened Outcomes
  import opened IncrementalTwab

  function Pow2(n: nat): (p: nat)
    ensures p >= 1
  {
    if n == 0 then 1 else 2 * Pow2(n - 1)
  }

  const TICKET_WIDTH: nat := 128
  const UINT128_DOMAIN: nat := Pow2(TICKET_WIDTH)

  // ----- reference/leopoldModels.ts -----

  datatype Parameters = Parameters(quotient: int, limit: int, acceptsAll: bool)

  function RejectionParameters(total: int): Result<Parameters> {
    if total <= 0 || total >= UINT128_DOMAIN then Err("total weight outside source domain")
    else
      var quotient := UINT128_DOMAIN / total;
      Ok(Parameters(quotient, quotient * total, quotient * total == UINT128_DOMAIN))
  }

  datatype Mapped = Rejected | Accepted(ticket: int)

  function MapCandidate(candidate: int, total: int): Result<Mapped> {
    if candidate < 0 || candidate >= UINT128_DOMAIN then Err("candidate outside uint128")
    else
      var parameters := RejectionParameters(total);
      if parameters.Err? then Err(parameters.error)
      else if !parameters.value.acceptsAll && candidate >= parameters.value.limit then Ok(Rejected)
      else Ok(Accepted(candidate % total))
  }

  // ----- scripts/sg3-domain.ts -----

  datatype Plan =
    | NoDraw(domainSize: int)
    | Draw(domainSize: int, quotient: int, rejectionLimit: int, rejectedCount: int,
           allCandidatesValid: bool, limitFitsWidth: bool)

  /** The plan for candidates of any width; the two invariants after the division are asserted as the source does. */
  function RejectionPlan(total: int, width: int): Result<Plan> {
    if width <= 0 then Err("candidate width must be positive")
    else
      var domainSize := Pow2(width);
      var within := RequireWithin("aggregate total", total, domainSize - 1);
      if within.Thrown? then Err(within.error)
      else if total == 0 then Ok(NoDraw(domainSize))
      else
        var quotient := domainSize / total;
        var limit := quotient * total;
        var rejected := domainSize - limit;
        if limit > domainSize then Err("rejection limit exceeds domain size")
        else if rejected >= total then Err("division remainder is not below total")
        else Ok(Draw(domainSize, quotient, limit, rejected, limit == domainSize, limit <= domainSize - 1))
  }

  /** None stands for an invalid candidate. */
  function AcceptCandidate(candidate: int, total: int, width: int): Result<Option<int>> {
    var plan := RejectionPlan(total, width);
    if plan.Err? then Err(plan.error)
    else
      var within := RequireWithin("candidate", candidate, plan.value.domainSize - 1);
      if within.Thrown? then Err(within.error)
      else if plan.value.NoDraw? then Ok(None)
      else if total == 1 then Ok(Some(0))
      else if plan.value.allCandidatesValid || candidate < plan.value.rejectionLimit then Ok(Some(candidate % total))
      else Ok(None)
  }

  // ----- scripts/sg4-protocol.ts -----

  datatype ProtocolPlan = ProtocolNoDraw | ProtocolDraw(quotient: int, remainder: int, limit: int, allCandidatesValid: bool)

  function ProtocolRejectionPlan(total: int): Result<ProtocolPlan> {
    if !(0 <= total <= MAX_AGGREGATE_TWAB) then Err("rejection total outside locked domain")
    else if total == 0 then Ok(ProtocolNoDraw)
    else
      var remainder := UINT128_DOMAIN % total;
      Ok(ProtocolDraw(UINT128_DOMAIN / total, remainder, UINT128_DOMAIN / total * total, remainder == 0))
  }

  // ----- division -----

  lemma DivisionLaw(n: int, total: int)
    requires 0 <= n && 0 < total
    ensures n == n / total * total + n % total && 0 <= n % total < total
  {
  }

  lemma Residue(q: nat, total: int, r: int)
    requires 0 <= r < total
    ensures (q * total + r) % total == r
  {
    var n := q * total + r;
    DivisionLaw(n, total);
    var d := n / total - q;
    assert d * total == n / total * total - q * total;
    assert d >= 1 ==> d * total >= total;
    assert d <= -1 ==> d * total <= -total;
  }

  // ----- how many candidates fall in a window of tickets -----

  predicate InWindow(c: int, total: int, low: int, high: int)
    requires 0 < total
  {
    low <= c % total < high
  }

  /** Candidates below `n` whose residue lies in [low, high). */
  ghost function Window(n: nat, total: int, low: int, high: int): set<int>
    requires 0 < total
  {
    set c: int | 0 <= c < n && InWindow(c, total, low, high)
  }

  function Part(r: int, low: int, high: int): int {
    if r <= low then 0 else if r <= high then r - low else high - low
  }

  /** One more candidate, at position `r` of turn `q`. */
  lemma NextCandidate(q: nat, r: nat, total: int, low: int, high: int)
    requires 0 < total && r < total
    ensures |Window(q * total + (r + 1), total, low, high)|
         == |Window(q * total + r, total, low, high)| + if low <= r < high then 1 else 0
  {
    var n := q * total + r;
    Residue(q, total, r);
    assert InWindow(n, total, low, high) <==> low <= r < high;
    NextInWindow(n, total, low, high);
  }

  lemma NextInWindow(n: nat, total: int, low: int, high: int)
    requires 0 < total
    ensures |Window(n + 1, total, low, high)|
         == |Window(n, total, low, high)| + if InWindow(n, total, low, high) then 1 else 0
  {
    var before, after := Window(n, total, low, high), Window(n + 1, total, low, high);
    if InWindow(n, total, low, high) {
      assert after == before + {n};
    } else {
      assert after == before;
    }
  }

  /** The end of one turn is the beginning of the next. */
  lemma NextTurn(q: int, total: int, size: int)
    ensures q * total == (q - 1) * total + total
    ensures q * size == (q - 1) * size + size
  {
  }

  /** In `q` full turns and `r` candidates more, each ticket comes up once a turn. */
  lemma {:induction false} WindowSize(q: nat, r: nat, total: int, low: int, high: int)
    requires 0 < total && r <= total && 0 <= low <= high <= total
    ensures |Window(q * total + r, total, low, high)| == q * (high - low) + Part(r, low, high)
    decreases q, r
  {
    if r > 0 {
      WindowSize(q, r - 1, total, low, high);
      NextCandidate(q, r - 1, total, low, high);
    } else if q > 0 {
      WindowSize(q - 1, total, total, low, high);
      NextTurn(q, total, high - low);
    } else {
      assert Window(0, total, low, high) == {};
    }
  }

  predicate Between(low: int, c: int, high: int) {
    low <= c < high
  }

  ghost function Range(low: int, high: int): set<int> {
    set c: int | low <= c < high && Between(low, c, high)
  }

  lemma {:induction false} RangeSize(low: int, high: int)
    requires low <= high
    ensures |Range(low, high)| == high - low
    decreases high - low
  {
    if low < high {
      RangeSize(low, high - 1);
      assert Between(low, high - 1, high);
      assert forall c: int :: Between(low, c, high) <==> Between(low, c, high - 1) || c == high - 1;
      assert Range(low, high) == Range(low, high - 1) + {high - 1};
    } else {
      assert Range(low, high) == {};
    }
  }

  /** The limit is the largest multiple of the total in the domain; what lies above it is the remainder. */
  lemma LimitLaw(domain: int, total: int)
    requires 0 < total <= domain
    ensures var limit := domain / total * total;
      0 < limit <= domain && domain - limit == domain % total < total && 2 * limit > domain
  {
    DivisionLaw(domain, total);
    assert domain / total >= 1;
    assert domain / total * total >= total;
  }

  /** Which candidates become which tickets. */
  lemma MapCandidateLaw(candidate: int, total: int)
    requires 0 < total < UINT128_DOMAIN && 0 <= candidate < UINT128_DOMAIN
    ensures MapCandidate(candidate, total)
         == Ok(if candidate < UINT128_DOMAIN / total * total then Accepted(candidate % total) else Rejected)
  {
    LimitLaw(UINT128_DOMAIN, total);
  }

  /** The reference parameters: whatever the total, the limit is `quotient` whole turns of tickets, all that fit. */
  lemma ParametersLaw(total: int)
    ensures RejectionParameters(total).Ok? <==> 0 < total < UINT128_DOMAIN
    ensures RejectionParameters(total).Ok? ==>
      var p := RejectionParameters(total).value;
      && p.quotient * total == p.limit == UINT128_DOMAIN - UINT128_DOMAIN % total
      && (p.acceptsAll <==> UINT128_DOMAIN % total == 0)
  {
    if 0 < total < UINT128_DOMAIN {
      LimitLaw(UINT128_DOMAIN, total);
    }
  }

  /** No modulo bias: every ticket comes from exactly `quotient` candidates, and D mod T candidates are rejected. */
  lemma {:induction false} TicketsAreUniform(total: int, ticket: int)
    requires 0 < total < UINT128_DOMAIN && 0 <= ticket < total
    ensures |set c: int | 0 <= c < UINT128_DOMAIN && MapCandidate(c, total) == Ok(Accepted(ticket))|
         == UINT128_DOMAIN / total
    ensures |set c: int | 0 <= c < UINT128_DOMAIN && MapCandidate(c, total) == Ok(Rejected)| == UINT128_DOMAIN % total
  {
    var q := UINT128_DOMAIN / total;
    LimitLaw(UINT128_DOMAIN, total);
    forall c | 0 <= c < UINT128_DOMAIN
      ensures MapCandidate(c, total) == Ok(if c < q * total then Accepted(c % total) else Rejected)
    {
      MapCandidateLaw(c, total);
    }
    WindowSize(q, 0, total, ticket, ticket + 1);
    assert (set c: int | 0 <= c < UINT128_DOMAIN && MapCandidate(c, total) == Ok(Accepted(ticket)))
        == Window(q * total + 0, total, ticket, ticket + 1);
    RangeSize(q * total, UINT128_DOMAIN);
    assert (set c: int | 0 <= c < UINT128_DOMAIN && MapCandidate(c, total) == Ok(Rejected))
        == Range(q * total, UINT128_DOMAIN);
  }

  /** The candidate map of the reference model and that of the domain analysis agree at width 128: on a zero total the
      one throws and the other accepts nothing, and everywhere else they give the same ticket or the same rejection. */
  lemma MapsAgree(candidate: int, total: int)
    requires 0 <= candidate < UINT128_DOMAIN
    ensures AcceptCandidate(candidate, total, 128).Ok? <==> 0 <= total < UINT128_DOMAIN
    ensures total == 0 ==> AcceptCandidate(candidate, total, 128) == Ok(None) && MapCandidate(candidate, total).Err?
    ensures total != 0 ==>
      match MapCandidate(candidate, total)
      case Err(_) => AcceptCandidate(candidate, total, 128).Err?
      case Ok(Rejected) => AcceptCandidate(candidate, total, 128) == Ok(None)
      case Ok(Accepted(ticket)) => AcceptCandidate(candidate, total, 128) == Ok(Some(ticket))
  {
    if 0 < total < UINT128_DOMAIN {
      LimitLaw(UINT128_DOMAIN, total);
      if total == 1 {
        assert candidate % 1 == 0;
      }
    }
  }

  lemma Squared(k: nat, p: int)
    requires Pow2(k) == p
    ensures Pow2(k + k) == p * p
  {
    Pow2Sum(k, k);
  }

  /** The ticket domain has 2^128 members, and the largest supported aggregate is inside it. */
  lemma AggregateFitsTicketWidth()
    ensures UINT128_DOMAIN == 0x1_00000000_00000000_00000000_00000000
    ensures MAX_AGGREGATE_TWAB == 31_536_000_000_000_000_000_000 < UINT128_DOMAIN
  {
    Squared(0 + 2, 4);
    Squared(4, 16);
    Squared(8, 256);
    Squared(16, 0x1_0000);
    Squared(32, 0x1_0000_0000);
    Squared(64, 0x1_00000000_00000000);
  }

  /** The protocol's plan is the reference parameters, restricted to the locked totals. */
  lemma PlansAgree(total: int)
    ensures ProtocolRejectionPlan(total).Ok? <==> 0 <= total <= MAX_AGGREGATE_TWAB
    ensures ProtocolRejectionPlan(total) == Ok(ProtocolNoDraw) <==> total == 0
    ensures 0 < total <= MAX_AGGREGATE_TWAB ==>
      && RejectionParameters(total).Ok?
      && var p, q := ProtocolRejectionPlan(total).value, RejectionParameters(total).value;
      p.quotient == q.quotient && p.limit == q.limit && p.allCandidatesValid == q.acceptsAll
      && p.remainder == UINT128_DOMAIN - q.limit
      && p.quotient * total + p.remainder == UINT128_DOMAIN && 0 <= p.remainder < total
  {
    AggregateFitsTicketWidth();
    if 0 < total <= MAX_AGGREGATE_TWAB {
      LimitLaw(UINT128_DOMAIN, total);
    }
  }

  // ----- every width -----

  predicate IsPowerOfTwo(n: int) {
    exists k: nat | k <= n :: n == Pow2(k)
  }

  lemma {:induction false} Pow2Above(k: nat)
    ensures k < Pow2(k)
  {
    if k > 0 {
      Pow2Above(k - 1);
    }
  }

  lemma {:induction false} Pow2Sum(j: nat, k: nat)
    ensures Pow2(j + k) == Pow2(j) * Pow2(k)
  {
    if j > 0 {
      Pow2Sum(j - 1, k);
      assert Pow2(j + k) == 2 * Pow2((j - 1) + k);
    }
  }

  lemma {:induction false} Pow2Monotone(j: nat, k: nat)
    requires j <= k
    ensures Pow2(j) <= Pow2(k)
  {
    if j < k {
      Pow2Monotone(j, k - 1);
    }
  }

  lemma ProductOfOdds(q: int, total: int)
    requires q % 2 == 1 && total % 2 == 1
    ensures q * total % 2 == 1
  {
    OddFactor(q, total, total / 2);
    OddSum(q * total, q * (total / 2), q);
  }

  lemma OddFactor(q: int, total: int, y: int)
    requires total == 2 * y + 1
    ensures q * total == 2 * (q * y) + q
  {
  }

  lemma OddSum(product: int, half: int, q: int)
    requires product == 2 * half + q && q % 2 == 1
    ensures product % 2 == 1
  {
  }

  lemma ProductIsOne(q: int, total: int)
    requires 0 < total && q * total == 1
    ensures total == 1
  {
    assert q >= 1 ==> q * total >= total;
    assert q <= 0 ==> q * total <= 0;
  }

  lemma HalfProduct(half: int, other: int, power: int)
    requires (2 * half) * other == 2 * power
    ensures half * other == power && other * half == power
  {
    assert (2 * half) * other == 2 * (half * other);
  }

  /** A divisor of a power of two is a power of two. */
  lemma {:induction false} DivisorsOfPowers(width: nat, q: int, total: int) returns (k: nat)
    requires 0 < total && q * total == Pow2(width)
    ensures total == Pow2(k) && k <= width
    decreases width
  {
    if width == 0 {
      ProductIsOne(q, total);
      k := 0;
    } else if total % 2 == 0 {
      var half := total / 2;
      assert (2 * half) * q == 2 * Pow2(width - 1);
      HalfProduct(half, q, Pow2(width - 1));
      var j := DivisorsOfPowers(width - 1, q, half);
      k := j + 1;
    } else {
      assert q * total % 2 == 0;
      if q % 2 == 1 {
        ProductOfOdds(q, total);
      }
      var half := q / 2;
      assert (2 * half) * total == 2 * Pow2(width - 1);
      HalfProduct(half, total, Pow2(width - 1));
      k := DivisorsOfPowers(width - 1, half, total);
    }
  }

  /** For every width and total: the plan exists; its limit is `quotient` whole turns of tickets, all that fit; the limit
      fits the width unless all candidates are valid, which happens exactly for the powers of two; and more than half of
      all candidates are accepted. */
  lemma {:induction false} PlanLaw(total: int, width: nat)
    requires 0 < width && 0 < total < Pow2(width)
    ensures RejectionPlan(total, width).Ok? && RejectionPlan(total, width).value.Draw?
    ensures var plan := RejectionPlan(total, width).value;
      && plan.domainSize == Pow2(width)
      && plan.quotient * total == plan.rejectionLimit == Pow2(width) - Pow2(width) % total
      && (plan.allCandidatesValid <==> IsPowerOfTwo(total))
      && (plan.limitFitsWidth <==> !plan.allCandidatesValid)
      && plan.rejectedCount == Pow2(width) % total
      && 2 * plan.rejectionLimit > plan.domainSize
      && 2 * plan.rejectedCount < plan.domainSize
  {
    LimitLaw(Pow2(width), total);
    var plan := RejectionPlan(total, width).value;
    if plan.allCandidatesValid {
      var k := DivisorsOfPowers(width, plan.quotient, total);
      Pow2Above(k);
      assert total == Pow2(k) && k <= total;
    }
    if IsPowerOfTwo(total) {
      var k: nat :| k <= total && total == Pow2(k);
      if width < k {
        Pow2Monotone(width, k);
      }
      Pow2Sum(width - k, k);
      Residue(Pow2(width - k), total, 0);
    }
  }

  /** Which inputs are refused, and that a zero total has no draw and accepts nothing. */
  lemma PlanOutcomes(candidate: int, total: int, width: int)
    ensures RejectionPlan(total, width).Ok? <==> 0 < width && 0 <= total < Pow2(width)
    ensures AcceptCandidate(candidate, total, width).Ok?
       <==> 0 < width && 0 <= total < Pow2(width) && 0 <= candidate < Pow2(width)
    ensures 0 < width && total == 0 ==> RejectionPlan(total, width) == Ok(NoDraw(Pow2(width)))
    ensures AcceptCandidate(candidate, 0, width).Ok? ==> AcceptCandidate(candidate, 0, width) == Ok(None)
  {
    if 0 < width && 0 < total < Pow2(width) {
      LimitLaw(Pow2(width), total);
    }
  }

  /** Which candidates become which tickets, at every width. */
  lemma AcceptCandidateLaw(candidate: int, total: int, width: nat)
    requires 0 < width && 0 < total < Pow2(width) && 0 <= candidate < Pow2(width)
    ensures AcceptCandidate(candidate, total, width)
         == Ok(if candidate < Pow2(width) / total * total then Some(candidate % total) else None)
  {
    LimitLaw(Pow2(width), total);
    if total == 1 {
      assert candidate % 1 == 0;
    }
  }

  /** No modulo bias at any width: every ticket comes from exactly 2^width / total candidates, and 2^width mod total of them
      give none. */
  lemma {:induction false} AcceptedAreUniform(total: int, width: nat, ticket: int)
    requires 0 < width && 0 < total < Pow2(width) && 0 <= ticket < total
    ensures |set c: int | 0 <= c < Pow2(width) && AcceptCandidate(c, total, width) == Ok(Some(ticket))|
         == Pow2(width) / total
    ensures |set c: int | 0 <= c < Pow2(width) && AcceptCandidate(c, total, width) == Ok(None)| == Pow2(width) % total
  {
    var domain := Pow2(width);
    var q := domain / total;
    LimitLaw(domain, total);
    forall c | 0 <= c < domain
      ensures AcceptCandidate(c, total, width) == Ok(if c < q * total then Some(c % total) else None)
    {
      AcceptCandidateLaw(c, total, width);
    }
    WindowSize(q, 0, total, ticket, ticket + 1);
    assert (set c: int | 0 <= c < domain && AcceptCandidate(c, total, width) == Ok(Some(ticket)))
        == Window(q * total + 0, total, ticket, ticket + 1);
    RangeSize(q * total, domain);
    assert (set c: int | 0 <= c < domain && AcceptCandidate(c, total, width) == Ok(None)) == Range(q * total, domain);
  }

  // ----- giving up after k rejections -----

  ghost function Prepended<T>(values: set<T>, tails: set<seq<T>>): set<seq<T>> {
    set c, s | c in values && s in tails :: [c] + s
  }

  /** All sequences of `k` values drawn from `values`. */
  ghost function Sequences<T>(values: set<T>, k: nat): set<seq<T>> {
    if k == 0 then {[]} else Prepended(values, Sequences(values, k - 1))
  }

  lemma ElementsOfPrepended<T>(c: T, t: seq<T>)
    ensures |[c] + t| == |t| + 1
    ensures forall i :: 0 <= i < |[c] + t| ==> ([c] + t)[i] == if i == 0 then c else t[i - 1]
  {
  }

  lemma {:induction false} SequencesAre<T>(values: set<T>, k: nat, s: seq<T>)
    ensures s in Sequences(values, k) <==> |s| == k && forall i :: 0 <= i < k ==> s[i] in values
    decreases k
  {
    if k > 0 {
      if s in Sequences(values, k) {
        var c, t :| c in values && t in Sequences(values, k - 1) && s == [c] + t;
        SequencesAre(values, k - 1, t);
        ElementsOfPrepended(c, t);
      }
      if |s| == k && forall i :: 0 <= i < k ==> s[i] in values {
        SequencesAre(values, k - 1, s[1..]);
        assert s[0] in values && s == [s[0]] + s[1..];
      }
    }
  }

  function Power(base: nat, k: nat): nat {
    if k == 0 then 1 else base * Power(base, k - 1)
  }

  lemma PrependedSplit<T>(values: set<T>, tails: set<seq<T>>, c: T)
    requires c in values
    ensures |Prepended(values, tails)| == |Prepended(values - {c}, tails)| + |tails|
  {
    var others, own := Prepended(values - {c}, tails), set s | s in tails :: [c] + s;
    OwnSize(c, tails);
    assert forall x :: x in others ==> x[0] in values - {c};
    assert Prepended(values, tails) == others + own && others !! own;
  }

  lemma OneMoreFactor(n: nat, m: nat)
    ensures (n + 1) * m == n * m + m
  {
  }

  lemma {:induction false} PrependedSize<T>(values: set<T>, tails: set<seq<T>>)
    ensures |Prepended(values, tails)| == |values| * |tails|
    decreases values
  {
    if values == {} {
      assert Prepended(values, tails) == {};
    } else {
      var c :| c in values;
      var rest := values - {c};
      PrependedSize(rest, tails);
      PrependedSplit(values, tails, c);
      OneMoreFactor(|rest|, |tails|);
    }
  }

  lemma {:induction false} OwnSize<T>(c: T, tails: set<seq<T>>)
    ensures |set s | s in tails :: [c] + s| == |tails|
    decreases tails
  {
    var own := set s | s in tails :: [c] + s;
    if tails != {} {
      var t :| t in tails;
      OwnSize(c, tails - {t});
      var rest := set s | s in tails - {t} :: [c] + s;
      assert own == rest + {[c] + t};
      assert forall x :: x in rest ==> x[1..] in tails - {t};
      assert ([c] + t)[1..] == t;
    } else {
      assert own == {};
    }
  }

  lemma {:induction false} SequencesSize<T>(values: set<T>, k: nat)
    ensures |Sequences(values, k)| == Power(|values|, k)
  {
    if k > 0 {
      SequencesSize(values, k - 1);
      PrependedSize(values, Sequences(values, k - 1));
    }
  }

  lemma HalvedStep(rejected: nat, domain: nat, p: nat, x: nat, y: nat)
    requires 2 * rejected < domain && p * x <= y && 0 < y
    ensures (2 * p) * (rejected * x) < domain * y
  {
    assert (2 * p) * (rejected * x) == (2 * rejected) * (p * x);
    assert (2 * rejected) * (p * x) <= (2 * rejected) * y < domain * y;
  }

  lemma {:induction false} HalvedPowers(rejected: nat, domain: nat, k: nat)
    requires 2 * rejected < domain
    ensures Pow2(k) * Power(rejected, k) <= Power(domain, k)
    ensures k > 0 ==> Pow2(k) * Power(rejected, k) < Power(domain, k)
  {
    if k > 0 {
      HalvedPowers(rejected, domain, k - 1);
      PowerPositive(domain, k - 1);
      HalvedStep(rejected, domain, Pow2(k - 1), Power(rejected, k - 1), Power(domain, k - 1));
    }
  }

  lemma {:induction false} PowerPositive(base: nat, k: nat)
    requires 0 < base
    ensures 0 < Power(base, k)
  {
    if k > 0 {
      PowerPositive(base, k - 1);
    }
  }

  ghost function RejectedCandidates(total: int, width: nat): set<int>
    requires 0 < width
  {
    set c: int | 0 <= c < Pow2(width) && AcceptCandidate(c, total, width) == Ok(None)
  }

  /** Of all sequences of k > 0 candidates, fewer than one in 2^k is rejected throughout. */
  lemma {:induction false} RetriesRarelyFail(total: int, width: nat, k: nat)
    requires 0 < width && 0 < total < Pow2(width) && 0 < k
    ensures |RejectedCandidates(total, width)| == Pow2(width) % total
    ensures Pow2(k) * |Sequences(RejectedCandidates(total, width), k)| < Power(Pow2(width), k)
  {
    PlanLaw(total, width);
    LimitLaw(Pow2(width), total);
    var plan := RejectionPlan(total, width).value;
    assert total == 1 ==> Pow2(width) % 1 == 0;
    assert RejectedCandidates(total, width) == Range(plan.rejectionLimit, plan.domainSize);
    RangeSize(plan.rejectionLimit, plan.domainSize);
    SequencesSize(RejectedCandidates(total, width), k);
    HalvedPowers(plan.rejectedCount, Pow2(width), k);
  }
}
