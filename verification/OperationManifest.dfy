/** The canonical operation manifest of scripts/sg4-protocol.ts, derived from the registered circuits. */
module OperationManifest {
  import opened Outcomes
  import opened Text

  datatype Semantics = Semantics(
    canonicalOperation: Text, enforcementOperation: Text, operandMode: Text, operandTypes: seq<Text>,
    resultType: Text, costKeyType: Text, arity: int, hcuPriced: bool)

  datatype Circuit = Circuit(id: Text, operations: seq<Text>)

  datatype Variant = Variant(
    variantId: Text, canonicalOperation: Text, enforcementOperation: Text, operandMode: Text, operandTypes: seq<Text>,
    resultType: Text, costKeyType: Text, arity: int, solidityCalls: seq<Text>, circuits: seq<Text>)

  const DOT: Unit := 46

  /** The id joins three names with dots. */
  function VariantId(s: Semantics): Text {
    s.canonicalOperation + [DOT] + s.operandMode + [DOT] + s.costKeyType
  }

  /** Calls that start with "FHE." are operations; anything else is skipped. */
  predicate IsFhe(call: Text) {
    [70, 72, 69, DOT] <= call
  }

  // ----- what the manifest should say -----

  /** One circuit executing one call. */
  datatype Execution = Execution(circuit: Text, call: Text)

  function CallsOf(id: Text, operations: seq<Text>): (es: seq<Execution>)
    ensures |es| == |operations|
  {
    seq(|operations|, i requires 0 <= i < |operations| => Execution(id, operations[i]))
  }

  function Executions(circuits: seq<Circuit>): seq<Execution> {
    if circuits == [] then []
    else
      var last := circuits[|circuits| - 1];
      Executions(circuits[..|circuits| - 1]) + CallsOf(last.id, last.operations)
  }

  /** A priced operation with declared semantics and the given variant id. */
  predicate Reaches(semantics: map<Text, Semantics>, call: Text, id: Text) {
    IsFhe(call) && call in semantics && semantics[call].hcuPriced && VariantId(semantics[call]) == id
  }

  /** The call that introduces a variant. */
  function FirstCall(es: seq<Execution>, semantics: map<Text, Semantics>, id: Text): Option<Text> {
    if es == [] then None
    else
      var before := FirstCall(es[..|es| - 1], semantics, id);
      var call := es[|es| - 1].call;
      if before.Some? then before else if Reaches(semantics, call, id) then Some(call) else None
  }

  ghost predicate ExecutesCall(es: seq<Execution>, call: Text) {
    exists i :: 0 <= i < |es| && es[i].call == call
  }

  ghost predicate CircuitReaches(es: seq<Execution>, semantics: map<Text, Semantics>, circuit: Text, id: Text) {
    exists i :: 0 <= i < |es| && es[i].circuit == circuit && Reaches(semantics, es[i].call, id)
  }

  function Self(t: Text): Text {
    t
  }

  ghost predicate StrictlySorted(ts: seq<Text>) {
    SortedBy(ts, Self) && DistinctBy(ts, Self)
  }

  /** The priced fields of a variant are those of a call. */
  predicate Fields(x: Variant, s: Semantics) {
    && x.canonicalOperation == s.canonicalOperation && x.enforcementOperation == s.enforcementOperation
    && x.operandMode == s.operandMode && x.operandTypes == s.operandTypes && x.resultType == s.resultType
    && x.costKeyType == s.costKeyType && x.arity == s.arity
  }

  /** A row of the manifest: the fields of the first call, and exactly the calls and circuits that reach the variant. */
  ghost predicate Row(x: Variant, es: seq<Execution>, semantics: map<Text, Semantics>) {
    var first := FirstCall(es, semantics, x.variantId);
    && first.Some? && first.value in semantics && Fields(x, semantics[first.value])
    && StrictlySorted(x.solidityCalls) && StrictlySorted(x.circuits)
    && (forall c :: c in x.solidityCalls <==> ExecutesCall(es, c) && Reaches(semantics, c, x.variantId))
    && (forall k :: k in x.circuits <==> CircuitReaches(es, semantics, k, x.variantId))
  }

  function IdOfVariant(x: Variant): Text {
    x.variantId
  }

  ghost predicate Listed(xs: seq<Variant>, id: Text) {
    exists i :: 0 <= i < |xs| && xs[i].variantId == id
  }

  /** The manifest: sorted by id, every listed variant as it should be, every reached variant listed. */
  ghost predicate IsManifest(xs: seq<Variant>, es: seq<Execution>, semantics: map<Text, Semantics>) {
    && SortedBy(xs, IdOfVariant) && DistinctBy(xs, IdOfVariant)
    && (forall i :: 0 <= i < |xs| ==> Row(xs[i], es, semantics))
    && (forall i, id :: 0 <= i < |es| && Reaches(semantics, es[i].call, id) ==> Listed(xs, id))
  }

  /** Two calls may share a variant only if they agree on these fields. */
  predicate Agree(s: Semantics, t: Semantics) {
    s.resultType == t.resultType && s.arity == t.arity && s.enforcementOperation == t.enforcementOperation
    && s.operandTypes == t.operandTypes
  }

  /** When a manifest can be derived. */
  ghost predicate Consistent(es: seq<Execution>, semantics: map<Text, Semantics>) {
    && (forall i :: 0 <= i < |es| && IsFhe(es[i].call) ==> es[i].call in semantics)
    && (forall i, j, id :: 0 <= i < |es| && 0 <= j < |es|
          && Reaches(semantics, es[i].call, id) && Reaches(semantics, es[j].call, id)
          ==> Agree(semantics[es[i].call], semantics[es[j].call]))
  }

  // ----- the derivation -----

  /** `[...new Set([...xs, x])].sort()` for an `xs` without repetition. */
  function Added(xs: seq<Text>, x: Text): seq<Text> {
    SortBy(if x in xs then xs else xs + [x], Self)
  }

  lemma {:induction false} AddedLaw(xs: seq<Text>, x: Text)
    requires DistinctBy(xs, Self)
    ensures StrictlySorted(Added(xs, x))
    ensures forall y :: y in Added(xs, x) <==> y in xs || y == x
  {
    var ys := if x in xs then xs else xs + [x];
    SortByLaw(ys, Self);
    SortByDistinct(ys, Self);
    forall y ensures y in Added(xs, x) <==> y in xs || y == x {
      SameElements(Added(xs, x), ys, y);
    }
  }

  /** The map under construction, with its insertion order, after some executions. */
  ghost predicate Describes(
      byVariant: map<Text, Variant>, order: seq<Text>, es: seq<Execution>, semantics: map<Text, Semantics>)
  {
    && (forall id :: id in byVariant ==> byVariant[id].variantId == id && Row(byVariant[id], es, semantics))
    && (forall i, id :: 0 <= i < |es| && Reaches(semantics, es[i].call, id) ==> id in byVariant)
    && DistinctBy(order, Self)
    && (forall id :: id in order <==> id in byVariant)
  }

  lemma {:induction false} FirstCallLaw(es: seq<Execution>, semantics: map<Text, Semantics>, id: Text)
    ensures FirstCall(es, semantics, id).Some? <==> exists i :: 0 <= i < |es| && Reaches(semantics, es[i].call, id)
    ensures FirstCall(es, semantics, id).Some? ==>
      Reaches(semantics, FirstCall(es, semantics, id).value, id) && ExecutesCall(es, FirstCall(es, semantics, id).value)
  {
    if es != [] {
      var front := es[..|es| - 1];
      FirstCallLaw(front, semantics, id);
      assert forall i :: 0 <= i < |front| ==> front[i] == es[i];
      if FirstCall(front, semantics, id).Some? {
        var i :| 0 <= i < |front| && front[i].call == FirstCall(front, semantics, id).value;
        assert es[i].call == FirstCall(es, semantics, id).value;
      } else if Reaches(semantics, es[|es| - 1].call, id) {
        assert es[|es| - 1].call == FirstCall(es, semantics, id).value;
      }
    }
  }

  lemma ExecutedNext(es: seq<Execution>, e: Execution, semantics: map<Text, Semantics>, id: Text, t: Text)
    ensures ExecutesCall(es + [e], t) <==> ExecutesCall(es, t) || t == e.call
    ensures CircuitReaches(es + [e], semantics, t, id)
       <==> CircuitReaches(es, semantics, t, id) || (t == e.circuit && Reaches(semantics, e.call, id))
    ensures FirstCall(es + [e], semantics, id)
         == if FirstCall(es, semantics, id).Some? then FirstCall(es, semantics, id)
            else if Reaches(semantics, e.call, id) then Some(e.call) else None
  {
    var es' := es + [e];
    assert es'[..|es|] == es && es'[|es|] == e;
    assert forall i :: 0 <= i < |es| ==> es'[i] == es[i];
    if ExecutesCall(es, t) {
      var i :| 0 <= i < |es| && es[i].call == t;
      assert es'[i].call == t;
    }
    if CircuitReaches(es, semantics, t, id) {
      var i :| 0 <= i < |es| && es[i].circuit == t && Reaches(semantics, es[i].call, id);
      assert es'[i].circuit == t && Reaches(semantics, es'[i].call, id);
    }
  }

  /** A row is untouched by an execution that does not reach its variant. */
  lemma {:induction false} RowKept(x: Variant, es: seq<Execution>, e: Execution, semantics: map<Text, Semantics>)
    requires Row(x, es, semantics) && !Reaches(semantics, e.call, x.variantId)
    ensures Row(x, es + [e], semantics)
  {
    ExecutedNext(es, e, semantics, x.variantId, e.call);
    forall c ensures c in x.solidityCalls <==> ExecutesCall(es + [e], c) && Reaches(semantics, c, x.variantId) {
      ExecutedNext(es, e, semantics, x.variantId, c);
    }
    forall k ensures k in x.circuits <==> CircuitReaches(es + [e], semantics, k, x.variantId) {
      ExecutedNext(es, e, semantics, x.variantId, k);
    }
  }

  function NewVariant(s: Semantics, call: Text, circuit: Text): Variant {
    Variant(VariantId(s), s.canonicalOperation, s.enforcementOperation, s.operandMode, s.operandTypes,
            s.resultType, s.costKeyType, s.arity, [call], [circuit])
  }

  lemma {:induction false} RowIntroduced(es: seq<Execution>, e: Execution, semantics: map<Text, Semantics>, id: Text)
    requires Reaches(semantics, e.call, id)
    requires forall i :: 0 <= i < |es| ==> !Reaches(semantics, es[i].call, id)
    ensures Row(NewVariant(semantics[e.call], e.call, e.circuit), es + [e], semantics)
  {
    var x := NewVariant(semantics[e.call], e.call, e.circuit);
    FirstCallLaw(es, semantics, id);
    ExecutedNext(es, e, semantics, id, e.call);
    forall c ensures c in x.solidityCalls <==> ExecutesCall(es + [e], c) && Reaches(semantics, c, id) {
      ExecutedNext(es, e, semantics, id, c);
    }
    forall k ensures k in x.circuits <==> CircuitReaches(es + [e], semantics, k, id) {
      ExecutedNext(es, e, semantics, id, k);
    }
  }

  lemma {:induction false} RowMerged(x: Variant, es: seq<Execution>, e: Execution, semantics: map<Text, Semantics>)
    requires Row(x, es, semantics) && Reaches(semantics, e.call, x.variantId)
    ensures Row(x.(solidityCalls := Added(x.solidityCalls, e.call), circuits := Added(x.circuits, e.circuit)),
                es + [e], semantics)
  {
    var id := x.variantId;
    AddedLaw(x.solidityCalls, e.call);
    AddedLaw(x.circuits, e.circuit);
    ExecutedNext(es, e, semantics, id, e.call);
    forall c
      ensures c in Added(x.solidityCalls, e.call) <==> ExecutesCall(es + [e], c) && Reaches(semantics, c, id)
    {
      ExecutedNext(es, e, semantics, id, c);
    }
    forall k ensures k in Added(x.circuits, e.circuit) <==> CircuitReaches(es + [e], semantics, k, id) {
      ExecutedNext(es, e, semantics, id, k);
    }
  }

  /** What one execution does to the map. */
  function Merged(byVariant: map<Text, Variant>, e: Execution, s: Semantics): map<Text, Variant> {
    var id := VariantId(s);
    if id in byVariant then
      var x := byVariant[id];
      byVariant[id := x.(solidityCalls := Added(x.solidityCalls, e.call), circuits := Added(x.circuits, e.circuit))]
    else byVariant[id := NewVariant(s, e.call, e.circuit)]
  }

  lemma {:induction false} MergeDescribes(
      byVariant: map<Text, Variant>, order: seq<Text>, es: seq<Execution>, e: Execution, semantics: map<Text, Semantics>)
    requires Describes(byVariant, order, es, semantics)
    requires IsFhe(e.call) && e.call in semantics && semantics[e.call].hcuPriced
    ensures var id := VariantId(semantics[e.call]);
      Describes(Merged(byVariant, e, semantics[e.call]), if id in byVariant then order else order + [id], es + [e], semantics)
  {
    var id, m := VariantId(semantics[e.call]), Merged(byVariant, e, semantics[e.call]);
    forall k | k in m ensures m[k].variantId == k && Row(m[k], es + [e], semantics) {
      if k != id {
        RowKept(byVariant[k], es, e, semantics);
      } else if id in byVariant {
        RowMerged(byVariant[id], es, e, semantics);
      } else {
        RowIntroduced(es, e, semantics, id);
      }
    }
  }

  lemma {:induction false} SkipDescribes(
      byVariant: map<Text, Variant>, order: seq<Text>, es: seq<Execution>, e: Execution, semantics: map<Text, Semantics>)
    requires Describes(byVariant, order, es, semantics)
    requires forall id :: !Reaches(semantics, e.call, id)
    ensures Describes(byVariant, order, es + [e], semantics)
  {
    forall id | id in byVariant ensures Row(byVariant[id], es + [e], semantics) {
      RowKept(byVariant[id], es, e, semantics);
    }
  }

  lemma {:induction false} ConsistentPrefix(es: seq<Execution>, all: seq<Execution>, semantics: map<Text, Semantics>)
    requires Consistent(all, semantics) && es <= all
    ensures Consistent(es, semantics)
  {
    assert forall i :: 0 <= i < |es| ==> es[i] == all[i];
  }

  lemma {:induction false} PrefixOfExecutions(circuits: seq<Circuit>, i: nat, j: nat)
    requires i < |circuits| && j < |circuits[i].operations|
    ensures Executions(circuits[..i]) + CallsOf(circuits[i].id, circuits[i].operations[..j + 1]) <= Executions(circuits)
    decreases |circuits|
  {
    var front, last := circuits[..|circuits| - 1], circuits[|circuits| - 1];
    if i < |circuits| - 1 {
      assert front[..i] == circuits[..i];
      PrefixOfExecutions(front, i, j);
    } else {
      assert front == circuits[..i];
      assert CallsOf(last.id, last.operations[..j + 1]) <= CallsOf(last.id, last.operations);
    }
  }

  /** The agreement check against the stored variant is agreement with the call that introduced it. */
  lemma {:induction false} ConflictIsInconsistent(
      x: Variant, es: seq<Execution>, e: Execution, semantics: map<Text, Semantics>)
    requires Row(x, es, semantics) && Reaches(semantics, e.call, x.variantId)
    requires Consistent(es, semantics)
    ensures x.resultType == semantics[e.call].resultType && x.arity == semantics[e.call].arity
            && x.enforcementOperation == semantics[e.call].enforcementOperation
            && x.operandTypes == semantics[e.call].operandTypes
       <==> Consistent(es + [e], semantics)
  {
    var id, es' := x.variantId, es + [e];
    FirstCallLaw(es, semantics, id);
    var first := FirstCall(es, semantics, id).value;
    var f :| 0 <= f < |es| && es[f].call == first;
    assert es'[f] == es[f] && es'[|es|] == e;
    if Agree(semantics[first], semantics[e.call]) {
      forall i, j, k | 0 <= i < |es'| && 0 <= j < |es'|
          && Reaches(semantics, es'[i].call, k) && Reaches(semantics, es'[j].call, k)
        ensures Agree(semantics[es'[i].call], semantics[es'[j].call])
      {
        assert i < |es| ==> es'[i] == es[i];
        assert j < |es| ==> es'[j] == es[j];
        assert i < |es| && j == |es| ==> Agree(semantics[es[i].call], semantics[es[f].call]);
        assert j < |es| && i == |es| ==> Agree(semantics[es[j].call], semantics[es[f].call]);
      }
      assert forall i :: 0 <= i < |es| ==> es'[i] == es[i];
    }
  }

  lemma {:induction false} SkipIsConsistent(es: seq<Execution>, e: Execution, semantics: map<Text, Semantics>)
    requires Consistent(es, semantics)
    requires IsFhe(e.call) ==> e.call in semantics
    requires forall i, id :: 0 <= i < |es| && Reaches(semantics, e.call, id) ==> !Reaches(semantics, es[i].call, id)
    ensures Consistent(es + [e], semantics)
  {
    var es' := es + [e];
    assert forall i :: 0 <= i < |es'| ==> es'[i] == if i < |es| then es[i] else e;
  }

  lemma {:induction false} ValuesAreManifest(
      byVariant: map<Text, Variant>, order: seq<Text>, es: seq<Execution>, semantics: map<Text, Semantics>, xs: seq<Variant>)
    requires Describes(byVariant, order, es, semantics)
    requires |xs| == |order| && forall i :: 0 <= i < |xs| ==> order[i] in byVariant && xs[i] == byVariant[order[i]]
    ensures IsManifest(SortBy(xs, IdOfVariant), es, semantics)
  {
    var sorted := SortBy(xs, IdOfVariant);
    forall i, j | 0 <= i < j < |xs| ensures IdOfVariant(xs[i]) != IdOfVariant(xs[j]) {
      assert Self(order[i]) != Self(order[j]);
    }
    SortByLaw(xs, IdOfVariant);
    SortByDistinct(xs, IdOfVariant);
    forall i | 0 <= i < |sorted| ensures Row(sorted[i], es, semantics) {
      SameElements(sorted, xs, sorted[i]);
    }
    forall i, id | 0 <= i < |es| && Reaches(semantics, es[i].call, id) ensures Listed(sorted, id) {
      assert id in order;
      var k :| 0 <= k < |order| && order[k] == id;
      SameElements(sorted, xs, xs[k]);
    }
  }

  /** What goes wrong in a prefix goes wrong in the whole. */
  lemma {:induction false} BrokenPrefix(
      circuits: seq<Circuit>, i: nat, j: nat, es: seq<Execution>, semantics: map<Text, Semantics>)
    requires i < |circuits| && j < |circuits[i].operations|
    requires es == Executions(circuits[..i]) + CallsOf(circuits[i].id, circuits[i].operations[..j + 1])
    requires !Consistent(es, semantics)
    ensures !Consistent(Executions(circuits), semantics)
  {
    PrefixOfExecutions(circuits, i, j);
    if Consistent(Executions(circuits), semantics) {
      ConsistentPrefix(es, Executions(circuits), semantics);
    }
  }

  lemma UndeclaredIsInconsistent(es: seq<Execution>, e: Execution, semantics: map<Text, Semantics>)
    requires IsFhe(e.call) && e.call !in semantics
    ensures !Consistent(es + [e], semantics)
  {
    assert (es + [e])[|es|] == e;
  }

  /** One call of one circuit: skipped, merged into the map, or refused. */
  method MergeCall(
      byVariant: map<Text, Variant>, order: seq<Text>, circuit: Text, call: Text, semantics: map<Text, Semantics>,
      ghost es: seq<Execution>)
      returns (refusal: Outcome, byVariant': map<Text, Variant>, order': seq<Text>)
    requires Describes(byVariant, order, es, semantics) && Consistent(es, semantics)
    ensures refusal.Done? <==> Consistent(es + [Execution(circuit, call)], semantics)
    ensures refusal.Done? ==> Describes(byVariant', order', es + [Execution(circuit, call)], semantics)
  {
    ghost var e := Execution(circuit, call);
    refusal, byVariant', order' := Done, byVariant, order;
    if !IsFhe(call) {
      SkipIsConsistent(es, e, semantics);
      SkipDescribes(byVariant, order, es, e, semantics);
      return;
    }
    if call !in semantics {
      UndeclaredIsInconsistent(es, e, semantics);
      refusal := Thrown("executes a call which has no declared operation semantics");
      return;
    }
    var declared := semantics[call];
    if !declared.hcuPriced {
      SkipIsConsistent(es, e, semantics);
      SkipDescribes(byVariant, order, es, e, semantics);
      return;
    }
    var id := VariantId(declared);
    MergeDescribes(byVariant, order, es, e, semantics);
    byVariant' := Merged(byVariant, Execution(circuit, call), declared);
    if id !in byVariant {
      SkipIsConsistent(es, e, semantics);
      order' := order + [id];
      return;
    }
    var existing := byVariant[id];
    ConflictIsInconsistent(existing, es, e, semantics);
    if existing.resultType != declared.resultType || existing.arity != declared.arity
      || existing.enforcementOperation != declared.enforcementOperation
      || existing.operandTypes != declared.operandTypes
    {
      refusal := Thrown("operation semantics describe a variant two incompatible ways");
    }
  }

  /** The derivation succeeds exactly on consistent circuits, and then lists exactly what they execute. */
  method DeriveCanonicalOperationManifest(circuits: seq<Circuit>, semantics: map<Text, Semantics>)
      returns (r: Result<seq<Variant>>)
    ensures r.Ok? <==> Consistent(Executions(circuits), semantics)
    ensures r.Ok? ==> IsManifest(r.value, Executions(circuits), semantics)
  {
    var byVariant: map<Text, Variant>, order: seq<Text> := map[], [];
    for i := 0 to |circuits|
      invariant Describes(byVariant, order, Executions(circuits[..i]), semantics)
      invariant Consistent(Executions(circuits[..i]), semantics)
    {
      var circuit := circuits[i];
      ghost var before := Executions(circuits[..i]);
      assert before + CallsOf(circuit.id, circuit.operations[..0]) == before;
      for j := 0 to |circuit.operations|
        invariant Describes(byVariant, order, before + CallsOf(circuit.id, circuit.operations[..j]), semantics)
        invariant Consistent(before + CallsOf(circuit.id, circuit.operations[..j]), semantics)
      {
        ghost var es := before + CallsOf(circuit.id, circuit.operations[..j]);
        ghost var next := before + CallsOf(circuit.id, circuit.operations[..j + 1]);
        assert next == es + [Execution(circuit.id, circuit.operations[j])];
        var refusal, byVariant', order' :=
          MergeCall(byVariant, order, circuit.id, circuit.operations[j], semantics, es);
        if refusal.Thrown? {
          BrokenPrefix(circuits, i, j, next, semantics);
          return Err(refusal.error);
        }
        byVariant, order := byVariant', order';
      }
      assert circuit.operations[..|circuit.operations|] == circuit.operations;
      assert circuits[..i + 1][..i] == circuits[..i];
    }
    assert circuits[..|circuits|] == circuits;
    var values := seq(|order|, i requires 0 <= i < |order| && order[i] in byVariant => byVariant[order[i]]);
    ValuesAreManifest(byVariant, order, Executions(circuits), semantics, values);
    return Ok(SortBy(values, IdOfVariant));
  }

  // ----- what a manifest lists -----

  ghost predicate ListsCall(xs: seq<Variant>, call: Text) {
    exists k :: 0 <= k < |xs| && call in xs[k].solidityCalls
  }

  ghost predicate ListsCircuit(xs: seq<Variant>, circuit: Text) {
    exists k :: 0 <= k < |xs| && circuit in xs[k].circuits
  }

  /** Begins with "FHE.", in code units. */
  predicate Encrypted(call: Text) {
    |call| >= 4 && call[0] == 70 && call[1] == 72 && call[2] == 69 && call[3] == 46
  }

  /** Nothing that no circuit executes is listed, and nothing that some circuit executes is omitted: an encrypted call
      is declared, and listed, with its circuit, exactly if it is priced; any other call is not listed. */
  lemma {:induction false} ManifestOmitsNothing(
      xs: seq<Variant>, es: seq<Execution>, semantics: map<Text, Semantics>, call: Text)
    requires Consistent(es, semantics) && IsManifest(xs, es, semantics)
    ensures ExecutesCall(es, call) && Encrypted(call) ==> call in semantics
    ensures ListsCall(xs, call)
       <==> ExecutesCall(es, call) && Encrypted(call) && call in semantics && semantics[call].hcuPriced
    ensures forall i :: 0 <= i < |es| && ListsCall(xs, es[i].call) ==> ListsCircuit(xs, es[i].circuit)
  {
    assert IsFhe(call) <==> Encrypted(call);
    if ListsCall(xs, call) {
      var k :| 0 <= k < |xs| && call in xs[k].solidityCalls;
      assert Row(xs[k], es, semantics);
    }
    if ExecutesCall(es, call) && IsFhe(call) && call in semantics && semantics[call].hcuPriced {
      var i :| 0 <= i < |es| && es[i].call == call;
      var k := RowOfExecution(xs, es, semantics, i);
    }
    forall i | 0 <= i < |es| && ListsCall(xs, es[i].call) ensures ListsCircuit(xs, es[i].circuit) {
      var m :| 0 <= m < |xs| && es[i].call in xs[m].solidityCalls;
      assert Row(xs[m], es, semantics);
      var k := RowOfExecution(xs, es, semantics, i);
    }
  }

  lemma RowOfExecution(xs: seq<Variant>, es: seq<Execution>, semantics: map<Text, Semantics>, i: nat) returns (k: nat)
    requires IsManifest(xs, es, semantics) && i < |es|
    requires es[i].call in semantics && Reaches(semantics, es[i].call, VariantId(semantics[es[i].call]))
    ensures k < |xs| && es[i].call in xs[k].solidityCalls && es[i].circuit in xs[k].circuits
  {
    var id := VariantId(semantics[es[i].call]);
    assert Listed(xs, id);
    k :| 0 <= k < |xs| && xs[k].variantId == id;
    assert Row(xs[k], es, semantics);
    assert ExecutesCall(es, es[i].call) && CircuitReaches(es, semantics, es[i].circuit, id);
  }
}
