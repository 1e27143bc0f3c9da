/** When the manifest does not depend on the order in which circuits and operations are registered. */
module ManifestOrder {
  import opened Outcomes
  import opened Text
  import opened OperationManifest

  /** The same executions, in whatever order and however often. */
  ghost predicate SameExecutions(es: seq<Execution>, fs: seq<Execution>) {
    forall e :: e in es <==> e in fs
  }

  /** No two executed operations with one variant id differ in the three names the id is made of. */
  ghost predicate NoCollision(es: seq<Execution>, semantics: map<Text, Semantics>) {
    forall i, j, id :: 0 <= i < |es| && 0 <= j < |es|
      && Reaches(semantics, es[i].call, id) && Reaches(semantics, es[j].call, id)
      ==> SameNames(semantics[es[i].call], semantics[es[j].call])
  }

  predicate SameNames(s: Semantics, t: Semantics) {
    s.canonicalOperation == t.canonicalOperation && s.operandMode == t.operandMode && s.costKeyType == t.costKeyType
  }

  lemma {:induction false} SameReached(
      es: seq<Execution>, fs: seq<Execution>, semantics: map<Text, Semantics>, t: Text, id: Text)
    requires SameExecutions(es, fs)
    ensures ExecutesCall(es, t) ==> ExecutesCall(fs, t)
    ensures CircuitReaches(es, semantics, t, id) ==> CircuitReaches(fs, semantics, t, id)
  {
    if ExecutesCall(es, t) {
      var i :| 0 <= i < |es| && es[i].call == t;
      assert es[i] in fs;
      var j :| 0 <= j < |fs| && fs[j] == es[i];
    }
    if CircuitReaches(es, semantics, t, id) {
      var i :| 0 <= i < |es| && es[i].circuit == t && Reaches(semantics, es[i].call, id);
      assert es[i] in fs;
      var j :| 0 <= j < |fs| && fs[j] == es[i];
    }
  }

  /** Rows for one id under the same executions are equal. */
  lemma {:induction false} RowsAgree(
      x: Variant, y: Variant, es: seq<Execution>, fs: seq<Execution>, semantics: map<Text, Semantics>)
    requires Row(x, es, semantics) && Row(y, fs, semantics) && x.variantId == y.variantId
    requires SameExecutions(es, fs) && SameExecutions(fs, es)
    requires Consistent(es, semantics) && NoCollision(es, semantics)
    ensures x == y
  {
    var id := x.variantId;
    FirstCallLaw(es, semantics, id);
    FirstCallLaw(fs, semantics, id);
    var c, d := FirstCall(es, semantics, id).value, FirstCall(fs, semantics, id).value;
    SameReached(fs, es, semantics, d, id);
    var i :| 0 <= i < |es| && es[i].call == c;
    var j :| 0 <= j < |es| && es[j].call == d;
    assert Agree(semantics[es[i].call], semantics[es[j].call]);
    assert SameNames(semantics[es[i].call], semantics[es[j].call]);
    ListsAgree(x, y, es, fs, semantics);
  }

  lemma {:induction false} ListsAgree(
      x: Variant, y: Variant, es: seq<Execution>, fs: seq<Execution>, semantics: map<Text, Semantics>)
    requires Row(x, es, semantics) && Row(y, fs, semantics) && x.variantId == y.variantId
    requires SameExecutions(es, fs) && SameExecutions(fs, es)
    ensures x.solidityCalls == y.solidityCalls && x.circuits == y.circuits
  {
    var id := x.variantId;
    forall t ensures t in x.solidityCalls <==> t in y.solidityCalls {
      SameReached(es, fs, semantics, t, id);
      SameReached(fs, es, semantics, t, id);
    }
    SortedIsUnique(x.solidityCalls, y.solidityCalls, Self);
    forall t ensures t in x.circuits <==> t in y.circuits {
      SameReached(es, fs, semantics, t, id);
      SameReached(fs, es, semantics, t, id);
    }
    SortedIsUnique(x.circuits, y.circuits, Self);
  }

  lemma {:induction false} ManifestIncluded(
      xs: seq<Variant>, ys: seq<Variant>, es: seq<Execution>, fs: seq<Execution>, semantics: map<Text, Semantics>, k: nat)
    requires IsManifest(xs, es, semantics) && IsManifest(ys, fs, semantics) && k < |xs|
    requires SameExecutions(es, fs) && SameExecutions(fs, es)
    requires Consistent(es, semantics) && NoCollision(es, semantics)
    ensures xs[k] in ys
  {
    var id := xs[k].variantId;
    assert Row(xs[k], es, semantics);
    FirstCallLaw(es, semantics, id);
    var c := FirstCall(es, semantics, id).value;
    SameReached(es, fs, semantics, c, id);
    var j :| 0 <= j < |fs| && fs[j].call == c;
    assert Listed(ys, id);
    var m :| 0 <= m < |ys| && ys[m].variantId == id;
    assert Row(ys[m], fs, semantics);
    RowsAgree(xs[k], ys[m], es, fs, semantics);
  }

  lemma {:induction false} ConsistencyIsUnordered(es: seq<Execution>, fs: seq<Execution>, semantics: map<Text, Semantics>)
    requires forall i :: 0 <= i < |fs| ==> fs[i] in es
    ensures Consistent(es, semantics) ==> Consistent(fs, semantics)
    ensures NoCollision(es, semantics) ==> NoCollision(fs, semantics)
  {
    forall i | 0 <= i < |fs| ensures exists k :: 0 <= k < |es| && es[k] == fs[i] {
      assert fs[i] in es;
    }
  }

  /** Without collisions the executions determine the manifest. */
  lemma {:induction false} ManifestIsUnique(
      xs: seq<Variant>, ys: seq<Variant>, es: seq<Execution>, fs: seq<Execution>, semantics: map<Text, Semantics>)
    requires IsManifest(xs, es, semantics) && IsManifest(ys, fs, semantics)
    requires SameExecutions(es, fs) && Consistent(es, semantics) && NoCollision(es, semantics)
    ensures xs == ys
  {
    assert SameExecutions(fs, es);
    ConsistencyIsUnordered(es, fs, semantics);
    forall k | 0 <= k < |xs| ensures xs[k] in ys {
      ManifestIncluded(xs, ys, es, fs, semantics, k);
    }
    forall k | 0 <= k < |ys| ensures ys[k] in xs {
      ManifestIncluded(ys, xs, fs, es, semantics, k);
    }
    SortedIsUnique(xs, ys, IdOfVariant);
  }

  lemma {:induction false} ListedInBoth(
      xs: seq<Variant>, ys: seq<Variant>, es: seq<Execution>, semantics: map<Text, Semantics>, k: nat)
    requires IsManifest(xs, es, semantics) && IsManifest(ys, es, semantics) && k < |xs|
    ensures xs[k] in ys
  {
    var id := xs[k].variantId;
    assert Row(xs[k], es, semantics);
    FirstCallLaw(es, semantics, id);
    assert Listed(ys, id);
    var m :| 0 <= m < |ys| && ys[m].variantId == id;
    assert Row(ys[m], es, semantics);
    ListsAgree(xs[k], ys[m], es, es, semantics);
  }

  /** In one order of execution there is only one manifest, collisions or not. */
  lemma {:induction false} ManifestIsDetermined(
      xs: seq<Variant>, ys: seq<Variant>, es: seq<Execution>, semantics: map<Text, Semantics>)
    requires IsManifest(xs, es, semantics) && IsManifest(ys, es, semantics)
    ensures xs == ys
  {
    forall k | 0 <= k < |xs| ensures xs[k] in ys {
      ListedInBoth(xs, ys, es, semantics, k);
    }
    forall k | 0 <= k < |ys| ensures ys[k] in xs {
      ListedInBoth(ys, xs, es, semantics, k);
    }
    SortedIsUnique(xs, ys, IdOfVariant);
  }

  /** Consistent executions have a manifest. */
  lemma {:induction false} ManifestExists(es: seq<Execution>, semantics: map<Text, Semantics>) returns (xs: seq<Variant>)
    requires Consistent(es, semantics)
    ensures IsManifest(xs, es, semantics)
  {
    var byVariant, order := MapExists(es, semantics);
    var values := seq(|order|, i requires 0 <= i < |order| && order[i] in byVariant => byVariant[order[i]]);
    ValuesAreManifest(byVariant, order, es, semantics, values);
    xs := SortBy(values, IdOfVariant);
  }

  lemma {:induction false} MapExists(es: seq<Execution>, semantics: map<Text, Semantics>)
      returns (byVariant: map<Text, Variant>, order: seq<Text>)
    requires Consistent(es, semantics)
    ensures Describes(byVariant, order, es, semantics)
  {
    if es == [] {
      byVariant, order := map[], [];
    } else {
      var front, e := es[..|es| - 1], es[|es| - 1];
      assert es == front + [e];
      ConsistentPrefix(front, es, semantics);
      byVariant, order := MapExists(front, semantics);
      if IsFhe(e.call) && semantics[e.call].hcuPriced {
        MergeDescribes(byVariant, order, front, e, semantics);
        var id := VariantId(semantics[e.call]);
        if id !in byVariant {
          order := order + [id];
        }
        byVariant := Merged(byVariant, e, semantics[e.call]);
      } else {
        SkipDescribes(byVariant, order, front, e, semantics);
      }
    }
  }

  // ----- reordering -----

  /** A circuit up to the order of its calls. */
  datatype Shape = Shape(id: Text, calls: multiset<Text>)

  function ShapeOf(c: Circuit): Shape {
    Shape(c.id, multiset(c.operations))
  }

  function Shapes(circuits: seq<Circuit>): (ss: seq<Shape>)
    ensures |ss| == |circuits|
  {
    seq(|circuits|, i requires 0 <= i < |circuits| => ShapeOf(circuits[i]))
  }

  /** The same circuits in another order, and their calls in another order. */
  ghost predicate Reordered(cs: seq<Circuit>, ds: seq<Circuit>) {
    multiset(Shapes(cs)) == multiset(Shapes(ds))
  }

  predicate InShape(s: Shape, e: Execution) {
    s.id == e.circuit && e.call in s.calls
  }

  lemma {:induction false} ExecutedByShape(circuits: seq<Circuit>, e: Execution)
    ensures e in Executions(circuits) <==> exists s :: s in Shapes(circuits) && InShape(s, e)
    decreases |circuits|
  {
    if circuits != [] {
      var front, last := circuits[..|circuits| - 1], circuits[|circuits| - 1];
      ExecutedByShape(front, e);
      assert Shapes(circuits) == Shapes(front) + [ShapeOf(last)];
      assert e in CallsOf(last.id, last.operations) <==> InShape(ShapeOf(last), e) by {
        if InShape(ShapeOf(last), e) {
          var k :| 0 <= k < |last.operations| && last.operations[k] == e.call;
          assert CallsOf(last.id, last.operations)[k] == e;
        }
      }
    }
  }

  /** Reordering keeps the executions. */
  lemma {:induction false} ReorderedExecutions(cs: seq<Circuit>, ds: seq<Circuit>)
    requires Reordered(cs, ds)
    ensures SameExecutions(Executions(cs), Executions(ds))
  {
    forall e ensures e in Executions(cs) <==> e in Executions(ds) {
      ExecutedByShape(cs, e);
      ExecutedByShape(ds, e);
      forall s ensures s in Shapes(cs) <==> s in Shapes(ds) {
        SameElements(Shapes(cs), Shapes(ds), s);
      }
    }
  }

  /** The manifest of the circuits is that of each of their reorderings. */
  ghost predicate OrderIndependent(circuits: seq<Circuit>, semantics: map<Text, Semantics>) {
    forall cs, ds, xs, ys ::
      Reordered(circuits, cs) && Reordered(circuits, ds)
      && IsManifest(xs, Executions(cs), semantics) && IsManifest(ys, Executions(ds), semantics)
      ==> xs == ys
  }

  lemma {:induction false} ExecutionsOfFirst(c: Circuit, circuits: seq<Circuit>)
    ensures Executions([c] + circuits) == CallsOf(c.id, c.operations) + Executions(circuits)
    decreases |circuits|
  {
    var cs := [c] + circuits;
    if circuits == [] {
      assert cs[..0] == [];
    } else {
      var front := circuits[..|circuits| - 1];
      ExecutionsOfFirst(c, front);
      assert cs[..|cs| - 1] == [c] + front;
    }
  }

  lemma {:induction false} FirstCallOfFirst(
      e: Execution, es: seq<Execution>, semantics: map<Text, Semantics>, id: Text)
    requires Reaches(semantics, e.call, id)
    ensures FirstCall([e] + es, semantics, id) == Some(e.call)
    decreases |es|
  {
    if es == [] {
      assert ([e] + es)[..0] == [];
      assert FirstCall([], semantics, id) == None;
    } else {
      var front := es[..|es| - 1];
      FirstCallOfFirst(e, front, semantics, id);
      assert ([e] + es)[..|es|] == [e] + front;
    }
  }

  /** The element at `i` moved to the front. */
  function Fronted<T>(xs: seq<T>, i: nat): seq<T>
    requires i < |xs|
  {
    [xs[i]] + xs[..i] + xs[i + 1..]
  }

  lemma FrontedElements<T>(xs: seq<T>, i: nat)
    requires i < |xs|
    ensures multiset(Fronted(xs, i)) == multiset(xs)
  {
    assert xs == xs[..i] + [xs[i]] + xs[i + 1..];
  }

  /** One circuit moved to the front of the registration, and one of its calls to the front of the circuit. */
  function CallFronted(circuits: seq<Circuit>, i: nat, k: nat): seq<Circuit>
    requires i < |circuits| && k < |circuits[i].operations|
  {
    [Circuit(circuits[i].id, Fronted(circuits[i].operations, k))] + circuits[..i] + circuits[i + 1..]
  }

  lemma ShapesConcat(cs: seq<Circuit>, ds: seq<Circuit>)
    ensures Shapes(cs + ds) == Shapes(cs) + Shapes(ds)
  {
  }

  lemma {:induction false} CallFrontedIsReordered(circuits: seq<Circuit>, i: nat, k: nat)
    requires i < |circuits| && k < |circuits[i].operations|
    ensures Reordered(circuits, CallFronted(circuits, i, k))
  {
    var c := Circuit(circuits[i].id, Fronted(circuits[i].operations, k));
    FrontedElements(circuits[i].operations, k);
    assert ShapeOf(c) == ShapeOf(circuits[i]);
    ShapesConcat([c] + circuits[..i], circuits[i + 1..]);
    ShapesConcat([c], circuits[..i]);
    assert Shapes([c]) == [Shapes(circuits)[i]];
    assert Shapes(circuits[..i]) == Shapes(circuits)[..i] && Shapes(circuits[i + 1..]) == Shapes(circuits)[i + 1..];
    FrontedElements(Shapes(circuits), i);
  }

  /** After that, the call introduces its variant. */
  lemma {:induction false} CallFrontedIsFirst(
      circuits: seq<Circuit>, i: nat, k: nat, semantics: map<Text, Semantics>, id: Text)
    requires i < |circuits| && k < |circuits[i].operations| && Reaches(semantics, circuits[i].operations[k], id)
    ensures FirstCall(Executions(CallFronted(circuits, i, k)), semantics, id) == Some(circuits[i].operations[k])
  {
    var c := Circuit(circuits[i].id, Fronted(circuits[i].operations, k));
    var others := circuits[..i] + circuits[i + 1..];
    assert CallFronted(circuits, i, k) == [c] + others;
    ExecutionsOfFirst(c, others);
    var e := Execution(c.id, c.operations[0]);
    var es := CallsOf(c.id, c.operations)[1..] + Executions(others);
    assert CallsOf(c.id, c.operations) + Executions(others) == [e] + es;
    FirstCallOfFirst(e, es, semantics, id);
  }

  /** The row of a variant has the fields of the call that introduces it. */
  lemma {:induction false} NamesOfFirst(
      xs: seq<Variant>, es: seq<Execution>, semantics: map<Text, Semantics>, id: Text, call: Text)
    requires IsManifest(xs, es, semantics) && FirstCall(es, semantics, id) == Some(call)
    ensures call in semantics && Listed(xs, id)
    ensures forall m :: 0 <= m < |xs| && xs[m].variantId == id ==> Fields(xs[m], semantics[call])
  {
    FirstCallLaw(es, semantics, id);
    var f :| 0 <= f < |es| && Reaches(semantics, es[f].call, id);
    forall m | 0 <= m < |xs| && xs[m].variantId == id ensures Fields(xs[m], semantics[call]) {
      assert Row(xs[m], es, semantics);
    }
  }

  lemma {:induction false} WhereExecuted(circuits: seq<Circuit>, e: Execution) returns (i: nat, k: nat)
    requires e in Executions(circuits)
    ensures i < |circuits| && k < |circuits[i].operations| && circuits[i].operations[k] == e.call
  {
    ExecutedByShape(circuits, e);
    var s :| s in Shapes(circuits) && InShape(s, e);
    i :| 0 <= i < |circuits| && Shapes(circuits)[i] == s;
    k :| 0 <= k < |circuits[i].operations| && circuits[i].operations[k] == e.call;
  }

  /** The manifest of a reordering that puts a call first has the names of that call. */
  lemma {:induction false} FrontedManifest(
      circuits: seq<Circuit>, semantics: map<Text, Semantics>, e: Execution, id: Text)
      returns (cs: seq<Circuit>, xs: seq<Variant>)
    requires Consistent(Executions(circuits), semantics) && e in Executions(circuits) && Reaches(semantics, e.call, id)
    ensures Reordered(circuits, cs) && IsManifest(xs, Executions(cs), semantics)
    ensures forall m :: 0 <= m < |xs| && xs[m].variantId == id ==> Fields(xs[m], semantics[e.call])
    ensures Listed(xs, id)
  {
    var i, k := WhereExecuted(circuits, e);
    cs := CallFronted(circuits, i, k);
    CallFrontedIsReordered(circuits, i, k);
    CallFrontedIsFirst(circuits, i, k, semantics, id);
    ReorderedExecutions(circuits, cs);
    ConsistencyIsUnordered(Executions(circuits), Executions(cs), semantics);
    xs := ManifestExists(Executions(cs), semantics);
    NamesOfFirst(xs, Executions(cs), semantics, id, e.call);
  }

  lemma {:induction false} CollisionShows(
      circuits: seq<Circuit>, semantics: map<Text, Semantics>, i: nat, j: nat, id: Text)
    requires Consistent(Executions(circuits), semantics) && OrderIndependent(circuits, semantics)
    requires i < |Executions(circuits)| && j < |Executions(circuits)|
    requires Reaches(semantics, Executions(circuits)[i].call, id) && Reaches(semantics, Executions(circuits)[j].call, id)
    ensures SameNames(semantics[Executions(circuits)[i].call], semantics[Executions(circuits)[j].call])
  {
    var cs, xs := FrontedManifest(circuits, semantics, Executions(circuits)[i], id);
    var ds, ys := FrontedManifest(circuits, semantics, Executions(circuits)[j], id);
    assert xs == ys;
    var m :| 0 <= m < |xs| && xs[m].variantId == id;
    assert Fields(xs[m], semantics[Executions(circuits)[i].call]) && Fields(ys[m], semantics[Executions(circuits)[j].call]);
  }

  /** Exactly when the order of circuits and of their calls does not matter: when no two executed operations share an id
      without sharing its three names. */
  lemma {:induction false} OrderIndependentIffNoCollision(circuits: seq<Circuit>, semantics: map<Text, Semantics>)
    requires Consistent(Executions(circuits), semantics)
    ensures OrderIndependent(circuits, semantics) <==> NoCollision(Executions(circuits), semantics)
  {
    var es := Executions(circuits);
    if NoCollision(es, semantics) {
      forall cs, ds, xs, ys |
          Reordered(circuits, cs) && Reordered(circuits, ds)
          && IsManifest(xs, Executions(cs), semantics) && IsManifest(ys, Executions(ds), semantics)
        ensures xs == ys
      {
        ReorderedExecutions(circuits, cs);
        ReorderedExecutions(circuits, ds);
        ConsistencyIsUnordered(es, Executions(cs), semantics);
        ManifestIsUnique(xs, ys, Executions(cs), Executions(ds), semantics);
      }
    }
    if OrderIndependent(circuits, semantics) {
      forall i, j, id | 0 <= i < |es| && 0 <= j < |es|
          && Reaches(semantics, es[i].call, id) && Reaches(semantics, es[j].call, id)
        ensures SameNames(semantics[es[i].call], semantics[es[j].call])
      {
        CollisionShows(circuits, semantics, i, j, id);
      }
    }
  }

  // ----- names without dots -----

  predicate DotFree(t: Text) {
    DOT !in t
  }

  lemma DotInside(a: Text, x: Text, b: Text, y: Text)
    requires a + [DOT] + x == b + [DOT] + y && |a| < |b|
    ensures !DotFree(b)
  {
    assert (a + [DOT] + x)[|a|] == DOT;
    assert (b + [DOT] + y)[|a|] == b[|a|];
  }

  lemma CutAtDot(a: Text, x: Text, b: Text, y: Text)
    requires DotFree(a) && DotFree(b) && a + [DOT] + x == b + [DOT] + y
    ensures a == b && x == y
  {
    if |a| < |b| {
      DotInside(a, x, b, y);
    } else if |b| < |a| {
      DotInside(b, y, a, x);
    } else {
      var s, t := a + [DOT] + x, b + [DOT] + y;
      assert s[..|a|] == a && t[..|b|] == b && s[|a| + 1..] == x && t[|b| + 1..] == y;
    }
  }

  /** Operations and modes without dots, as all the registered ones are, cannot collide. */
  lemma DotFreeNamesDoNotCollide(s: Semantics, t: Semantics)
    requires VariantId(s) == VariantId(t)
    requires DotFree(s.canonicalOperation) && DotFree(s.operandMode)
    requires DotFree(t.canonicalOperation) && DotFree(t.operandMode)
    ensures SameNames(s, t)
  {
    var x, y := s.operandMode + [DOT] + s.costKeyType, t.operandMode + [DOT] + t.costKeyType;
    assert VariantId(s) == s.canonicalOperation + [DOT] + x && VariantId(t) == t.canonicalOperation + [DOT] + y;
    CutAtDot(s.canonicalOperation, x, t.canonicalOperation, y);
    CutAtDot(s.operandMode, s.costKeyType, t.operandMode, t.costKeyType);
  }

  // "types" and "scalar"
  const TYPES: Text := [116, 121, 112, 101, 115]
  const SCALAR: Text := [115, 99, 97, 108, 97, 114]

  /** The calls "FHE.x" and "FHE.y", in code units. */
  const X_CALL: Text := [70, 72, 69, 46, 120]
  const Y_CALL: Text := [70, 72, 69, 46, 121]

  /** "scalar.B" and "A.types" */
  const SCALAR_B: Text := [115, 99, 97, 108, 97, 114, 46, 66]
  const A_TYPES: Text := [65, 46, 116, 121, 112, 101, 115]

  /** "A.types.scalar.B" */
  const SHARED_ID: Text := [65, 46, 116, 121, 112, 101, 115, 46, 115, 99, 97, 108, 97, 114, 46, 66]

  /** "A" "types" "scalar.B" */
  const X_SEMANTICS: Semantics := Semantics([65], [], TYPES, [], [], SCALAR_B, 1, true)
  /** "A.types" "scalar" "B" */
  const Y_SEMANTICS: Semantics := Semantics(A_TYPES, [], SCALAR, [], [], [66], 1, true)

  /** With dots, two agreeing operations with different names can have one id. */
  lemma DottedNamesCollide()
    ensures VariantId(X_SEMANTICS) == VariantId(Y_SEMANTICS) == SHARED_ID
    ensures Agree(X_SEMANTICS, Y_SEMANTICS) && !SameNames(X_SEMANTICS, Y_SEMANTICS)
  {
    assert [65] + [DOT] + TYPES + [DOT] + SCALAR_B == SHARED_ID;
    assert A_TYPES + [DOT] + SCALAR + [DOT] + [66] == SHARED_ID;
    assert |[65]| != |A_TYPES|;
    assert !SameNames(X_SEMANTICS, Y_SEMANTICS);
  }

  lemma TwoExecutions(c: Text, x: Text, d: Text, y: Text)
    ensures Executions([Circuit(c, [x]), Circuit(d, [y])]) == [Execution(c, x)] + [Execution(d, y)]
  {
    var first, second := Circuit(c, [x]), Circuit(d, [y]);
    assert [first, second] == [first] + [second] && [second] == [second] + [];
    ExecutionsOfFirst(first, [second]);
    ExecutionsOfFirst(second, []);
    assert CallsOf(c, [x]) == [Execution(c, x)] && CallsOf(d, [y]) == [Execution(d, y)];
  }

  /** A row that has the fields of the first of two calls, and lists both, is their manifest. */
  lemma {:induction false} TwoCallManifest(
      e: Execution, f: Execution, semantics: map<Text, Semantics>, x: Variant, xs: seq<Variant>)
    requires Reaches(semantics, e.call, x.variantId) && Reaches(semantics, f.call, x.variantId)
    requires Fields(x, semantics[e.call]) && StrictlySorted(x.solidityCalls) && StrictlySorted(x.circuits)
    requires forall c :: c in x.solidityCalls <==> c == e.call || c == f.call
    requires forall t :: t in x.circuits <==> t == e.circuit || t == f.circuit
    ensures IsManifest(xs, [e] + [f], semantics) <==> xs == [x]
  {
    var es := [e] + [f];
    assert es[0] == e && es[1] == f;
    FirstCallOfFirst(e, [f], semantics, x.variantId);
    assert Row(x, es, semantics);
    assert [x][0] == x;
    assert IsManifest([x], es, semantics);
    if IsManifest(xs, es, semantics) {
      ManifestIsDetermined(xs, [x], es, semantics);
    }
  }

  const SEMANTICS := map[X_CALL := X_SEMANTICS, Y_CALL := Y_SEMANTICS]

  lemma BothReach()
    ensures X_CALL in SEMANTICS && SEMANTICS[X_CALL] == X_SEMANTICS
    ensures Y_CALL in SEMANTICS && SEMANTICS[Y_CALL] == Y_SEMANTICS
    ensures Reaches(SEMANTICS, X_CALL, SHARED_ID) && Reaches(SEMANTICS, Y_CALL, SHARED_ID)
  {
    DottedNamesCollide();
    assert X_CALL[4] != Y_CALL[4];
  }

  lemma InOrder(a: Text, b: Text)
    requires |a| == |b| > 0 && a[..|a| - 1] == b[..|b| - 1] && a[|a| - 1] < b[|b| - 1]
    ensures StrictlySorted([a, b])
  {
    BeforeIsLexicographic(a, b);
  }

  /** The one row, with the names of the first call and both calls and circuits in order. */
  function SharedRow(s: Semantics): Variant {
    Variant(SHARED_ID, s.canonicalOperation, [], s.operandMode, [], [], s.costKeyType, 1, [X_CALL, Y_CALL], [[1], [2]])
  }

  /** Two circuits, each executing one of these calls: the manifest of the one order of registration has the names of the
      one, that of the other order those of the other. */
  lemma {:induction false} OrderCanMatter(xs: seq<Variant>, ys: seq<Variant>)
    ensures var one, two := Circuit([1], [X_CALL]), Circuit([2], [Y_CALL]);
      && (IsManifest(xs, Executions([one, two]), SEMANTICS) <==> xs == [SharedRow(X_SEMANTICS)])
      && (IsManifest(ys, Executions([two, one]), SEMANTICS) <==> ys == [SharedRow(Y_SEMANTICS)])
      && SharedRow(X_SEMANTICS) != SharedRow(Y_SEMANTICS)
  {
    var e, f := Execution([1], X_CALL), Execution([2], Y_CALL);
    BothReach();
    DottedNamesCollide();
    TwoExecutions([1], X_CALL, [2], Y_CALL);
    TwoExecutions([2], Y_CALL, [1], X_CALL);
    InOrder(X_CALL, Y_CALL);
    InOrder([1], [2]);
    TwoCallManifest(e, f, SEMANTICS, SharedRow(X_SEMANTICS), xs);
    TwoCallManifest(f, e, SEMANTICS, SharedRow(Y_SEMANTICS), ys);
  }
}
