/** Which text the canonical printer chooses, among all those that mean the same: keys in lexicographic order at every
    depth, and string literals as short as a text without lone surrogates allows. */
module CanonicalForm {
  import opened Outcomes
  import opened Text
  import opened CanonicalJson

  // ----- key order -----

  /** At every depth, the keys of an object ascend strictly. */
  ghost predicate KeysAscend(v: Json) {
    match v
    case Array(items) => forall i :: 0 <= i < |items| ==> KeysAscend(items[i])
    case Object(members) =>
      && (forall i :: 0 <= i < |members| ==> KeysAscend(members[i].value))
      && (forall i, j :: 0 <= i < j < |members| ==>
            Lexicographic(members[i].key, members[j].key) && members[i].key != members[j].key)
    case _ => true
  }

  lemma SortedIffAscending(ms: seq<Member>)
    ensures SortedBy(ms, KeyOfMember)
       <==> forall i, j :: 0 <= i < j < |ms| ==> Lexicographic(ms[i].key, ms[j].key)
  {
    forall i, j | 0 <= i < j < |ms|
      ensures Before(KeyOfMember(ms[i]), KeyOfMember(ms[j])) <==> Lexicographic(ms[i].key, ms[j].key)
    {
      BeforeIsLexicographic(ms[i].key, ms[j].key);
    }
  }

  /** The normal form of a value has its keys in order. */
  lemma {:induction false} NormalAscends(v: Json)
    requires WellFormed(v)
    ensures WellFormed(Normal(v)) && KeysAscend(Normal(v))
  {
    match v
    case Array(items) =>
      forall i | 0 <= i < |items| ensures WellFormed(Normal(items[i])) && KeysAscend(Normal(items[i])) {
        NormalAscends(items[i]);
      }
    case Object(members) =>
      var ms, sorted := NormalMembers(members), Normal(v).members;
      forall i | 0 <= i < |ms| ensures WellFormed(ms[i].value) && KeysAscend(ms[i].value) {
        NormalAscends(members[i].value);
      }
      SortByLaw(ms, KeyOfMember);
      KeysStayDistinct(members);
      SortByDistinct(ms, KeyOfMember);
      SortedIffAscending(sorted);
      forall i | 0 <= i < |sorted| ensures WellFormed(sorted[i].value) && KeysAscend(sorted[i].value) {
        SameElements(sorted, ms, sorted[i]);
      }
      assert forall i, j :: 0 <= i < j < |sorted| ==> KeyOfMember(sorted[i]) != KeyOfMember(sorted[j]);
    case _ =>
  }

  /** A value whose keys are in order is its own normal form. */
  lemma {:induction false} AscendingIsNormal(v: Json)
    requires WellFormed(v) && KeysAscend(v)
    ensures Normal(v) == v
  {
    match v
    case Array(items) =>
      forall i | 0 <= i < |items| ensures Normal(items[i]) == items[i] {
        AscendingIsNormal(items[i]);
      }
    case Object(members) =>
      forall i | 0 <= i < |members| ensures NormalMembers(members)[i] == members[i] {
        AscendingIsNormal(members[i].value);
      }
      assert NormalMembers(members) == members;
      SortedIffAscending(members);
      KeysStayDistinct(members);
      SortByLaw(members, KeyOfMember);
      SortByDistinct(members, KeyOfMember);
      forall m ensures m in SortBy(members, KeyOfMember) <==> m in members {
        SameElements(SortBy(members, KeyOfMember), members, m);
      }
      SortedIsUnique(SortBy(members, KeyOfMember), members, KeyOfMember);
    case _ =>
  }

  /** The order of the output: the text reads back as the one value that is equal to the input, with objects read as
      maps, and whose keys ascend at every depth. */
  lemma {:induction false} CanonicalKeysAscend(v: Json, w: Json)
    requires Supported(v) && WellFormed(v) && WellFormed(w)
    ensures CanonicalJson.CanonicalJson(v).Ok?
    ensures ReadValue(CanonicalJson.CanonicalJson(v).value) == Some(Read(w, [])) <==> Same(v, w) && KeysAscend(w)
  {
    CanonicalJsonReadsBack(v);
    NormalAscends(v);
    AscendingIsNormal(Normal(v));
    SameIffNormal(v, w);
    if KeysAscend(w) {
      AscendingIsNormal(w);
    }
  }

  // ----- string literals -----

  /** Surrogates come in pairs only, a high one and then a low one. */
  predicate WellPaired(t: Text) {
    t == [] ||
    if IsHigh(t[0]) then |t| > 1 && IsLow(t[1]) && WellPaired(t[2..]) else !IsLow(t[0]) && WellPaired(t[1..])
  }

  predicate Plain(t: Text) {
    forall i :: 0 <= i < |t| ==> !IsHigh(t[i]) && !IsLow(t[i])
  }

  lemma {:induction false} PlainThenPaired(a: Text, b: Text)
    requires Plain(a)
    ensures WellPaired(a + b) <==> WellPaired(b)
    decreases |a|
  {
    if a == [] {
      assert a + b == b;
    } else {
      assert (a + b)[1..] == a[1..] + b;
      PlainThenPaired(a[1..], b);
    }
  }

  /** The pieces of an escape: plain units, and hexadecimal digits in lower case. */
  lemma EscapesArePlain(u: Unit)
    ensures Plain(EscapeUnit(u))
    ensures |EscapeUnit(u)| == 6 ==>
      forall i :: 2 <= i < 6 ==> 48 <= EscapeUnit(u)[i] <= 57 || 97 <= EscapeUnit(u)[i] <= 102
  {
  }

  /** No escaped string contains a lone surrogate, whatever the string contains. */
  lemma {:induction false} EscapedIsWellPaired(s: Text)
    ensures WellPaired(Escape(s))
    decreases |s|
  {
    if s == [] {
    } else if StartsPair(s) {
      EscapedIsWellPaired(s[2..]);
      assert Escape(s)[2..] == Escape(s[2..]);
    } else {
      EscapedIsWellPaired(s[1..]);
      EscapesArePlain(s[0]);
      PlainThenPaired(EscapeUnit(s[0]), Escape(s[1..]));
    }
  }

  /** An escape is never longer than what was read as its unit. */
  lemma UnitIsShortest(t: Text)
    requires ReadUnit(t).Some? && !IsHigh(t[0]) && !IsLow(t[0])
    ensures |EscapeUnit(ReadUnit(t).value.value)| + |ReadUnit(t).value.rest| <= |t|
  {
  }

  lemma {:induction false} EscapeOfFirst(u: Unit, s: Text)
    ensures |Escape([u] + s)| <= |EscapeUnit(u)| + |Escape(s)|
  {
    var t := [u] + s;
    assert t[1..] == s;
    if StartsPair(t) {
      assert t[2..] == s[1..] && !StartsPair(s);
    }
  }

  /** What a unit is read from is plain, unless it is the unit itself. */
  lemma UnitLeavesPaired(t: Text)
    requires ReadUnit(t).Some? && WellPaired(t) && !IsHigh(t[0])
    ensures WellPaired(ReadUnit(t).value.rest)
  {
    var k := WhereUnitEnds(t);
    assert t == t[..k] + t[k..];
    PlainThenPaired(t[..k], t[k..]);
  }

  lemma WhereUnitEnds(t: Text) returns (k: nat)
    requires ReadUnit(t).Some? && WellPaired(t) && !IsHigh(t[0])
    ensures k <= |t| && ReadUnit(t).value.rest == t[k..] && Plain(t[..k])
  {
    k := if t[0] != BACKSLASH then 1 else if t[1] == 117 then 6 else 2;
    if k == 6 {
      assert HexValue(t[2]).Some? && HexValue(t[3]).Some? && HexValue(t[4]).Some? && HexValue(t[5]).Some?;
    }
  }

  lemma PairIsRead(t: Text)
    requires WellPaired(t) && t != [] && IsHigh(t[0]) && ReadString(t).Some?
    ensures ReadString(t[2..]).Some?
    ensures ReadString(t).value.rest == ReadString(t[2..]).value.rest
    ensures ReadString(t).value.value == [t[0]] + ([t[1]] + ReadString(t[2..]).value.value)
  {
    assert ReadUnit(t) == Some(Read(t[0], t[1..]));
    assert t[1..][1..] == t[2..];
    assert ReadUnit(t[1..]) == Some(Read(t[1], t[2..]));
  }

  /** The escapes are the shortest: a literal without lone surrogates that reads as `s`, its closing quote included, is
      at least as long as the printed one. In particular what need not be escaped is not. */
  lemma {:induction false} EscapeIsShortest(t: Text, s: Text, x: Text)
    requires WellPaired(t) && ReadString(t) == Some(Read(s, x))
    ensures |Escape(s) + [QUOTE] + x| <= |t|
    decreases |t|
  {
    if t[0] == QUOTE {
      assert s == [];
    } else if IsHigh(t[0]) {
      PairIsRead(t);
      var s' := ReadString(t[2..]).value.value;
      EscapeIsShortest(t[2..], s', x);
      assert s[2..] == s' && StartsPair(s);
    } else {
      var unit := ReadUnit(t).value;
      var s' := ReadString(unit.rest).value.value;
      UnitLeavesPaired(t);
      EscapeIsShortest(unit.rest, s', x);
      UnitIsShortest(t);
      EscapeOfFirst(unit.value, s');
      assert s == [unit.value] + s';
    }
  }

  // ----- one text, unit by unit -----

  const SAMPLE_ITEMS: seq<Json> := [Number(-10), Boolean(true), Boolean(false), Null, Object([])]

  /** [-10,true,false,null,{}] */
  const ITEMS_TEXT: Text := [
    91, 45, 49, 48, 44, 116, 114, 117, 101, 44, 102, 97, 108, 115, 101, 44, 110, 117, 108, 108, 44, 123, 125, 93]

  /** "a":"\"\n" */
  const A_TEXT: Text := [34, 97, 34, 58, 34, 92, 34, 92, 110, 34]

  lemma JoinMore(a: Text, parts: seq<Text>)
    requires parts != []
    ensures Join([a] + parts) == a + [44] + Join(parts)
  {
  }

  lemma JoinFive(a: Text, b: Text, c: Text, d: Text, e: Text)
    ensures Join([a, b, c, d, e]) == a + [44] + (b + [44] + (c + [44] + (d + [44] + e)))
  {
    assert [a, b, c, d, e] == [a] + [b, c, d, e] && [b, c, d, e] == [b] + [c, d, e];
    assert [c, d, e] == [c] + [d, e] && [d, e] == [d] + [e];
    JoinMore(a, [b, c, d, e]);
    JoinMore(b, [c, d, e]);
    JoinMore(c, [d, e]);
    JoinMore(d, [e]);
  }

  lemma SampleNumber()
    ensures Decimal(-10) == [45, 49, 48]
  {
    assert Digits(1) == [49];
    assert Digits(10) == Digits(1) + [48];
  }

  const ITEM_TEXTS: seq<Text> :=
    [[45, 49, 48], [116, 114, 117, 101], [102, 97, 108, 115, 101], [110, 117, 108, 108], [123, 125]]

  lemma ItemsJoined()
    ensures [91] + Join(ITEM_TEXTS) + [93] == ITEMS_TEXT
  {
    var ts := ITEM_TEXTS;
    JoinFive(ts[0], ts[1], ts[2], ts[3], ts[4]);
    assert ts == [ts[0], ts[1], ts[2], ts[3], ts[4]];
  }

  lemma ItemsPrinted(i: nat)
    requires i < 5
    ensures Supported(SAMPLE_ITEMS[i]) && Print(SAMPLE_ITEMS[i]) == ITEM_TEXTS[i]
  {
    SampleNumber();
    EmptyObject();
  }

  lemma SampleItems()
    ensures Supported(Array(SAMPLE_ITEMS)) && Print(Array(SAMPLE_ITEMS)) == ITEMS_TEXT
  {
    var vs := SAMPLE_ITEMS;
    forall i | 0 <= i < 5 ensures Supported(vs[i]) && Print(vs[i]) == ITEM_TEXTS[i] {
      ItemsPrinted(i);
    }
    assert seq(|vs|, i requires 0 <= i < |vs| => Print(vs[i])) == ITEM_TEXTS;
    ItemsJoined();
  }

  lemma EmptyObject()
    ensures Print(Object([])) == [123, 125]
  {
    var none: seq<Entry> := [];
    assert SortBy(none, KeyOfEntry) == [] && RenderAll(none) == [];
  }

  lemma SampleMember()
    ensures Rendered(Entry([97], Quoted([34, 10]))) == A_TEXT
  {
    var s: Text := [34, 10];
    assert s[1..] == [10] && [10][1..] == [];
    assert Escape([10]) == [92, 110];
    assert Escape(s) == [92, 34] + [92, 110];
    SampleKey(97);
  }

  lemma SampleList()
    ensures Rendered(Entry([98], ITEMS_TEXT)) == [34, 98, 34, 58] + ITEMS_TEXT
  {
    SampleKey(98);
    assert [34, 98, 34] + [58] == [34, 98, 34, 58];
  }

  lemma SampleKey(u: Unit)
    requires u == 97 || u == 98
    ensures Quoted([u]) == [34, u, 34]
  {
    assert [u][1..] == [];
    assert Escape([u]) == [u];
  }

  lemma SortTwo(a: Entry, b: Entry)
    requires a.key == [97] && b.key == [98]
    ensures SortBy([b, a], KeyOfEntry) == [a, b]
  {
    assert [b, a][1..] == [a] && [a][1..] == [];
    assert SortBy([a], KeyOfEntry) == [a];
    assert !Before(b.key, a.key);
    assert Insert(b, [a], KeyOfEntry) == [a] + Insert(b, [], KeyOfEntry);
  }

  lemma TwoMembers(m: Member, n: Member)
    requires Supported(m.value) && Supported(n.value)
    ensures CanonicalJson.CanonicalJson(Object([m, n])) == Ok([123]
      + Join(RenderAll(SortBy([Entry(m.key, Print(m.value)), Entry(n.key, Print(n.value))], KeyOfEntry))) + [125])
  {
    var ms, es := [m, n], [Entry(m.key, Print(m.value)), Entry(n.key, Print(n.value))];
    PrinterThrows(Object(ms));
    assert seq(|ms|, i requires 0 <= i < |ms| => Entry(ms[i].key, Print(ms[i].value))) == es;
  }

  lemma JoinRendered(a: Entry, b: Entry)
    ensures Join(RenderAll([a, b])) == Rendered(a) + [44] + Rendered(b)
  {
    assert RenderAll([a, b]) == [Rendered(a)] + [Rendered(b)];
    JoinMore(Rendered(a), [Rendered(b)]);
  }

  /** A text to the last unit: the object with members "b" and "a", in this order, prints "a" first, and nothing but the
      punctuation of JSON besides them. */
  lemma SampleText(v: Json)
    requires v == Object([Member([98], Array(SAMPLE_ITEMS)), Member([97], String([34, 10]))])
    ensures CanonicalJson.CanonicalJson(v) == Ok([123] + (A_TEXT + [44] + ([34, 98, 34, 58] + ITEMS_TEXT)) + [125])
  {
    var b, a := Entry([98], ITEMS_TEXT), Entry([97], Quoted([34, 10]));
    SampleItems();
    TwoMembers(Member([98], Array(SAMPLE_ITEMS)), Member([97], String([34, 10])));
    SortTwo(a, b);
    JoinRendered(a, b);
    SampleMember();
    SampleList();
  }
}
