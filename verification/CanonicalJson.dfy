/** The canonical JSON printer of scripts/sg4-hcu-authority-protocol.ts: it tells any two different values apart. */
module CanonicalJson {
  import opened Outcomes
  import opened Text

  /** The integers that JavaScript numbers hold exactly. */
  const MAX_SAFE_INTEGER: int := 9_007_199_254_740_991

  type SafeInt = n: int | -MAX_SAFE_INTEGER <= n <= MAX_SAFE_INTEGER

  datatype Member = Member(key: Text, value: Json)

  /** A value given to the printer. An object lists its own properties in insertion order. */
  datatype Json =
    | Null
    | Boolean(b: bool)
    | Number(n: SafeInt)
    | String(s: Text)
    | Array(items: seq<Json>)
    | Object(members: seq<Member>)
    | Unsupported

  predicate Supported(v: Json) {
    match v
    case Array(items) => forall i :: 0 <= i < |items| ==> Supported(items[i])
    case Object(members) => forall i :: 0 <= i < |members| ==> Supported(members[i].value)
    case Unsupported => false
    case _ => true
  }

  /** Property names of one object are distinct. */
  ghost predicate WellFormed(v: Json) {
    match v
    case Array(items) => forall i :: 0 <= i < |items| ==> WellFormed(items[i])
    case Object(members) =>
      && (forall i :: 0 <= i < |members| ==> WellFormed(members[i].value))
      && (forall i, j :: 0 <= i < j < |members| ==> members[i].key != members[j].key)
    case _ => true
  }

  ghost predicate HasKey(members: seq<Member>, key: Text) {
    exists i :: 0 <= i < |members| && members[i].key == key
  }

  /** Equality with objects read as maps. */
  ghost predicate Same(v: Json, w: Json)
    decreases v
  {
    match v
    case Array(items) =>
      w.Array? && |items| == |w.items| && forall i :: 0 <= i < |items| ==> Same(items[i], w.items[i])
    case Object(members) =>
      && w.Object?
      && (forall i :: 0 <= i < |members| ==> SameMember(members[i], w.members))
      && (forall j :: 0 <= j < |w.members| ==> HasKey(members, w.members[j].key))
    case _ => v == w
  }

  /** The other object maps the member's key to the same value. */
  ghost predicate SameMember(m: Member, ns: seq<Member>)
    decreases m
  {
    exists j :: 0 <= j < |ns| && m.key == ns[j].key && Same(m.value, ns[j].value)
  }

  // ----- the printer -----

  function Digits(n: nat): Text {
    if n < 10 then [48 + n] else Digits(n / 10) + [48 + n % 10]
  }

  function Decimal(n: int): Text {
    if n < 0 then [45] + Digits(-n) else Digits(n)
  }

  function Hex(d: nat): Unit
    requires d < 16
  {
    if d < 10 then 48 + d else 87 + d
  }

  function Hex4(u: Unit): Text {
    [Hex(u / 4096), Hex(u / 256 % 16), Hex(u / 16 % 16), Hex(u % 16)]
  }

  predicate IsHigh(u: Unit) {
    0xD800 <= u <= 0xDBFF
  }

  predicate IsLow(u: Unit) {
    0xDC00 <= u <= 0xDFFF
  }

  const QUOTE: Unit := 34
  const COMMA: Unit := 44
  const COLON: Unit := 58
  const BACKSLASH: Unit := 92

  /** One code unit outside a surrogate pair: the short escapes, \uXXXX for other controls and lone surrogates. */
  function EscapeUnit(u: Unit): Text {
    if u == QUOTE || u == BACKSLASH then [BACKSLASH, u]
    else if u == 8 then [BACKSLASH, 98]
    else if u == 9 then [BACKSLASH, 116]
    else if u == 10 then [BACKSLASH, 110]
    else if u == 12 then [BACKSLASH, 102]
    else if u == 13 then [BACKSLASH, 114]
    else if u < 32 || IsHigh(u) || IsLow(u) then [BACKSLASH, 117] + Hex4(u)
    else [u]
  }

  predicate StartsPair(s: Text) {
    |s| > 1 && IsHigh(s[0]) && IsLow(s[1])
  }

  function Escape(s: Text): Text {
    if s == [] then []
    else if StartsPair(s) then s[..2] + Escape(s[2..])
    else EscapeUnit(s[0]) + Escape(s[1..])
  }

  function Quoted(s: Text): Text {
    [QUOTE] + Escape(s) + [QUOTE]
  }

  function Join(parts: seq<Text>): Text {
    if parts == [] then []
    else if |parts| == 1 then parts[0]
    else parts[0] + [COMMA] + Join(parts[1..])
  }

  datatype Entry = Entry(key: Text, printed: Text)

  function KeyOfEntry(e: Entry): Text {
    e.key
  }

  function Rendered(e: Entry): Text {
    Quoted(e.key) + [COLON] + e.printed
  }

  function RenderAll(es: seq<Entry>): (parts: seq<Text>)
    ensures |parts| == |es|
  {
    seq(|es|, i requires 0 <= i < |es| => Rendered(es[i]))
  }

  /** A value without parts, as `JSON.stringify` prints it. */
  function PrintScalar(v: Json): Text {
    match v
    case Null => [110, 117, 108, 108]                                                   // null
    case Boolean(b) => if b then [116, 114, 117, 101] else [102, 97, 108, 115, 101]     // true, false
    case Number(n) => Decimal(n)
    case String(s) => Quoted(s)
    case _ => []
  }

  const UNSUPPORTED := "canonicalJson: unsupported value"

  /** The recursion of the source. It throws at the first value it does not support; as there is one message, it does not
      matter that the members of an object are visited before their keys are sorted. */
  function CanonicalJson(v: Json): Result<Text>
    decreases v, 1
  {
    match v
    case Array(items) =>
      var parts := PrintItems(items);
      if parts.Err? then Err(parts.error) else Ok([91] + Join(parts.value) + [93])
    case Object(members) =>
      var entries := PrintMembers(members);
      if entries.Err? then Err(entries.error)
      else Ok([123] + Join(RenderAll(SortBy(entries.value, KeyOfEntry))) + [125])
    case Unsupported => Err(UNSUPPORTED)
    case _ => Ok(PrintScalar(v))
  }

  function PrintItems(items: seq<Json>): Result<seq<Text>>
    decreases items, 0
  {
    if items == [] then Ok([])
    else
      var first := CanonicalJson(items[0]);
      if first.Err? then Err(first.error)
      else
        var others := PrintItems(items[1..]);
        if others.Err? then others else Ok([first.value] + others.value)
  }

  function PrintMembers(members: seq<Member>): Result<seq<Entry>>
    decreases members, 0
  {
    if members == [] then Ok([])
    else
      var first := CanonicalJson(members[0].value);
      if first.Err? then Err(first.error)
      else
        var others := PrintMembers(members[1..]);
        if others.Err? then others else Ok([Entry(members[0].key, first.value)] + others.value)
  }

  /** The text of a supported value; the last case is never reached for one. */
  function Print(v: Json): Text {
    match v
    case Array(items) => [91] + Join(seq(|items|, i requires 0 <= i < |items| => Print(items[i]))) + [93]
    case Object(members) =>
      var entries := seq(|members|, i requires 0 <= i < |members| => Entry(members[i].key, Print(members[i].value)));
      [123] + Join(RenderAll(SortBy(entries, KeyOfEntry))) + [125]
    case Unsupported => []
    case _ => PrintScalar(v)
  }

  lemma {:induction false} ItemsThrow(items: seq<Json>)
    ensures PrintItems(items).Ok? <==> Supported(Array(items))
    ensures PrintItems(items).Ok? ==> |PrintItems(items).value| == |items|
    ensures PrintItems(items).Ok? ==> forall i :: 0 <= i < |items| ==> PrintItems(items).value[i] == Print(items[i])
    ensures PrintItems(items).Err? ==> PrintItems(items).error == UNSUPPORTED
    decreases items, 0
  {
    if items != [] {
      PrinterThrows(items[0]);
      ItemsThrow(items[1..]);
      assert items == [items[0]] + items[1..];
    }
  }

  lemma {:induction false} MembersThrow(members: seq<Member>)
    ensures PrintMembers(members).Ok? <==> Supported(Object(members))
    ensures PrintMembers(members).Ok? ==> |PrintMembers(members).value| == |members|
    ensures PrintMembers(members).Ok? ==> forall i :: 0 <= i < |members| ==>
      PrintMembers(members).value[i] == Entry(members[i].key, Print(members[i].value))
    ensures PrintMembers(members).Err? ==> PrintMembers(members).error == UNSUPPORTED
    decreases members, 0
  {
    if members != [] {
      PrinterThrows(members[0].value);
      MembersThrow(members[1..]);
      assert members == [members[0]] + members[1..];
    }
  }

  /** The recursion throws exactly when something inside the value, at any depth, is not supported. */
  lemma {:induction false} PrinterThrows(v: Json)
    ensures CanonicalJson(v).Ok? <==> Supported(v)
    ensures CanonicalJson(v).Ok? ==> CanonicalJson(v).value == Print(v)
    ensures CanonicalJson(v).Err? ==> CanonicalJson(v).error == UNSUPPORTED
    decreases v, 1
  {
    match v
    case Array(items) =>
      ItemsThrow(items);
      assert PrintItems(items).Ok? ==>
        PrintItems(items).value == seq(|items|, i requires 0 <= i < |items| => Print(items[i]));
    case Object(members) =>
      MembersThrow(members);
      var entries := seq(|members|, i requires 0 <= i < |members| => Entry(members[i].key, Print(members[i].value)));
      assert PrintMembers(members).Ok? ==> PrintMembers(members).value == entries;
    case _ =>
  }

  // ----- a reader: JSON without insignificant white space, integers only -----

  predicate IsDigit(u: Unit) {
    48 <= u <= 57
  }

  /** The length of the run of digits in front. */
  function DigitRun(t: Text): (k: nat)
    ensures k <= |t|
  {
    if t == [] || !IsDigit(t[0]) then 0 else 1 + DigitRun(t[1..])
  }

  function DigitsValue(t: Text): int {
    if t == [] then 0 else 10 * DigitsValue(t[..|t| - 1]) + (t[|t| - 1] as int - 48)
  }

  /** A value read, and the text after it. */
  datatype Read<+T> = Read(value: T, rest: Text)

  /** Digits without a leading zero, as section 6 of RFC 8259 requires. */
  function ReadNatural(t: Text): (r: Option<Read<int>>)
    ensures r.Some? ==> |r.value.rest| < |t|
  {
    var k := DigitRun(t);
    if k == 0 || (k > 1 && t[0] == 48) then None else Some(Read(DigitsValue(t[..k]), t[k..]))
  }

  /** An integer that a number holds exactly; a negative zero is none. */
  function ReadNumber(t: Text): (r: Option<Read<SafeInt>>)
    ensures r.Some? ==> |r.value.rest| < |t|
  {
    var negative := t != [] && t[0] == 45;
    var natural := ReadNatural(if negative then t[1..] else t);
    if natural.None? then None
    else
      var n := if negative then -natural.value.value else natural.value.value;
      if (negative && n == 0) || !(-MAX_SAFE_INTEGER <= n <= MAX_SAFE_INTEGER) then None
      else Some(Read(n, natural.value.rest))
  }

  function HexValue(u: Unit): (r: Option<int>)
    ensures r.Some? ==> 0 <= r.value < 16
  {
    if IsDigit(u) then Some(u - 48)
    else if 97 <= u <= 102 then Some(u - 87)
    else if 65 <= u <= 70 then Some(u - 55)
    else None
  }

  /** One code unit of a string literal: section 7 of RFC 8259. */
  function ReadUnit(t: Text): (r: Option<Read<Unit>>)
    ensures r.Some? ==> |r.value.rest| < |t|
  {
    if t == [] || t[0] == QUOTE || t[0] < 32 then None
    else if t[0] != BACKSLASH then Some(Read(t[0], t[1..]))
    else if |t| < 2 then None
    else if t[1] == QUOTE || t[1] == BACKSLASH || t[1] == 47 then Some(Read(t[1], t[2..]))
    else if t[1] == 98 then Some(Read(8, t[2..]))
    else if t[1] == 102 then Some(Read(12, t[2..]))
    else if t[1] == 110 then Some(Read(10, t[2..]))
    else if t[1] == 114 then Some(Read(13, t[2..]))
    else if t[1] == 116 then Some(Read(9, t[2..]))
    else if t[1] == 117 && |t| >= 6 then
      var a, b, c, d := HexValue(t[2]), HexValue(t[3]), HexValue(t[4]), HexValue(t[5]);
      if a.Some? && b.Some? && c.Some? && d.Some?
      then Some(Read(4096 * a.value + 256 * b.value + 16 * c.value + d.value, t[6..]))
      else None
    else None
  }

  /** The rest of a string literal, after its opening quote. */
  function ReadString(t: Text): (r: Option<Read<Text>>)
    ensures r.Some? ==> |r.value.rest| < |t|
    decreases |t|
  {
    if t == [] then None
    else if t[0] == QUOTE then Some(Read([], t[1..]))
    else
      var unit := ReadUnit(t);
      if unit.None? then None
      else
        var tail := ReadString(unit.value.rest);
        if tail.None? then None else Some(Read([unit.value.value] + tail.value.value, tail.value.rest))
  }

  function ReadLiteral(t: Text, literal: Text, v: Json): (r: Option<Read<Json>>)
    requires literal != []
    ensures r.Some? ==> |r.value.rest| < |t|
  {
    if literal <= t then Some(Read(v, t[|literal|..])) else None
  }

  function ReadValue(t: Text): (r: Option<Read<Json>>)
    ensures r.Some? ==> |r.value.rest| < |t|
    decreases |t|, 0
  {
    if t == [] then None
    else if t[0] == 110 then ReadLiteral(t, [110, 117, 108, 108], Null)
    else if t[0] == 116 then ReadLiteral(t, [116, 114, 117, 101], Boolean(true))
    else if t[0] == 102 then ReadLiteral(t, [102, 97, 108, 115, 101], Boolean(false))
    else if t[0] == QUOTE then
      var s := ReadString(t[1..]);
      if s.None? then None else Some(Read(String(s.value.value), s.value.rest))
    else if t[0] == 91 then
      if |t| > 1 && t[1] == 93 then Some(Read(Array([]), t[2..]))
      else
        var items := ReadItems(t[1..]);
        if items.None? then None else Some(Read(Array(items.value.value), items.value.rest))
    else if t[0] == 123 then
      if |t| > 1 && t[1] == 125 then Some(Read(Object([]), t[2..]))
      else
        var members := ReadMembers(t[1..]);
        if members.None? then None else Some(Read(Object(members.value.value), members.value.rest))
    else
      var n := ReadNumber(t);
      if n.None? then None else Some(Read(Number(n.value.value), n.value.rest))
  }

  /** One or more values, separated by commas, up to the closing bracket. */
  function ReadItems(t: Text): (r: Option<Read<seq<Json>>>)
    ensures r.Some? ==> |r.value.rest| < |t|
    decreases |t|, 1
  {
    var first := ReadValue(t);
    if first.None? || first.value.rest == [] then None
    else if first.value.rest[0] == 93 then Some(Read([first.value.value], first.value.rest[1..]))
    else if first.value.rest[0] != COMMA then None
    else
      var others := ReadItems(first.value.rest[1..]);
      if others.None? then None else Some(Read([first.value.value] + others.value.value, others.value.rest))
  }

  function ReadMember(t: Text): (r: Option<Read<Member>>)
    ensures r.Some? ==> |r.value.rest| < |t|
    decreases |t|, 1
  {
    if t == [] || t[0] != QUOTE then None
    else
      var key := ReadString(t[1..]);
      if key.None? || key.value.rest == [] || key.value.rest[0] != COLON then None
      else
        var v := ReadValue(key.value.rest[1..]);
        if v.None? then None else Some(Read(Member(key.value.value, v.value.value), v.value.rest))
  }

  function ReadMembers(t: Text): (r: Option<Read<seq<Member>>>)
    ensures r.Some? ==> |r.value.rest| < |t|
    decreases |t|, 2
  {
    var first := ReadMember(t);
    if first.None? || first.value.rest == [] then None
    else if first.value.rest[0] == 125 then Some(Read([first.value.value], first.value.rest[1..]))
    else if first.value.rest[0] != COMMA then None
    else
      var others := ReadMembers(first.value.rest[1..]);
      if others.None? then None else Some(Read([first.value.value] + others.value.value, others.value.rest))
  }

  // ----- the pieces read back -----

  /** What may follow a value: nothing, a comma, or a closing bracket. */
  predicate Ends(x: Text) {
    x == [] || x[0] == COMMA || x[0] == 93 || x[0] == 125
  }

  lemma {:induction false} DigitsLaw(n: nat)
    ensures |Digits(n)| >= 1 && forall i :: 0 <= i < |Digits(n)| ==> IsDigit(Digits(n)[i])
    ensures n > 0 ==> Digits(n)[0] != 48
    ensures n == 0 ==> |Digits(n)| == 1
  {
    if n >= 10 {
      DigitsLaw(n / 10);
    }
  }

  lemma {:induction false} DigitsReadBack(n: nat)
    ensures DigitsValue(Digits(n)) == n
  {
    if n >= 10 {
      DigitsReadBack(n / 10);
      assert Digits(n)[..|Digits(n)| - 1] == Digits(n / 10);
    }
  }

  lemma {:induction false} RunOf(ds: Text, x: Text)
    requires forall i :: 0 <= i < |ds| ==> IsDigit(ds[i])
    requires Ends(x)
    ensures DigitRun(ds + x) == |ds|
    decreases |ds|
  {
    if ds == [] {
      assert ds + x == x;
    } else {
      assert (ds + x)[1..] == ds[1..] + x;
      RunOf(ds[1..], x);
    }
  }

  lemma NaturalReadsBack(n: nat, x: Text)
    requires Ends(x)
    ensures IsDigit((Digits(n) + x)[0]) && ReadNatural(Digits(n) + x) == Some(Read(n, x))
  {
    var ds := Digits(n);
    DigitsLaw(n);
    DigitsReadBack(n);
    RunOf(ds, x);
    assert (ds + x)[0] == ds[0] && (ds + x)[..|ds|] == ds && (ds + x)[|ds|..] == x;
  }

  lemma NegativeNumber(t: Text, n: int, x: Text)
    requires ReadNatural(t) == Some(Read(n, x)) && 0 < n <= MAX_SAFE_INTEGER
    ensures ReadNumber([45] + t) == Some(Read(-n, x))
  {
    assert ([45] + t)[1..] == t;
  }

  lemma NonNegativeNumber(t: Text, n: int, x: Text)
    requires ReadNatural(t) == Some(Read(n, x)) && 0 <= n <= MAX_SAFE_INTEGER
    requires t != [] && IsDigit(t[0])
    ensures ReadNumber(t) == Some(Read(n, x))
  {
  }

  lemma DecimalReadsBack(n: SafeInt, x: Text)
    requires Ends(x)
    ensures (Decimal(n) + x)[0] == 45 || IsDigit((Decimal(n) + x)[0])
    ensures ReadNumber(Decimal(n) + x) == Some(Read(n, x))
  {
    var m := if n < 0 then -n else n;
    var t := Digits(m) + x;
    NaturalReadsBack(m, x);
    if n < 0 {
      assert Decimal(n) + x == [45] + t;
      NegativeNumber(t, m, x);
    } else {
      NonNegativeNumber(t, m, x);
    }
  }

  lemma HexReadsBack(d: nat)
    requires d < 16
    ensures HexValue(Hex(d)) == Some(d)
  {
  }

  lemma Nibbles(u: Unit)
    ensures u == 16 * (u / 16) + u % 16
    ensures u / 16 == 16 * (u / 256) + u / 16 % 16
    ensures u / 256 == 16 * (u / 4096) + u / 256 % 16
    ensures u == 4096 * (u / 4096) + 256 * (u / 256 % 16) + 16 * (u / 16 % 16) + u % 16
  {
  }

  lemma Hex4ReadsBack(u: Unit, x: Text)
    ensures ReadUnit([BACKSLASH, 117] + Hex4(u) + x) == Some(Read(u, x))
  {
    var t := [BACKSLASH, 117] + Hex4(u) + x;
    assert t[2] == Hex(u / 4096) && t[3] == Hex(u / 256 % 16) && t[4] == Hex(u / 16 % 16) && t[5] == Hex(u % 16);
    assert t[6..] == x;
    HexReadsBack(u / 4096);
    HexReadsBack(u / 256 % 16);
    HexReadsBack(u / 16 % 16);
    HexReadsBack(u % 16);
    Nibbles(u);
  }

  lemma UnitReadsBack(u: Unit, x: Text)
    ensures ReadUnit(EscapeUnit(u) + x) == Some(Read(u, x))
    ensures (EscapeUnit(u) + x)[0] != QUOTE
  {
    var t := EscapeUnit(u) + x;
    if |EscapeUnit(u)| == 6 {
      Hex4ReadsBack(u, x);
    } else if |EscapeUnit(u)| == 2 {
      assert t[2..] == x && t[1] == EscapeUnit(u)[1] && t[0] == BACKSLASH;
    } else {
      assert t[1..] == x && t[0] == u;
    }
  }

  lemma UnitThenString(t: Text, u: Unit, rest: Text)
    requires t != [] && t[0] != QUOTE && ReadUnit(t) == Some(Read(u, rest)) && ReadString(rest).Some?
    ensures ReadString(t) == Some(Read([u] + ReadString(rest).value.value, ReadString(rest).value.rest))
  {
  }

  /** The text of a string literal after its first piece. */
  lemma EscapeTail(s: Text, x: Text)
    requires s != []
    ensures Escape(s) + [QUOTE] + x
         == if StartsPair(s) then [s[0]] + ([s[1]] + (Escape(s[2..]) + [QUOTE] + x))
            else EscapeUnit(s[0]) + (Escape(s[1..]) + [QUOTE] + x)
  {
    if StartsPair(s) {
      assert s[..2] == [s[0]] + [s[1]];
      Regroup([s[0]] + [s[1]], Escape(s[2..]), x);
    } else {
      Regroup(EscapeUnit(s[0]), Escape(s[1..]), x);
    }
  }

  lemma Regroup(first: Text, others: Text, x: Text)
    ensures first + others + [QUOTE] + x == first + (others + [QUOTE] + x)
    ensures |first| == 2 ==> first + others + [QUOTE] + x == [first[0]] + ([first[1]] + (others + [QUOTE] + x))
  {
  }

  lemma PlainUnit(u: Unit, rest: Text)
    requires u >= 32 && u != QUOTE && u != BACKSLASH
    ensures ReadUnit([u] + rest) == Some(Read(u, rest))
  {
    assert ([u] + rest)[1..] == rest;
  }

  lemma QuoteEnds(x: Text)
    ensures ReadString([QUOTE] + x) == Some(Read([], x))
  {
    assert ([QUOTE] + x)[1..] == x;
  }

  /** A surrogate pair is read back unit by unit. */
  lemma PairFirst(s: Text, rest: Text, x: Text)
    requires StartsPair(s) && ReadString(rest) == Some(Read(s[2..], x))
    ensures ReadString([s[0]] + ([s[1]] + rest)) == Some(Read(s, x))
  {
    PlainUnit(s[1], rest);
    PlainUnit(s[0], [s[1]] + rest);
    UnitThenString([s[1]] + rest, s[1], rest);
    UnitThenString([s[0]] + ([s[1]] + rest), s[0], [s[1]] + rest);
    assert s == [s[0]] + ([s[1]] + s[2..]);
  }

  lemma UnitFirst(s: Text, rest: Text, x: Text)
    requires s != [] && ReadString(rest) == Some(Read(s[1..], x))
    ensures ReadString(EscapeUnit(s[0]) + rest) == Some(Read(s, x))
  {
    UnitReadsBack(s[0], rest);
    UnitThenString(EscapeUnit(s[0]) + rest, s[0], rest);
    assert s == [s[0]] + s[1..];
  }

  lemma {:induction false} EscapedReadsBack(s: Text, x: Text)
    ensures ReadString(Escape(s) + [QUOTE] + x) == Some(Read(s, x))
    decreases |s|
  {
    if s == [] {
      QuoteEnds(x);
      assert Escape(s) + [QUOTE] == [QUOTE];
    } else if StartsPair(s) {
      EscapeTail(s, x);
      EscapedReadsBack(s[2..], x);
      PairFirst(s, Escape(s[2..]) + [QUOTE] + x, x);
    } else {
      EscapeTail(s, x);
      EscapedReadsBack(s[1..], x);
      UnitFirst(s, Escape(s[1..]) + [QUOTE] + x, x);
    }
  }

  lemma QuotedReadsBack(s: Text, x: Text)
    ensures Quoted(s) + x != [] && (Quoted(s) + x)[0] == QUOTE
    ensures ReadString((Quoted(s) + x)[1..]) == Some(Read(s, x))
  {
    assert (Quoted(s) + x)[1..] == Escape(s) + [QUOTE] + x;
    EscapedReadsBack(s, x);
  }

  // ----- normal forms -----

  function KeyOfMember(m: Member): Text {
    m.key
  }

  /** The value with the members of every object sorted by key. */
  function Normal(v: Json): Json {
    match v
    case Array(items) => Array(seq(|items|, i requires 0 <= i < |items| => Normal(items[i])))
    case Object(members) => Object(SortBy(NormalMembers(members), KeyOfMember))
    case _ => v
  }

  function NormalMembers(members: seq<Member>): (ms: seq<Member>)
    ensures |ms| == |members|
  {
    seq(|members|, i requires 0 <= i < |members| => Member(members[i].key, Normal(members[i].value)))
  }

  /** Printing in the order given, without sorting. */
  function Raw(v: Json): Text {
    match v
    case Array(items) => [91] + Join(RawItems(items)) + [93]
    case Object(members) => [123] + Join(RawMembers(members)) + [125]
    case _ => PrintScalar(v)
  }

  function RawItems(items: seq<Json>): (parts: seq<Text>)
    ensures |parts| == |items|
  {
    seq(|items|, i requires 0 <= i < |items| => Raw(items[i]))
  }

  function RawMembers(members: seq<Member>): (parts: seq<Text>)
    ensures |parts| == |members|
  {
    seq(|members|, i requires 0 <= i < |members| => Quoted(members[i].key) + [COLON] + Raw(members[i].value))
  }

  function Entered(m: Member): Entry {
    Entry(m.key, Raw(m.value))
  }

  function EnterAll(members: seq<Member>): (es: seq<Entry>)
    ensures |es| == |members|
  {
    seq(|members|, i requires 0 <= i < |members| => Entered(members[i]))
  }

  /** Sorting printed entries or sorting members before printing is the same. */
  lemma {:induction false} InsertCommutes(m: Member, members: seq<Member>)
    ensures EnterAll(Insert(m, members, KeyOfMember)) == Insert(Entered(m), EnterAll(members), KeyOfEntry)
    decreases |members|
  {
    var es := EnterAll(members);
    if members == [] || Before(m.key, members[0].key) {
      assert EnterAll([m] + members) == [Entered(m)] + es;
    } else {
      assert EnterAll(members[1..]) == es[1..];
      InsertCommutes(m, members[1..]);
      var rest := Insert(m, members[1..], KeyOfMember);
      assert EnterAll([members[0]] + rest) == [Entered(members[0])] + EnterAll(rest);
    }
  }

  lemma {:induction false} SortCommutes(members: seq<Member>)
    ensures EnterAll(SortBy(members, KeyOfMember)) == SortBy(EnterAll(members), KeyOfEntry)
    decreases |members|
  {
    if members != [] {
      SortCommutes(members[1..]);
      InsertCommutes(members[0], SortBy(members[1..], KeyOfMember));
      assert EnterAll(members[1..]) == EnterAll(members)[1..];
    }
  }

  /** The printer prints the normal form. */
  lemma {:induction false} PrintIsRawNormal(v: Json)
    ensures Print(v) == Raw(Normal(v))
  {
    match v
    case Array(items) =>
      forall i | 0 <= i < |items| ensures Print(items[i]) == Raw(Normal(items[i])) {
        PrintIsRawNormal(items[i]);
      }
      assert RawItems(Normal(v).items) == seq(|items|, i requires 0 <= i < |items| => Print(items[i]));
    case Object(members) =>
      var entries := seq(|members|, i requires 0 <= i < |members| => Entry(members[i].key, Print(members[i].value)));
      forall i | 0 <= i < |members| ensures Print(members[i].value) == Raw(Normal(members[i].value)) {
        PrintIsRawNormal(members[i].value);
      }
      assert EnterAll(NormalMembers(members)) == entries;
      SortCommutes(NormalMembers(members));
      assert RenderAll(EnterAll(Normal(v).members)) == RawMembers(Normal(v).members);
    case _ =>
  }

  // ----- values read back -----

  /** What follows the first part of a list up to and beyond its closing bracket. */
  function Rest(parts: seq<Text>, close: Unit, x: Text): Text
    requires parts != []
  {
    if |parts| == 1 then [close] + x else [COMMA] + (Join(parts[1..]) + ([close] + x))
  }

  lemma JoinTail(parts: seq<Text>, close: Unit, x: Text)
    requires parts != []
    ensures Join(parts) + ([close] + x) == parts[0] + Rest(parts, close, x)
  {
  }

  lemma RestTail(parts: seq<Text>, close: Unit, x: Text)
    requires parts != []
    ensures Rest(parts, close, x) != []
    ensures Rest(parts, close, x)[0] == if |parts| == 1 then close else COMMA
    ensures Rest(parts, close, x)[1..] == if |parts| == 1 then x else Join(parts[1..]) + ([close] + x)
  {
  }

  /** No value starts like the end of a list. */
  lemma {:induction false} RawHead(v: Json, x: Text)
    requires Supported(v)
    ensures Raw(v) != [] && (Raw(v) + x)[0] == Raw(v)[0] && Raw(v)[0] != 93
  {
    if v.Number? {
      DigitsLaw(if v.n < 0 then -v.n else v.n);
    }
  }

  lemma ItemsStep(t: Text, v: Json, rest: Text, vs: seq<Json>, x: Text)
    requires ReadValue(t) == Some(Read(v, rest)) && rest != []
    requires if vs == [] then rest[0] == 93 && rest[1..] == x
             else rest[0] == COMMA && ReadItems(rest[1..]) == Some(Read(vs, x))
    ensures ReadItems(t) == Some(Read([v] + vs, x))
  {
    assert vs == [] ==> [v] + vs == [v];
  }

  lemma {:induction false} ItemsReadBack(vs: seq<Json>, x: Text)
    requires vs != [] && forall i :: 0 <= i < |vs| ==> Supported(vs[i])
    ensures ReadItems(Join(RawItems(vs)) + ([93] + x)) == Some(Read(vs, x))
    decreases vs, 0
  {
    var parts, t := RawItems(vs), Join(RawItems(vs)) + ([93] + x);
    JoinTail(parts, 93, x);
    RestTail(parts, 93, x);
    ReadsBack(vs[0], Rest(parts, 93, x));
    assert parts[1..] == RawItems(vs[1..]);
    if |vs| > 1 {
      ItemsReadBack(vs[1..], x);
    }
    ItemsStep(t, vs[0], Rest(parts, 93, x), vs[1..], x);
    assert vs == [vs[0]] + vs[1..];
  }

  lemma MemberTail(key: Text, printed: Text, x: Text)
    ensures (Quoted(key) + [COLON] + printed) + x == Quoted(key) + ([COLON] + (printed + x))
    ensures ([COLON] + (printed + x))[1..] == printed + x
  {
  }

  lemma {:induction false} MemberReadsBack(m: Member, x: Text)
    requires Supported(m.value) && Ends(x)
    ensures ReadMember((Quoted(m.key) + [COLON] + Raw(m.value)) + x) == Some(Read(m, x))
    decreases m, 1
  {
    MemberTail(m.key, Raw(m.value), x);
    QuotedReadsBack(m.key, [COLON] + (Raw(m.value) + x));
    ReadsBack(m.value, x);
  }

  lemma MembersStep(t: Text, m: Member, rest: Text, ms: seq<Member>, x: Text)
    requires ReadMember(t) == Some(Read(m, rest)) && rest != []
    requires if ms == [] then rest[0] == 125 && rest[1..] == x
             else rest[0] == COMMA && ReadMembers(rest[1..]) == Some(Read(ms, x))
    ensures ReadMembers(t) == Some(Read([m] + ms, x))
  {
    assert ms == [] ==> [m] + ms == [m];
  }

  /** The text of the members is that of the first and then the rest. */
  lemma MembersTail(ms: seq<Member>, x: Text) returns (rest: Text)
    requires ms != []
    ensures Join(RawMembers(ms)) + ([125] + x) == (Quoted(ms[0].key) + [COLON] + Raw(ms[0].value)) + rest
    ensures rest != [] && Ends(rest)
    ensures if |ms| == 1 then rest[0] == 125 && rest[1..] == x
            else rest[0] == COMMA && rest[1..] == Join(RawMembers(ms[1..])) + ([125] + x)
  {
    var parts := RawMembers(ms);
    rest := Rest(parts, 125, x);
    JoinTail(parts, 125, x);
    RestTail(parts, 125, x);
    assert parts[1..] == RawMembers(ms[1..]);
  }

  lemma {:induction false} MembersReadBack(ms: seq<Member>, x: Text)
    requires ms != [] && forall i :: 0 <= i < |ms| ==> Supported(ms[i].value)
    ensures ReadMembers(Join(RawMembers(ms)) + ([125] + x)) == Some(Read(ms, x))
    decreases ms, 0
  {
    assert ms == [ms[0]] + ms[1..];
    var rest := MembersTail(ms, x);
    MemberReadsBack(ms[0], rest);
    if |ms| > 1 {
      MembersReadBack(ms[1..], x);
    }
    MembersStep(Join(RawMembers(ms)) + ([125] + x), ms[0], rest, ms[1..], x);
  }

  lemma Bracketed(open: Unit, list: Text, close: Unit, x: Text)
    ensures ([open] + list + [close]) + x == [open] + (list + ([close] + x))
    ensures ([open] + (list + ([close] + x)))[1..] == list + ([close] + x)
    ensures list == [] ==> list + ([close] + x) == [close] + x && ([open] + (list + ([close] + x)))[2..] == x
  {
  }

  lemma {:induction false} ArrayReadsBack(vs: seq<Json>, x: Text)
    requires Supported(Array(vs))
    ensures ReadValue(Raw(Array(vs)) + x) == Some(Read(Array(vs), x))
    decreases vs, 1
  {
    Bracketed(91, Join(RawItems(vs)), 93, x);
    if vs != [] {
      JoinTail(RawItems(vs), 93, x);
      RawHead(vs[0], Rest(RawItems(vs), 93, x));
      ItemsReadBack(vs, x);
    }
  }

  lemma MemberHead(m: Member, x: Text)
    ensures Quoted(m.key) + [COLON] + Raw(m.value) != []
    ensures ((Quoted(m.key) + [COLON] + Raw(m.value)) + x)[0] == QUOTE
  {
  }

  lemma {:induction false} ObjectReadsBack(ms: seq<Member>, x: Text)
    requires Supported(Object(ms))
    ensures ReadValue(Raw(Object(ms)) + x) == Some(Read(Object(ms), x))
    decreases ms, 1
  {
    var list := Join(RawMembers(ms)) + ([125] + x);
    Bracketed(123, Join(RawMembers(ms)), 125, x);
    if ms != [] {
      JoinTail(RawMembers(ms), 125, x);
      MemberHead(ms[0], Rest(RawMembers(ms), 125, x));
      MembersReadBack(ms, x);
      ObjectFromMembers(list, ms, x);
    }
  }

  lemma ObjectFromMembers(list: Text, ms: seq<Member>, x: Text)
    requires list != [] && list[0] != 125 && ReadMembers(list) == Some(Read(ms, x))
    ensures ReadValue([123] + list) == Some(Read(Object(ms), x))
  {
    var t := [123] + list;
    assert t[1..] == list && t[0] == 123 && t[1] != 125;
    assert ReadMembers(t[1..]) == Some(Read(ms, x));
  }

  lemma NumberReadsBack(n: SafeInt, x: Text)
    requires Ends(x)
    ensures ReadValue(Raw(Number(n)) + x) == Some(Read(Number(n), x))
  {
    DecimalReadsBack(n, x);
  }

  lemma StringReadsBack(s: Text, x: Text)
    ensures ReadValue(Raw(String(s)) + x) == Some(Read(String(s), x))
  {
    QuotedReadsBack(s, x);
  }

  lemma LiteralReadsBack(v: Json, x: Text)
    requires v.Null? || v.Boolean?
    ensures ReadValue(Raw(v) + x) == Some(Read(v, x))
  {
    assert (Raw(v) + x)[|Raw(v)|..] == x;
  }

  /** The round trip: a printed value, followed by anything that may follow a value, reads back as itself. */
  lemma {:induction false} ReadsBack(v: Json, x: Text)
    requires Supported(v) && Ends(x)
    ensures ReadValue(Raw(v) + x) == Some(Read(v, x))
    decreases v, 0
  {
    match v
    case Number(n) => NumberReadsBack(n, x);
    case String(s) => StringReadsBack(s, x);
    case Array(items) => ArrayReadsBack(items, x);
    case Object(members) => ObjectReadsBack(members, x);
    case Null => LiteralReadsBack(v, x);
    case Boolean(b) => LiteralReadsBack(v, x);
  }

  // ----- equal normal forms are equal maps -----

  lemma {:induction false} NormalSupported(v: Json)
    requires Supported(v)
    ensures Supported(Normal(v))
  {
    match v
    case Array(items) =>
      forall i | 0 <= i < |items| ensures Supported(Normal(items[i])) {
        NormalSupported(items[i]);
      }
    case Object(members) =>
      var ms := NormalMembers(members);
      forall i | 0 <= i < |members| ensures Supported(ms[i].value) {
        NormalSupported(members[i].value);
      }
      SortByLaw(ms, KeyOfMember);
      forall i | 0 <= i < |Normal(v).members| ensures Supported(Normal(v).members[i].value) {
        SameElements(Normal(v).members, ms, Normal(v).members[i]);
      }
    case _ =>
  }

  predicate Counterparts(m: Member, n: Member) {
    m.key == n.key && Normal(m.value) == Normal(n.value)
  }

  ghost predicate HasCounterpart(m: Member, ns: seq<Member>) {
    exists j :: 0 <= j < |ns| && Counterparts(m, ns[j])
  }

  /** Each member finds its counterpart on the other side. */
  ghost predicate Within(ms: seq<Member>, ns: seq<Member>) {
    forall i :: 0 <= i < |ms| ==> HasCounterpart(ms[i], ns)
  }

  lemma {:induction false} SameIffNormal(v: Json, w: Json)
    requires WellFormed(v) && WellFormed(w)
    ensures Same(v, w) <==> Normal(v) == Normal(w)
    decreases v
  {
    match v
    case Array(items) =>
      if w.Array? && |items| == |w.items| {
        forall i | 0 <= i < |items| ensures Same(items[i], w.items[i]) <==> Normal(items[i]) == Normal(w.items[i]) {
          SameIffNormal(items[i], w.items[i]);
        }
        assert forall i :: 0 <= i < |items| ==> Normal(v).items[i] == Normal(items[i]);
        assert forall i :: 0 <= i < |items| ==> Normal(w).items[i] == Normal(w.items[i]);
      } else {
        assert w.Array? ==> |Normal(v).items| != |Normal(w).items|;
      }
    case Object(members) =>
      if w.Object? {
        forall i, j | 0 <= i < |members| && 0 <= j < |w.members|
          ensures Same(members[i].value, w.members[j].value)
             <==> Normal(members[i].value) == Normal(w.members[j].value)
        {
          SameIffNormal(members[i].value, w.members[j].value);
        }
        SameObjects(members, w.members);
        NormalObjects(members, w.members);
      }
    case _ =>
  }

  ghost predicate KeysWithin(ms: seq<Member>, ns: seq<Member>) {
    forall i :: 0 <= i < |ms| ==> HasKey(ns, ms[i].key)
  }

  lemma {:induction false} SameObjects(ms: seq<Member>, ns: seq<Member>)
    requires forall i, j :: 0 <= i < |ms| && 0 <= j < |ns| ==>
      (Same(ms[i].value, ns[j].value) <==> Normal(ms[i].value) == Normal(ns[j].value))
    ensures Same(Object(ms), Object(ns)) <==> Within(ms, ns) && KeysWithin(ns, ms)
  {
    forall i | 0 <= i < |ms| ensures HasCounterpart(ms[i], ns) <==> SameMember(ms[i], ns) {
      if j :| 0 <= j < |ns| && Counterparts(ms[i], ns[j]) {
        assert ms[i].key == ns[j].key && Same(ms[i].value, ns[j].value);
      }
      if j :| 0 <= j < |ns| && ms[i].key == ns[j].key && Same(ms[i].value, ns[j].value) {
        assert Counterparts(ms[i], ns[j]);
      }
    }
  }

  lemma {:induction false} WithinElements(ms: seq<Member>, ns: seq<Member>)
    requires Within(ms, ns)
    ensures forall x :: x in NormalMembers(ms) ==> x in NormalMembers(ns)
  {
    forall x | x in NormalMembers(ms) ensures x in NormalMembers(ns) {
      var i :| 0 <= i < |ms| && NormalMembers(ms)[i] == x;
      assert HasCounterpart(ms[i], ns);
      var j :| 0 <= j < |ns| && Counterparts(ms[i], ns[j]);
      assert NormalMembers(ns)[j] == x;
    }
  }

  /** With distinct keys, a counterpart for each member and no key to spare make the inclusion mutual. */
  lemma {:induction false} WithinIsMutual(ms: seq<Member>, ns: seq<Member>)
    requires WellFormed(Object(ns)) && Within(ms, ns) && KeysWithin(ns, ms)
    ensures Within(ns, ms)
  {
    forall j | 0 <= j < |ns| ensures HasCounterpart(ns[j], ms) {
      assert HasKey(ms, ns[j].key);
      var i :| 0 <= i < |ms| && ms[i].key == ns[j].key;
      assert HasCounterpart(ms[i], ns);
      var k :| 0 <= k < |ns| && Counterparts(ms[i], ns[k]);
      assert k == j;
      assert Counterparts(ns[j], ms[i]);
    }
  }

  lemma {:induction false} NormalObjects(ms: seq<Member>, ns: seq<Member>)
    requires WellFormed(Object(ms)) && WellFormed(Object(ns))
    ensures Within(ms, ns) && KeysWithin(ns, ms) <==> Normal(Object(ms)) == Normal(Object(ns))
  {
    if Within(ms, ns) && KeysWithin(ns, ms) {
      WithinIsMutual(ms, ns);
      WithinElements(ms, ns);
      WithinElements(ns, ms);
      KeysStayDistinct(ms);
      KeysStayDistinct(ns);
      EqualElementsSortEqually(NormalMembers(ms), NormalMembers(ns));
    }
    if Normal(Object(ms)) == Normal(Object(ns)) {
      EqualSorts(ms, ns);
      EqualSorts(ns, ms);
      WithinHasKeys(ns, ms);
    }
  }

  lemma KeysStayDistinct(ms: seq<Member>)
    requires WellFormed(Object(ms))
    ensures DistinctBy(NormalMembers(ms), KeyOfMember)
  {
  }

  lemma WithinHasKeys(ms: seq<Member>, ns: seq<Member>)
    requires Within(ms, ns)
    ensures KeysWithin(ms, ns)
  {
    forall i | 0 <= i < |ms| ensures HasKey(ns, ms[i].key) {
      assert HasCounterpart(ms[i], ns);
      var j :| 0 <= j < |ns| && Counterparts(ms[i], ns[j]);
      assert ns[j].key == ms[i].key;
    }
  }

  lemma {:induction false} EqualElementsSortEqually(a: seq<Member>, b: seq<Member>)
    requires DistinctBy(a, KeyOfMember) && DistinctBy(b, KeyOfMember)
    requires forall x :: x in a <==> x in b
    ensures SortBy(a, KeyOfMember) == SortBy(b, KeyOfMember)
  {
    SortByLaw(a, KeyOfMember);
    SortByLaw(b, KeyOfMember);
    SortByDistinct(a, KeyOfMember);
    SortByDistinct(b, KeyOfMember);
    forall x ensures x in SortBy(a, KeyOfMember) <==> x in SortBy(b, KeyOfMember) {
      SameElements(SortBy(a, KeyOfMember), a, x);
      SameElements(SortBy(b, KeyOfMember), b, x);
    }
    SortedIsUnique(SortBy(a, KeyOfMember), SortBy(b, KeyOfMember), KeyOfMember);
  }

  lemma {:induction false} EqualSorts(ms: seq<Member>, ns: seq<Member>)
    requires SortBy(NormalMembers(ms), KeyOfMember) == SortBy(NormalMembers(ns), KeyOfMember)
    ensures Within(ms, ns)
  {
    var a, b := NormalMembers(ms), NormalMembers(ns);
    SortByLaw(a, KeyOfMember);
    SortByLaw(b, KeyOfMember);
    forall i | 0 <= i < |ms| ensures HasCounterpart(ms[i], ns) {
      assert a[i] in a;
      SameElements(a, b, a[i]);
      var j :| 0 <= j < |b| && b[j] == a[i];
      assert Counterparts(ms[i], ns[j]);
    }
  }

  /** The canonical text is JSON, and reads back as the value with its object members in key order. */
  lemma {:induction false} CanonicalJsonReadsBack(v: Json)
    requires Supported(v)
    ensures CanonicalJson(v).Ok? && ReadValue(CanonicalJson(v).value) == Some(Read(Normal(v), []))
  {
    PrinterThrows(v);
    PrintIsRawNormal(v);
    NormalSupported(v);
    ReadsBack(Normal(v), []);
    assert Raw(Normal(v)) + [] == Raw(Normal(v));
  }

  /** Two values print the same text iff they are equal with objects read as maps; values that are not supported all end
      in the same error. Insertion order never shows, and nothing else is ever lost. */
  lemma {:induction false} CanonicalJsonIsInjective(v: Json, w: Json)
    requires WellFormed(v) && WellFormed(w)
    ensures CanonicalJson(v) == CanonicalJson(w)
       <==> if Supported(v) && Supported(w) then Same(v, w) else !Supported(v) && !Supported(w)
  {
    PrinterThrows(v);
    PrinterThrows(w);
    if Supported(v) && Supported(w) {
      SameIffNormal(v, w);
      PrintIsRawNormal(v);
      PrintIsRawNormal(w);
      CanonicalJsonReadsBack(v);
      CanonicalJsonReadsBack(w);
    }
  }
}
