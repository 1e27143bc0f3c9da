/** Strings as JavaScript has them, sequences of UTF-16 code units, with their sorting order. */
module Text {

  type Unit = u: int | 0 <= u < 0x1_0000
  type Text = seq<Unit>

  /** The order of `Array.prototype.sort`: code unit by code unit. */
  predicate Before(a: Text, b: Text) {
    if a == [] then true
    else if b == [] then false
    else if a[0] != b[0] then a[0] < b[0]
    else Before(a[1..], b[1..])
  }

  /** The same order without recursion: one text begins the other, or at the first difference it has the smaller unit. */
  ghost predicate Lexicographic(a: Text, b: Text) {
    a <= b || exists k :: 0 <= k < |a| && k < |b| && a[..k] == b[..k] && a[k] < b[k]
  }

  lemma {:induction false} BeforeIsLexicographic(a: Text, b: Text)
    ensures Before(a, b) <==> Lexicographic(a, b)
    decreases |a|
  {
    if a != [] && b != [] && a[0] == b[0] {
      BeforeIsLexicographic(a[1..], b[1..]);
      LexicographicTail(a, b);
    } else if a != [] && b != [] && a[0] < b[0] {
      assert a[..0] == b[..0];
    } else if a != [] && b != [] {
      assert forall k :: 0 < k < |a| && k < |b| ==> a[..k][0] == a[0] && b[..k][0] == b[0];
    }
  }

  lemma LexicographicTail(a: Text, b: Text)
    requires a != [] && b != [] && a[0] == b[0]
    ensures Lexicographic(a, b) <==> Lexicographic(a[1..], b[1..])
  {
    var c, d := a[1..], b[1..];
    assert a == [a[0]] + c && b == [b[0]] + d;
    if k :| 0 <= k < |a| && k < |b| && a[..k] == b[..k] && a[k] < b[k] {
      assert c[..k - 1] == a[..k][1..] && d[..k - 1] == b[..k][1..];
      assert c[k - 1] < d[k - 1];
    }
    if k :| 0 <= k < |c| && k < |d| && c[..k] == d[..k] && c[k] < d[k] {
      assert a[..k + 1] == [a[0]] + c[..k] && b[..k + 1] == [b[0]] + d[..k];
      assert a[k + 1] < b[k + 1];
    }
    assert a <= b <==> c <= d;
  }

  lemma {:induction false} BeforeIsTotal(a: Text, b: Text)
    ensures Before(a, b) || Before(b, a)
    ensures Before(a, b) && Before(b, a) ==> a == b
    decreases |a|
  {
    if a != [] && b != [] && a[0] == b[0] {
      BeforeIsTotal(a[1..], b[1..]);
      assert a == [a[0]] + a[1..] && b == [b[0]] + b[1..];
    }
  }

  lemma {:induction false} BeforeIsTransitive(a: Text, b: Text, c: Text)
    requires Before(a, b) && Before(b, c)
    ensures Before(a, c)
    decreases |a|
  {
    if a != [] && b != [] && c != [] && a[0] == b[0] == c[0] {
      BeforeIsTransitive(a[1..], b[1..], c[1..]);
    }
  }

  // ----- sorting by a key -----

  ghost predicate SortedBy<T>(xs: seq<T>, key: T -> Text) {
    forall i, j :: 0 <= i < j < |xs| ==> Before(key(xs[i]), key(xs[j]))
  }

  ghost predicate DistinctBy<T>(xs: seq<T>, key: T -> Text) {
    forall i, j :: 0 <= i < j < |xs| ==> key(xs[i]) != key(xs[j])
  }

  function Insert<T>(x: T, xs: seq<T>, key: T -> Text): seq<T> {
    if xs == [] || Before(key(x), key(xs[0])) then [x] + xs
    else [xs[0]] + Insert(x, xs[1..], key)
  }

  function SortBy<T>(xs: seq<T>, key: T -> Text): seq<T> {
    if xs == [] then [] else Insert(xs[0], SortBy(xs[1..], key), key)
  }

  lemma {:induction false} InsertSorts<T>(x: T, xs: seq<T>, key: T -> Text)
    requires SortedBy(xs, key)
    ensures SortedBy(Insert(x, xs, key), key)
    ensures multiset(Insert(x, xs, key)) == multiset{x} + multiset(xs)
    decreases |xs|
  {
    if xs == [] {
    } else if Before(key(x), key(xs[0])) {
      forall j | 0 <= j < |xs| ensures Before(key(x), key(xs[j])) {
        if j > 0 {
          BeforeIsTransitive(key(x), key(xs[0]), key(xs[j]));
        }
      }
    } else {
      BeforeIsTotal(key(x), key(xs[0]));
      var rest := Insert(x, xs[1..], key);
      InsertSorts(x, xs[1..], key);
      assert xs == [xs[0]] + xs[1..];
      forall j | 0 <= j < |rest| ensures Before(key(xs[0]), key(rest[j])) {
        assert rest[j] in multiset(rest);
        assert rest[j] == x || rest[j] in multiset(xs[1..]);
      }
    }
  }

  /** Sorting gives the same elements, in order. */
  lemma {:induction false} SortByLaw<T>(xs: seq<T>, key: T -> Text)
    ensures SortedBy(SortBy(xs, key), key)
    ensures multiset(SortBy(xs, key)) == multiset(xs)
    ensures |SortBy(xs, key)| == |xs|
    decreases |xs|
  {
    if xs != [] {
      SortByLaw(xs[1..], key);
      InsertSorts(xs[0], SortBy(xs[1..], key), key);
      assert xs == [xs[0]] + xs[1..];
    }
    assert |multiset(SortBy(xs, key))| == |SortBy(xs, key)| && |multiset(xs)| == |xs|;
  }

  lemma SameElements<T>(xs: seq<T>, ys: seq<T>, x: T)
    requires multiset(xs) == multiset(ys)
    ensures x in xs <==> x in ys
  {
    assert x in xs <==> x in multiset(xs);
    assert x in ys <==> x in multiset(ys);
  }

  /** Distinct keys stay distinct. */
  lemma {:induction false} InsertDistinct<T>(x: T, xs: seq<T>, key: T -> Text)
    requires SortedBy(xs, key) && DistinctBy(xs, key)
    requires forall i :: 0 <= i < |xs| ==> key(x) != key(xs[i])
    ensures DistinctBy(Insert(x, xs, key), key)
    decreases |xs|
  {
    if xs != [] && !Before(key(x), key(xs[0])) {
      var rest := Insert(x, xs[1..], key);
      InsertDistinct(x, xs[1..], key);
      InsertSorts(x, xs[1..], key);
      forall j | 0 <= j < |rest| ensures key(rest[j]) != key(xs[0]) {
        assert rest[j] in multiset(rest);
        assert rest[j] == x || rest[j] in multiset(xs[1..]);
      }
    }
  }

  lemma {:induction false} SortByDistinct<T>(xs: seq<T>, key: T -> Text)
    requires DistinctBy(xs, key)
    ensures DistinctBy(SortBy(xs, key), key)
    decreases |xs|
  {
    if xs != [] {
      var rest := SortBy(xs[1..], key);
      SortByDistinct(xs[1..], key);
      SortByLaw(xs[1..], key);
      forall i | 0 <= i < |rest| ensures key(xs[0]) != key(rest[i]) {
        SameElements(rest, xs[1..], rest[i]);
      }
      InsertDistinct(xs[0], rest, key);
    }
  }

  /** A sorted sequence with distinct keys is determined by its elements. */
  lemma {:induction false} SortedIsUnique<T>(xs: seq<T>, ys: seq<T>, key: T -> Text)
    requires SortedBy(xs, key) && DistinctBy(xs, key) && SortedBy(ys, key) && DistinctBy(ys, key)
    requires forall x :: x in xs <==> x in ys
    ensures xs == ys
    decreases |xs|
  {
    assert xs != [] ==> xs[0] in ys;
    assert ys != [] ==> ys[0] in xs;
    if xs != [] {
      BeforeIsTotal(key(xs[0]), key(ys[0]));
      assert xs[0] == ys[0];
      forall x ensures x in xs[1..] <==> x in ys[1..] {
        TailElements(xs, key, x);
        TailElements(ys, key, x);
      }
      SortedIsUnique(xs[1..], ys[1..], key);
      assert xs == [xs[0]] + xs[1..] && ys == [ys[0]] + ys[1..];
    }
  }

  lemma TailElements<T>(xs: seq<T>, key: T -> Text, x: T)
    requires xs != [] && DistinctBy(xs, key)
    ensures x in xs[1..] <==> x in xs && x != xs[0]
  {
    assert xs == [xs[0]] + xs[1..];
    assert forall j :: 0 <= j < |xs[1..]| ==> xs[1..][j] == xs[j + 1];
  }
}
