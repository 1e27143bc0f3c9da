/** Sums and prefix sums of participant weights, and the participant whose interval contains a ticket. */
module Weights {

  function Sum(s: seq<int>): int {
    if s == [] then 0 else s[0] + Sum(s[1..])
  }

  lemma {:induction false} SumConcat(s: seq<int>, t: seq<int>)
    ensures Sum(s + t) == Sum(s) + Sum(t)
  {
    if s == [] {
      assert s + t == t;
    } else {
      SumConcat(s[1..], t);
      assert (s + t)[1..] == s[1..] + t;
    }
  }

  lemma SumNext(s: seq<int>, i: nat)
    requires i < |s|
    ensures Sum(s[..i + 1]) == Sum(s[..i]) + s[i]
  {
    assert s[..i + 1] == s[..i] + [s[i]];
    SumConcat(s[..i], [s[i]]);
  }

  predicate NonNegative(s: seq<int>) {
    forall i :: 0 <= i < |s| ==> 0 <= s[i]
  }

  lemma {:induction false} PrefixesRise(s: seq<int>, i: nat, j: nat)
    requires NonNegative(s) && i <= j <= |s|
    ensures 0 <= Sum(s[..i]) <= Sum(s[..j])
    decreases j
  {
    if j > 0 {
      SumNext(s, j - 1);
      if i < j {
        PrefixesRise(s, i, j - 1);
      } else {
        PrefixesRise(s, i - 1, i - 1);
      }
    }
  }

  lemma TotalOfPrefixes(s: seq<int>, i: nat)
    requires NonNegative(s) && i <= |s|
    ensures 0 <= Sum(s[..i]) <= Sum(s)
  {
    PrefixesRise(s, i, |s|);
    assert s[..|s|] == s;
  }

  /** The first position whose prefix sum exceeds the ticket; the length if there is none. */
  function FirstCrossing(s: seq<int>, ticket: int): (i: nat)
    ensures i <= |s|
  {
    if s == [] || ticket < s[0] then 0 else 1 + FirstCrossing(s[1..], ticket - s[0])
  }

  /** What the recursion computes, in terms of prefix sums; weights may have any sign. */
  lemma {:induction false} FirstCrossingIsFirst(s: seq<int>, ticket: int)
    ensures var i := FirstCrossing(s, ticket);
      && (forall j :: 0 < j <= i ==> Sum(s[..j]) <= ticket)
      && (i < |s| ==> ticket < Sum(s[..i + 1]))
  {
    if s != [] {
      assert s[..1] == [s[0]] && Sum([s[0]]) == s[0];
      if ticket >= s[0] {
        FirstCrossingIsFirst(s[1..], ticket - s[0]);
        forall j | 0 < j <= |s| ensures Sum(s[..j]) == s[0] + Sum(s[1..][..j - 1]) {
          assert s[..j][1..] == s[1..][..j - 1];
        }
      }
    }
  }

  /** Exactly one participant's half-open interval contains a ticket below the total. */
  lemma {:induction false} CrossingInterval(s: seq<int>, ticket: int, i: nat)
    requires NonNegative(s) && 0 <= ticket < Sum(s) && i < |s|
    ensures FirstCrossing(s, ticket) < |s|
    ensures i == FirstCrossing(s, ticket) <==> Sum(s[..i]) <= ticket < Sum(s[..i + 1])
  {
    var w := FirstCrossing(s, ticket);
    FirstCrossingIsFirst(s, ticket);
    assert s[..|s|] == s;
    if w < i {
      PrefixesRise(s, w + 1, i);
    } else if i < w {
      PrefixesRise(s, i + 1, w);
    }
  }

  /** Crossing over a concatenation: in the first part, or else in the second with what the first part used up. */
  lemma {:induction false} CrossingConcat(s: seq<int>, t: seq<int>, ticket: int)
    ensures FirstCrossing(s + t, ticket)
         == if FirstCrossing(s, ticket) < |s| then FirstCrossing(s, ticket)
            else |s| + FirstCrossing(t, ticket - Sum(s))
  {
    if s == [] {
      assert s + t == t;
    } else {
      assert (s + t)[1..] == s[1..] + t;
      if ticket >= s[0] {
        CrossingConcat(s[1..], t, ticket - s[0]);
      }
    }
  }
}
