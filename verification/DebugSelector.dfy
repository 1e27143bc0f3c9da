/** The debug-namespace glob of tasks/sg2.ts: a last-star backtracking matcher, and the selector built on it. */
module DebugSelector {
  import opened Outcomes

  // ----- what a pattern means -----

  /** The number of stars in a pattern. */
  function Stars(pattern: string): nat {
    if pattern == [] then 0 else Stars(pattern[1..]) + if pattern[0] == '*' then 1 else 0
  }

  /** The pattern with its stars replaced, left to right, by the given strings. */
  function Filled(pattern: string, gaps: seq<string>): string
    requires |gaps| == Stars(pattern)
  {
    if pattern == [] then []
    else if pattern[0] == '*' then gaps[0] + Filled(pattern[1..], gaps[1..])
    else [pattern[0]] + Filled(pattern[1..], gaps)
  }

  /** A namespace matches when some filling of the stars, empty strings allowed, gives it. */
  ghost predicate Splits(namespace: string, pattern: string) {
    exists gaps: seq<string> | |gaps| == Stars(pattern) :: Filled(pattern, gaps) == namespace
  }

  /** The same, by recursion on the pattern. */
  ghost predicate Matches(namespace: string, pattern: string)
    decreases |pattern|, 0
  {
    if pattern == [] then namespace == []
    else if pattern[0] == '*' then MatchesFrom(namespace, pattern[1..], 0)
    else namespace != [] && namespace[0] == pattern[0] && Matches(namespace[1..], pattern[1..])
  }

  /** The pattern matches some suffix that starts at or after `low`. */
  ghost predicate MatchesFrom(namespace: string, pattern: string, low: nat)
    decreases |pattern|, 1
  {
    exists k: nat | low <= k <= |namespace| :: Matches(namespace[k..], pattern)
  }

  lemma {:induction false} FilledMatches(pattern: string, gaps: seq<string>)
    requires |gaps| == Stars(pattern)
    ensures Matches(Filled(pattern, gaps), pattern)
    decreases |pattern|
  {
    var namespace := Filled(pattern, gaps);
    if pattern != [] {
      if pattern[0] == '*' {
        FilledMatches(pattern[1..], gaps[1..]);
        assert namespace[|gaps[0]|..] == Filled(pattern[1..], gaps[1..]);
      } else {
        FilledMatches(pattern[1..], gaps);
        assert namespace[1..] == Filled(pattern[1..], gaps);
      }
    }
  }

  lemma {:induction false} MatchGivesGaps(namespace: string, pattern: string) returns (gaps: seq<string>)
    requires Matches(namespace, pattern)
    ensures |gaps| == Stars(pattern) && Filled(pattern, gaps) == namespace
    decreases |pattern|
  {
    if pattern == [] {
      gaps := [];
    } else if pattern[0] == '*' {
      var k: nat :| k <= |namespace| && Matches(namespace[k..], pattern[1..]);
      var rest := MatchGivesGaps(namespace[k..], pattern[1..]);
      gaps := [namespace[..k]] + rest;
      assert gaps[1..] == rest;
      assert namespace[..k] + namespace[k..] == namespace;
    } else {
      gaps := MatchGivesGaps(namespace[1..], pattern[1..]);
      assert [namespace[0]] + namespace[1..] == namespace;
    }
  }

  /** The two readings of a pattern are the same. */
  lemma {:induction false} MatchesIsSplits(namespace: string, pattern: string)
    ensures Matches(namespace, pattern) <==> Splits(namespace, pattern)
  {
    if Matches(namespace, pattern) {
      var gaps := MatchGivesGaps(namespace, pattern);
    }
    if Splits(namespace, pattern) {
      var gaps: seq<string> :| |gaps| == Stars(pattern) && Filled(pattern, gaps) == namespace;
      FilledMatches(pattern, gaps);
    }
  }

  // ----- why the last star is enough -----

  predicate Literal(s: string) {
    '*' !in s
  }

  /** A literal part of the pattern must be read off the front of the namespace. */
  lemma {:induction false} LiteralFirst(namespace: string, literal: string, rest: string)
    requires Literal(literal)
    ensures Matches(namespace, literal + rest)
        <==> literal <= namespace && Matches(namespace[|literal|..], rest)
    decreases |literal|
  {
    if literal == [] {
      assert literal + rest == rest && namespace[0..] == namespace;
    } else {
      assert literal[0] in literal;
      assert forall c :: c in literal[1..] ==> c in literal;
      assert (literal + rest)[1..] == literal[1..] + rest && (literal + rest)[0] == literal[0];
      if namespace != [] && namespace[0] == literal[0] {
        LiteralFirst(namespace[1..], literal[1..], rest);
        assert literal <= namespace <==> literal[1..] <= namespace[1..] by {
          assert literal == [literal[0]] + literal[1..] && namespace == [namespace[0]] + namespace[1..];
        }
        if literal <= namespace {
          assert namespace[1..][|literal[1..]|..] == namespace[|literal|..];
        }
      }
    }
  }

  /** A pattern that starts with a star matches from wherever it may start. */
  lemma StarFirst(namespace: string, rest: string, low: nat)
    requires low <= |namespace|
    ensures Matches(namespace[low..], ['*'] + rest) <==> MatchesFrom(namespace, rest, low)
  {
    var tail := namespace[low..];
    assert (['*'] + rest)[1..] == rest;
    if MatchesFrom(tail, rest, 0) {
      var k: nat :| k <= |tail| && Matches(tail[k..], rest);
      assert namespace[low + k..] == tail[k..];
    }
    if MatchesFrom(namespace, rest, low) {
      var k: nat :| low <= k <= |namespace| && Matches(namespace[k..], rest);
      assert tail[k - low..] == namespace[k..];
    }
  }

  /** A match of literal, star and rest at one place, restated. */
  lemma {:induction false} LiteralStar(namespace: string, literal: string, rest: string, k: nat)
    requires Literal(literal) && k <= |namespace|
    ensures Matches(namespace[k..], literal + ['*'] + rest)
        <==> literal <= namespace[k..] && MatchesFrom(namespace, rest, k + |literal|)
  {
    var tail := ['*'] + rest;
    assert literal + ['*'] + rest == literal + tail;
    LiteralFirst(namespace[k..], literal, tail);
    if literal <= namespace[k..] {
      assert namespace[k..][|literal|..] == namespace[k + |literal|..];
      StarFirst(namespace, rest, k + |literal|);
    }
  }

  lemma MatchesFromEarlier(namespace: string, pattern: string, low: nat, high: nat)
    requires low <= high && MatchesFrom(namespace, pattern, high)
    ensures MatchesFrom(namespace, pattern, low)
  {
  }

  /** Once a literal has been found at its earliest place after a star, a star that follows it may start there: no match
      is lost by forgetting the earlier star. */
  lemma {:induction false} EarliestIsEnough(namespace: string, literal: string, rest: string, low: nat)
    requires Literal(literal) && low + |literal| <= |namespace|
    requires literal == namespace[low..low + |literal|]
    ensures MatchesFrom(namespace, literal + ['*'] + rest, low) <==> MatchesFrom(namespace, rest, low + |literal|)
  {
    if MatchesFrom(namespace, literal + ['*'] + rest, low) {
      var k: nat :| low <= k <= |namespace| && Matches(namespace[k..], literal + ['*'] + rest);
      LiteralStar(namespace, literal, rest, k);
      MatchesFromEarlier(namespace, rest, low + |literal|, k + |literal|);
    }
    if MatchesFrom(namespace, rest, low + |literal|) {
      LiteralStar(namespace, literal, rest, low);
      assert literal <= namespace[low..];
    }
  }

  /** If the next character of the pattern does not fit, no match starts at `low`. */
  lemma {:induction false} MismatchSkips(namespace: string, literal: string, rest: string, low: nat)
    requires Literal(literal) && low + |literal| < |namespace|
    requires literal == namespace[low..low + |literal|]
    requires rest == [] || (rest[0] != '*' && rest[0] != namespace[low + |literal|])
    ensures !Matches(namespace[low..], literal + rest)
    ensures MatchesFrom(namespace, literal + rest, low) <==> MatchesFrom(namespace, literal + rest, low + 1)
  {
    LiteralFirst(namespace[low..], literal, rest);
    assert namespace[low..][|literal|..] == namespace[low + |literal|..];
  }

  /** A pattern matches the empty rest of a namespace exactly when only stars are left. */
  lemma {:induction false} OnlyStarsLeft(pattern: string)
    ensures Matches([], pattern) <==> forall i :: 0 <= i < |pattern| ==> pattern[i] == '*'
  {
    if pattern != [] {
      OnlyStarsLeft(pattern[1..]);
      if pattern[0] == '*' {
        assert MatchesFrom([], pattern[1..], 0) <==> Matches([], pattern[1..]) by {
          var empty: string := [];
          assert empty[0..] == empty;
        }
        assert forall i :: 0 < i < |pattern| ==> pattern[i] == pattern[1..][i - 1];
      }
    }
  }

  /** What the loop has established: everything turns on the part of the pattern after the last star. */
  ghost predicate Reduced(namespace: string, pattern: string, wildcard: int, start: nat) {
    if wildcard == -1 then start == 0
    else 0 <= wildcard < |pattern|
         && (Matches(namespace, pattern) <==> MatchesFrom(namespace, pattern[wildcard + 1..], start))
  }

  lemma {:induction false} FirstStarReached(namespace: string, pattern: string, n: nat, p: nat)
    requires p < |pattern| && n <= |namespace| && pattern[p] == '*'
    requires Literal(pattern[..p]) && pattern[..p] == namespace[..n]
    ensures Matches(namespace, pattern) <==> MatchesFrom(namespace, pattern[p + 1..], n)
  {
    var literal, rest := pattern[..p], pattern[p + 1..];
    assert pattern == literal + (['*'] + rest);
    LiteralFirst(namespace, literal, ['*'] + rest);
    assert literal <= namespace && |literal| == n;
    StarFirst(namespace, rest, n);
  }

  lemma {:induction false} StarReached(
      namespace: string, pattern: string, wildcard: int, start: nat, n: nat, p: nat)
    requires -1 <= wildcard < p < |pattern| && start <= n <= |namespace| && pattern[p] == '*'
    requires Reduced(namespace, pattern, wildcard, start)
    requires Literal(pattern[wildcard + 1..p]) && pattern[wildcard + 1..p] == namespace[start..n]
    ensures Reduced(namespace, pattern, p, n)
  {
    if wildcard == -1 {
      FirstStarReached(namespace, pattern, n, p);
    } else {
      var literal, rest := pattern[wildcard + 1..p], pattern[p + 1..];
      assert pattern[wildcard + 1..] == literal + ['*'] + rest;
      assert literal == namespace[start..start + |literal|];
      EarliestIsEnough(namespace, literal, rest, start);
    }
  }

  /** The next character of the pattern does not fit: no match, or only matches that start later after the last star. */
  lemma {:induction false} MismatchReached(
      namespace: string, pattern: string, wildcard: int, start: nat, n: nat, p: nat)
    requires -1 <= wildcard < p <= |pattern| && start <= n < |namespace|
    requires p < |pattern| ==> pattern[p] != '*' && pattern[p] != namespace[n]
    requires Reduced(namespace, pattern, wildcard, start)
    requires Literal(pattern[wildcard + 1..p]) && pattern[wildcard + 1..p] == namespace[start..n]
    ensures if wildcard == -1 then !Matches(namespace, pattern) else Reduced(namespace, pattern, wildcard, start + 1)
  {
    var literal, rest := pattern[wildcard + 1..p], pattern[p..];
    assert pattern[wildcard + 1..] == literal + rest;
    assert |literal| == n - start;
    MismatchSkips(namespace, literal, rest, start);
    if wildcard == -1 {
      assert namespace[0..] == namespace && pattern[0..] == pattern;
    }
  }

  /** The matcher of the source decides exactly the matches, and terminates. */
  method DebugPatternMatches(namespace: string, pattern: string) returns (matched: bool)
    ensures matched <==> Splits(namespace, pattern)
  {
    MatchesIsSplits(namespace, pattern);
    var namespaceIndex, patternIndex := 0, 0;
    var wildcardIndex, wildcardMatchIndex := -1, 0;
    while namespaceIndex < |namespace|
      invariant -1 <= wildcardIndex < patternIndex <= |pattern|
      invariant 0 <= wildcardMatchIndex <= namespaceIndex <= |namespace|
      invariant Reduced(namespace, pattern, wildcardIndex, wildcardMatchIndex)
      invariant Literal(pattern[wildcardIndex + 1..patternIndex])
      invariant pattern[wildcardIndex + 1..patternIndex] == namespace[wildcardMatchIndex..namespaceIndex]
      decreases |pattern| - wildcardIndex, |namespace| - wildcardMatchIndex, |namespace| - namespaceIndex
    {
      if patternIndex < |pattern| &&
         (pattern[patternIndex] == namespace[namespaceIndex] || pattern[patternIndex] == '*') {
        if pattern[patternIndex] == '*' {
          StarReached(namespace, pattern, wildcardIndex, wildcardMatchIndex, namespaceIndex, patternIndex);
          wildcardIndex := patternIndex;
          wildcardMatchIndex := namespaceIndex;
          patternIndex := patternIndex + 1;
        } else {
          LiteralGrows(pattern, wildcardIndex + 1, patternIndex);
          LiteralGrows(namespace, wildcardMatchIndex, namespaceIndex);
          namespaceIndex := namespaceIndex + 1;
          patternIndex := patternIndex + 1;
        }
      } else {
        MismatchReached(namespace, pattern, wildcardIndex, wildcardMatchIndex, namespaceIndex, patternIndex);
        if wildcardIndex != -1 {
          patternIndex := wildcardIndex + 1;
          wildcardMatchIndex := wildcardMatchIndex + 1;
          namespaceIndex := wildcardMatchIndex;
        } else {
          return false;
        }
      }
    }

    ghost var stopped := patternIndex;
    EndOfNamespace(namespace, pattern, wildcardIndex, wildcardMatchIndex, patternIndex);
    while patternIndex < |pattern| && pattern[patternIndex] == '*'
      invariant stopped <= patternIndex <= |pattern|
      invariant forall i :: stopped <= i < patternIndex ==> pattern[i] == '*'
    {
      patternIndex := patternIndex + 1;
    }
    matched := patternIndex == |pattern|;
  }

  lemma LiteralGrows(s: string, low: nat, high: nat)
    requires low <= high < |s|
    ensures s[low..high + 1] == s[low..high] + [s[high]]
  {
  }

  /** When the namespace is used up, it matches exactly if nothing but stars is left of the pattern. */
  lemma {:induction false} EndOfNamespace(namespace: string, pattern: string, wildcard: int, start: nat, p: nat)
    requires -1 <= wildcard < p <= |pattern| && start <= |namespace|
    requires Reduced(namespace, pattern, wildcard, start)
    requires Literal(pattern[wildcard + 1..p]) && pattern[wildcard + 1..p] == namespace[start..]
    ensures Matches(namespace, pattern) <==> forall i :: p <= i < |pattern| ==> pattern[i] == '*'
  {
    var literal, rest := pattern[wildcard + 1..p], pattern[p..];
    assert pattern[wildcard + 1..] == literal + rest;
    OnlyStarsLeft(rest);
    assert forall i :: p <= i < |pattern| ==> pattern[i] == rest[i - p];
    assert (forall i :: 0 <= i < |rest| ==> rest[i] == '*') <==> forall i :: p <= i < |pattern| ==> pattern[i] == '*' by {
      assert forall i :: 0 <= i < |rest| ==> rest[i] == pattern[p + i];
    }
    LiteralFirst(namespace[start..], literal, rest);
    assert namespace[start..][|literal|..] == [];
    if wildcard == -1 {
      assert namespace[0..] == namespace && pattern[0..] == pattern;
    } else {
      forall k: nat | start < k <= |namespace| ensures !Matches(namespace[k..], literal + rest) {
        LiteralFirst(namespace[k..], literal, rest);
      }
    }
  }

  /** What a star means: a pattern with one star names the namespaces that begin with what is before it and end, without
      overlap, with what is after it. */
  lemma {:induction false} OneStar(namespace: string, before: string, after: string)
    requires '*' !in before && '*' !in after
    ensures Splits(namespace, before + ['*'] + after)
       <==> |before| + |after| <= |namespace| && before <= namespace && namespace[|namespace| - |after|..] == after
  {
    MatchesIsSplits(namespace, before + ['*'] + after);
    LiteralStar(namespace, before, after, 0);
    assert namespace[0..] == namespace;
    forall k: nat | k <= |namespace| ensures Matches(namespace[k..], after) <==> namespace[k..] == after {
      LiteralFirst(namespace[k..], after, []);
      assert after + [] == after;
    }
    if |before| + |after| <= |namespace| && namespace[|namespace| - |after|..] == after {
      assert Matches(namespace[|namespace| - |after|..], after);
    }
    if k: nat :| |before| <= k <= |namespace| && Matches(namespace[k..], after) {
      assert |namespace[k..]| == |after| && k == |namespace| - |after|;
    }
  }

  // ----- the selector -----

  /** The white space of regular expressions and of trimming. */
  predicate IsSpace(c: char) {
    var n := c as int;
    9 <= n <= 13 || n in {0x20, 0xA0, 0x1680, 0x2028, 0x2029, 0x202F, 0x205F, 0x3000, 0xFEFF} || 0x2000 <= n <= 0x200A
  }

  function TrimStart(s: string): string {
    if s != [] && IsSpace(s[0]) then TrimStart(s[1..]) else s
  }

  function TrimEnd(s: string): string {
    if s != [] && IsSpace(s[|s| - 1]) then TrimEnd(s[..|s| - 1]) else s
  }

  /** Every maximal run of white space becomes one comma. */
  function Commas(s: string): string {
    if s == [] then []
    else if !IsSpace(s[0]) then [s[0]] + Commas(s[1..])
    else if |s| > 1 && IsSpace(s[1]) then Commas(s[1..])
    else [','] + Commas(s[1..])
  }

  /** Splitting at commas; `current` is the part being read. */
  function Split(s: string, current: string): seq<string>
    decreases |s|
  {
    if s == [] then [current]
    else if s[0] == ',' then [current] + Split(s[1..], [])
    else Split(s[1..], current + [s[0]])
  }

  function NonEmpty(parts: seq<string>): seq<string> {
    if parts == [] then []
    else (if parts[0] == [] then [] else [parts[0]]) + NonEmpty(parts[1..])
  }

  /** The patterns of a selector, as the source computes them. */
  function Patterns(selector: Option<string>): seq<string> {
    NonEmpty(Split(Commas(TrimEnd(TrimStart(if selector.Some? then selector.value else []))), []))
  }

  /** What they are: the maximal runs of characters that are neither commas nor white space. */
  function Words(s: string, current: string): seq<string>
    decreases |s|
  {
    var word := if current == [] then [] else [current];
    if s == [] then word
    else if s[0] == ',' || IsSpace(s[0]) then word + Words(s[1..], [])
    else Words(s[1..], current + [s[0]])
  }

  lemma {:induction false} WordsTrimStart(s: string)
    ensures Words(TrimStart(s), []) == Words(s, [])
  {
    if s != [] && IsSpace(s[0]) {
      WordsTrimStart(s[1..]);
    }
  }

  lemma {:induction false} WordsDropLast(s: string, c: char, current: string)
    requires IsSpace(c)
    ensures Words(s + [c], current) == Words(s, current)
    decreases |s|
  {
    if s == [] {
      assert (s + [c])[1..] == [];
    } else {
      assert (s + [c])[1..] == s[1..] + [c];
      if s[0] == ',' || IsSpace(s[0]) {
        WordsDropLast(s[1..], c, []);
      } else {
        WordsDropLast(s[1..], c, current + [s[0]]);
      }
    }
  }

  lemma {:induction false} WordsTrimEnd(s: string)
    ensures Words(TrimEnd(s), []) == Words(s, [])
  {
    if s != [] && IsSpace(s[|s| - 1]) {
      WordsTrimEnd(s[..|s| - 1]);
      WordsDropLast(s[..|s| - 1], s[|s| - 1], []);
      assert s == s[..|s| - 1] + [s[|s| - 1]];
    }
  }

  lemma {:induction false} WordsCommas(s: string, current: string)
    ensures Words(Commas(s), current) == Words(s, current)
    ensures forall c :: c in Commas(s) ==> !IsSpace(c)
    decreases |s|
  {
    if s != [] {
      WordsCommas(s[1..], []);
      WordsCommas(s[1..], current);
      WordsCommas(s[1..], current + [s[0]]);
      if !IsSpace(s[0]) {
        assert Commas(s)[1..] == Commas(s[1..]);
      } else if |s| > 1 && IsSpace(s[1]) {
      } else {
        assert Commas(s)[1..] == Commas(s[1..]);
      }
    }
  }

  lemma {:induction false} SplitIsWords(s: string, current: string)
    requires forall c :: c in s ==> !IsSpace(c)
    ensures NonEmpty(Split(s, current)) == Words(s, current)
    decreases |s|
  {
    if s == [] {
      assert NonEmpty([current]) == if current == [] then [] else [current];
    } else {
      assert forall c :: c in s[1..] ==> c in s;
      if s[0] == ',' {
        SplitIsWords(s[1..], []);
        assert Split(s, current)[1..] == Split(s[1..], []);
      } else {
        SplitIsWords(s[1..], current + [s[0]]);
      }
    }
  }

  /** The trimming, replacing, splitting and filtering of the source reads off exactly the words of the selector. */
  lemma {:induction false} PatternsAreWords(selector: string)
    ensures Patterns(Some(selector)) == Words(selector, []) && Patterns(None) == []
  {
    var trimmed := TrimEnd(TrimStart(selector));
    WordsTrimStart(selector);
    WordsTrimEnd(TrimStart(selector));
    WordsCommas(trimmed, []);
    SplitIsWords(Commas(trimmed), []);
    assert NonEmpty([[]]) == [];
  }

  lemma {:induction false} PatternsOf(selector: Option<string>)
    ensures Patterns(selector) == if selector.Some? then Words(selector.value, []) else []
  {
    PatternsAreWords(if selector.Some? then selector.value else []);
  }

  predicate Excludes(word: string) {
    word != [] && word[0] == '-'
  }

  /** Some word matches, and no excluded word does. */
  ghost predicate Enabled(words: seq<string>, namespace: string) {
    && (exists i :: 0 <= i < |words| && !Excludes(words[i]) && Splits(namespace, words[i]))
    && !(exists i :: 0 <= i < |words| && Excludes(words[i]) && Splits(namespace, words[i][1..]))
  }

  /** A namespace is enabled iff an inclusion matches and no exclusion does, wherever in the selector they stand. */
  method DebugNamespaceEnabled(selector: Option<string>, namespace: string) returns (enabled: bool)
    ensures enabled <==> selector.Some? && Enabled(Words(selector.value, []), namespace)
  {
    var patterns := Patterns(selector);
    PatternsOf(selector);
    for i := 0 to |patterns|
      invariant forall j :: 0 <= j < i && Excludes(patterns[j]) ==> !Splits(namespace, patterns[j][1..])
    {
      if Excludes(patterns[i]) {
        var excluded := DebugPatternMatches(namespace, patterns[i][1..]);
        if excluded {
          return false;
        }
      }
    }
    for i := 0 to |patterns|
      invariant forall j :: 0 <= j < i && !Excludes(patterns[j]) ==> !Splits(namespace, patterns[j])
    {
      if !Excludes(patterns[i]) {
        var included := DebugPatternMatches(namespace, patterns[i]);
        if included {
          return true;
        }
      }
    }
    return false;
  }

  // ----- what a selector says -----

  /** A comma, a blank, a tab and a line break all end a word. */
  lemma {:induction false} WordsAtSeparator(s: string, c: char, t: string, current: string)
    requires c in {',', ' ', '\t', '\n', '\r'}
    ensures Words(s + [c] + t, current) == Words(s, current) + Words(t, [])
    decreases |s|
  {
    var whole := s + [c] + t;
    if s == [] {
      assert whole[1..] == t;
    } else {
      assert whole[1..] == s[1..] + [c] + t;
      WordsAtSeparator(s[1..], c, t, if s[0] == ',' || IsSpace(s[0]) then [] else current + [s[0]]);
    }
  }

  /** Neither commas nor white space. */
  predicate Unbroken(p: string) {
    forall i :: 0 <= i < |p| ==> p[i] != ',' && !IsSpace(p[i])
  }

  lemma {:induction false} UnbrokenIsWord(p: string, current: string)
    requires Unbroken(p)
    ensures Words(p, current) == if current + p == [] then [] else [current + p]
    decreases |p|
  {
    if p == [] {
      assert current + p == current;
    } else {
      UnbrokenIsWord(p[1..], current + [p[0]]);
      assert current + [p[0]] + p[1..] == current + p;
    }
  }

  /** `-p`, anywhere between separators, disables everything that p matches, whatever else the selector says. */
  lemma {:induction false} MinusDisables(s: string, p: string, t: string, c: char, d: char, namespace: string)
    requires Unbroken(p) && Splits(namespace, p)
    requires c in {',', ' ', '\t', '\n', '\r'} && d in {',', ' ', '\t', '\n', '\r'}
    ensures !Enabled(Words(s + [c] + (['-'] + p + [d] + t), []), namespace)
  {
    var word := ['-'] + p;
    WordsAtSeparator(s, c, word + [d] + t, []);
    WordsAtSeparator(word, d, t, []);
    assert Unbroken(word);
    UnbrokenIsWord(word, []);
    var words := Words(s, []) + ([word] + Words(t, []));
    assert [] + word == word;
    assert words[|Words(s, [])|] == word && word[1..] == p;
    assert Excludes(word);
  }

  /** A single word without a minus enables exactly what it matches. */
  lemma {:induction false} WordEnables(p: string, namespace: string)
    requires Unbroken(p) && p != [] && p[0] != '-'
    ensures Enabled(Words(p, []), namespace) <==> Splits(namespace, p)
  {
    UnbrokenIsWord(p, []);
    assert [] + p == p;
    assert [p][0] == p;
  }
}
