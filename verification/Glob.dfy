/** The scanner's glob matcher: greedy, with one remembered star. */
module Glob {
  import opened Domain

  /** `std::tolower` in the "C" locale. */
  function ToLower(c: char): char {
    if 'A' <= c <= 'Z' then (c as int + 32) as char else c
  }

  predicate CharEqual(a: char, b: char, caseSensitive: bool) {
    if caseSensitive then a == b else ToLower(a) == ToLower(b)
  }

  /** A pattern character that is no star fits one text character. */
  predicate Fits(p: char, t: char, caseSensitive: bool) {
    p == '?' || CharEqual(p, t, caseSensitive)
  }

  /** What a pattern means: `*` stands for any text, `?` for any character. */
  predicate Matches(p: string, t: string, caseSensitive: bool)
    decreases |p| + |t|
  {
    if p == "" then t == ""
    else if p[0] == '*' then Matches(p[1..], t, caseSensitive) || (t != "" && Matches(p, t[1..], caseSensitive))
    else t != "" && Fits(p[0], t[0], caseSensitive) && Matches(p[1..], t[1..], caseSensitive)
  }

  predicate AllStars(p: string) {
    forall i :: 0 <= i < |p| ==> p[i] == '*'
  }

  /** The loop of the matcher, from a pattern index, a text index and the remembered star
      with the text index it was last tried at. The literal test comes before the star test. */
  predicate Greedy(p: string, t: string, caseSensitive: bool, pi: nat, ti: nat, star: Option<nat>, starText: nat)
    requires pi <= |p| && starText <= ti <= |t|
    requires star.Some? ==> star.value < pi
    decreases |t| - starText, |p| - (if star.Some? then star.value + 1 else 0), |t| - ti
  {
    if ti >= |t| then AllStars(p[pi..])
    else if pi < |p| && Fits(p[pi], t[ti], caseSensitive) then Greedy(p, t, caseSensitive, pi + 1, ti + 1, star, starText)
    else if pi < |p| && p[pi] == '*' then Greedy(p, t, caseSensitive, pi + 1, ti, Some(pi), ti)
    else if star.Some? then Greedy(p, t, caseSensitive, star.value + 1, starText + 1, star, starText + 1)
    else false
  }

  predicate WildcardMatches(p: string, t: string, caseSensitive: bool) {
    Greedy(p, t, caseSensitive, 0, 0, None, 0)
  }

  method WildcardMatch(pattern: string, text: string, caseSensitive: bool) returns (matched: bool)
    ensures matched == WildcardMatches(pattern, text, caseSensitive)
    ensures matched ==> Matches(pattern, text, caseSensitive)
    ensures '*' !in text && Matches(pattern, text, caseSensitive) ==> matched
  {
    GreedySound(pattern, text, caseSensitive);
    if '*' !in text && Matches(pattern, text, caseSensitive) { GreedyComplete(pattern, text, caseSensitive); }
    var patternIndex, textIndex, starIndex, starText := 0, 0, None, 0;
    while textIndex < |text|
      invariant 0 <= patternIndex <= |pattern| && 0 <= starText <= textIndex <= |text|
      invariant starIndex.Some? ==> 0 <= starIndex.value < patternIndex
      invariant WildcardMatches(pattern, text, caseSensitive)
        == Greedy(pattern, text, caseSensitive, patternIndex, textIndex, starIndex, starText)
      decreases |text| - starText, |pattern| - (if starIndex.Some? then starIndex.value + 1 else 0), |text| - textIndex
    {
      if patternIndex < |pattern| && Fits(pattern[patternIndex], text[textIndex], caseSensitive) {
        patternIndex, textIndex := patternIndex + 1, textIndex + 1;
        continue;
      }
      if patternIndex < |pattern| && pattern[patternIndex] == '*' {
        starIndex, patternIndex, starText := Some(patternIndex), patternIndex + 1, textIndex;
        continue;
      }
      if starIndex.Some? {
        starText := starText + 1;
        patternIndex, textIndex := starIndex.value + 1, starText;
        continue;
      }
      return false;
    }
    ghost var rest := pattern[patternIndex..];
    while patternIndex < |pattern| && pattern[patternIndex] == '*'
      invariant 0 <= patternIndex <= |pattern|
      invariant AllStars(rest) <==> AllStars(pattern[patternIndex..])
    {
      assert pattern[patternIndex..] == [pattern[patternIndex]] + pattern[patternIndex + 1..];
      patternIndex := patternIndex + 1;
    }
    assert patternIndex < |pattern| ==> pattern[patternIndex..][0] != '*';
    matched := patternIndex == |pattern|;
  }

  predicate GlobAccepts(glob: string, path: string, name: string, caseSensitive: bool) {
    glob != "" && (WildcardMatches(glob, path, caseSensitive) || WildcardMatches(glob, name, caseSensitive))
  }

  predicate GlobMeans(glob: string, path: string, name: string, caseSensitive: bool) {
    glob != "" && (Matches(glob, path, caseSensitive) || Matches(glob, name, caseSensitive))
  }

  /** The first glob that is not empty and matches the path or the name decides. */
  method MatchesAnyGlob(globs: seq<string>, path: string, name: string, caseSensitive: bool) returns (found: bool)
    ensures found <==> exists i :: 0 <= i < |globs| && GlobAccepts(globs[i], path, name, caseSensitive)
    ensures '*' !in path && '*' !in name ==>
      (found <==> exists i :: 0 <= i < |globs| && GlobMeans(globs[i], path, name, caseSensitive))
  {
    for i := 0 to |globs|
      invariant forall j :: 0 <= j < i ==> !GlobAccepts(globs[j], path, name, caseSensitive)
      invariant '*' !in path && '*' !in name ==> forall j :: 0 <= j < i ==> !GlobMeans(globs[j], path, name, caseSensitive)
    {
      if globs[i] == "" {
        continue;
      }
      var onPath := WildcardMatch(globs[i], path, caseSensitive);
      var onName := false;
      if !onPath {
        onName := WildcardMatch(globs[i], name, caseSensitive);
      }
      if onPath || onName {
        return true;
      }
    }
    found := false;
  }

  // ---- Facts about matching ----

  lemma {:induction false} MatchesConcat(p: string, t: string, q: string, u: string, caseSensitive: bool)
    requires Matches(p, t, caseSensitive) && Matches(q, u, caseSensitive)
    ensures Matches(p + q, t + u, caseSensitive)
    decreases |p| + |t|
  {
    if p == "" {
      assert p + q == q && t + u == u;
    } else {
      assert (p + q)[1..] == p[1..] + q;
      if t != "" { assert (t + u)[1..] == t[1..] + u; }
      if p[0] != '*' {
        MatchesConcat(p[1..], t[1..], q, u, caseSensitive);
      } else if Matches(p[1..], t, caseSensitive) {
        MatchesConcat(p[1..], t, q, u, caseSensitive);
      } else {
        MatchesConcat(p, t[1..], q, u, caseSensitive);
      }
    }
  }

  lemma MatchesOne(c: char, d: char, caseSensitive: bool)
    requires Fits(c, d, caseSensitive) || c == '*'
    ensures Matches([c], [d], caseSensitive)
  {
    assert [c][1..] == "" && [d][1..] == "";
    assert Matches("", "", caseSensitive);
    if c == '*' { assert Matches([c], [], caseSensitive); }
  }

  lemma {:induction false} AllStarsMatchEmpty(p: string, caseSensitive: bool)
    ensures AllStars(p) <==> Matches(p, "", caseSensitive)
  {
    if p != "" {
      AllStarsMatchEmpty(p[1..], caseSensitive);
      assert p == [p[0]] + p[1..];
    }
  }

  lemma {:induction false} MatchesSelf(t: string, caseSensitive: bool)
    ensures Matches(t, t, caseSensitive)
  {
    if t != "" {
      MatchesSelf(t[1..], caseSensitive);
      MatchesOne(t[0], t[0], caseSensitive);
      MatchesConcat([t[0]], [t[0]], t[1..], t[1..], caseSensitive);
      assert t == [t[0]] + t[1..];
    }
  }

  /** A leading star takes in any text before what it matches. */
  lemma {:induction false} StarAbsorbs(p: string, t: string, i: nat, j: nat, caseSensitive: bool)
    requires p != "" && p[0] == '*' && i <= j <= |t| && Matches(p, t[j..], caseSensitive)
    ensures Matches(p, t[i..], caseSensitive)
    decreases j - i
  {
    if i < j {
      StarAbsorbs(p, t, i + 1, j, caseSensitive);
      assert t[i..][1..] == t[i + 1..];
    }
  }

  /** And what a leading star matches, its rest matches somewhere later. */
  lemma {:induction false} StarSplits(p: string, t: string, i: nat, caseSensitive: bool) returns (k: nat)
    requires p != "" && p[0] == '*' && i <= |t| && Matches(p, t[i..], caseSensitive)
    ensures i <= k <= |t| && Matches(p[1..], t[k..], caseSensitive)
    decreases |t| - i
  {
    if Matches(p[1..], t[i..], caseSensitive) {
      k := i;
    } else {
      assert t[i..][1..] == t[i + 1..];
      k := StarSplits(p, t, i + 1, caseSensitive);
    }
  }

  // ---- Soundness, for all patterns and texts ----

  /** The remembered star and everything before it has matched up to the text index it was tried at. */
  predicate Sound(p: string, t: string, caseSensitive: bool, pi: nat, ti: nat, star: Option<nat>, starText: nat)
    requires pi <= |p| && starText <= ti <= |t|
    requires star.Some? ==> star.value < pi
  {
    && Matches(p[..pi], t[..ti], caseSensitive)
    && (star.Some? ==> p[star.value] == '*' && Matches(p[..star.value + 1], t[..starText], caseSensitive))
  }

  lemma {:induction false} SoundAnywhere(p: string, t: string, caseSensitive: bool, pi: nat, ti: nat, star: Option<nat>, starText: nat)
    requires pi <= |p| && starText <= ti <= |t|
    requires star.Some? ==> star.value < pi
    requires Sound(p, t, caseSensitive, pi, ti, star, starText)
    requires Greedy(p, t, caseSensitive, pi, ti, star, starText)
    ensures Matches(p, t, caseSensitive)
    decreases |t| - starText, |p| - (if star.Some? then star.value + 1 else 0), |t| - ti
  {
    if ti >= |t| {
      AllStarsMatchEmpty(p[pi..], caseSensitive);
      assert p[..pi] + p[pi..] == p && t[..ti] == t && t + "" == t;
      MatchesConcat(p[..pi], t, p[pi..], "", caseSensitive);
    } else if pi < |p| && Fits(p[pi], t[ti], caseSensitive) {
      MatchesOne(p[pi], t[ti], caseSensitive);
      MatchesConcat(p[..pi], t[..ti], [p[pi]], [t[ti]], caseSensitive);
      assert p[..pi] + [p[pi]] == p[..pi + 1] && t[..ti] + [t[ti]] == t[..ti + 1];
      SoundAnywhere(p, t, caseSensitive, pi + 1, ti + 1, star, starText);
    } else if pi < |p| && p[pi] == '*' {
      AllStarsMatchEmpty("*", caseSensitive);
      MatchesConcat(p[..pi], t[..ti], "*", "", caseSensitive);
      assert p[..pi] + "*" == p[..pi + 1] && t[..ti] + "" == t[..ti];
      SoundAnywhere(p, t, caseSensitive, pi + 1, ti, Some(pi), ti);
    } else {
      var s := star.value;
      assert p[..s + 1] == p[..s] + "*" && t[..starText + 1] == t[..starText] + [t[starText]];
      MatchesLonger(p[..s], t[..starText], t[starText], caseSensitive);
      SoundAnywhere(p, t, caseSensitive, s + 1, starText + 1, star, starText + 1);
    }
  }

  /** A pattern that ends in a star matches a longer text as well. */
  lemma {:induction false} MatchesLonger(p: string, t: string, c: char, caseSensitive: bool)
    requires Matches(p + "*", t, caseSensitive)
    ensures Matches(p + "*", t + [c], caseSensitive)
    decreases |p| + |t|
  {
    var q := p + "*";
    if t != "" { assert (t + [c])[1..] == t[1..] + [c]; }
    if p == "" {
      assert q == "*";
      if t == "" {
        assert (t + [c])[1..] == "";
      } else {
        assert !Matches("", t, caseSensitive) && q[1..] == "";
        MatchesLonger(p, t[1..], c, caseSensitive);
      }
    } else {
      assert q[1..] == p[1..] + "*";
      if p[0] != '*' {
        MatchesLonger(p[1..], t[1..], c, caseSensitive);
      } else if Matches(q[1..], t, caseSensitive) {
        MatchesLonger(p[1..], t, c, caseSensitive);
      } else {
        MatchesLonger(p, t[1..], c, caseSensitive);
      }
    }
  }

  lemma GreedySound(p: string, t: string, caseSensitive: bool)
    ensures WildcardMatches(p, t, caseSensitive) ==> Matches(p, t, caseSensitive)
  {
    assert p[..0] == "" && t[..0] == "";
    if WildcardMatches(p, t, caseSensitive) {
      SoundAnywhere(p, t, caseSensitive, 0, 0, None, 0);
    }
  }

  // ---- Completeness, for texts without a star ----

  lemma FitsNoStar(p: char, t: char, caseSensitive: bool)
    requires t != '*' && Fits(p, t, caseSensitive)
    ensures p != '*'
  {}

  /** The pattern between the star and the index is literal and fits the text tried. */
  predicate Tried(p: string, t: string, caseSensitive: bool, s: nat, pi: nat, starText: nat)
    requires s < pi <= |p| && starText + (pi - (s + 1)) <= |t|
  {
    && p[s] == '*'
    && (forall x :: s + 1 <= x < pi ==> p[x] != '*' && Fits(p[x], t[starText + (x - (s + 1))], caseSensitive))
  }

  /** A literal stretch of the pattern takes exactly as much text. */
  lemma {:induction false} LiteralTakes(p: string, t: string, caseSensitive: bool, from: nat, upto: nat, k: nat)
    requires from <= upto <= |p| && k <= |t| && Matches(p[from..], t[k..], caseSensitive)
    requires forall x :: from <= x < upto ==> p[x] != '*'
    ensures k + (upto - from) <= |t|
    ensures forall x :: from <= x < upto ==> Fits(p[x], t[k + (x - from)], caseSensitive)
    ensures Matches(p[upto..], t[k + (upto - from)..], caseSensitive)
    decreases upto - from
  {
    if from < upto {
      assert p[from..][1..] == p[from + 1..] && k < |t| && t[k..][1..] == t[k + 1..];
      LiteralTakes(p, t, caseSensitive, from + 1, upto, k + 1);
      forall x | from <= x < upto ensures Fits(p[x], t[k + (x - from)], caseSensitive) {
        if x > from { assert Fits(p[x], t[k + 1 + (x - (from + 1))], caseSensitive); }
      }
    }
  }

  /** A star whose stretch was tried in vain matches from one character later, or from a later star. */
  lemma StarMovesOn(p: string, t: string, caseSensitive: bool, s: nat, pi: nat, starText: nat)
    requires s < pi <= |p| && starText + (pi - (s + 1)) <= |t| && '*' !in t
    requires Tried(p, t, caseSensitive, s, pi, starText) && Matches(p[s..], t[starText..], caseSensitive)
    ensures starText + (pi - (s + 1)) == |t| ==> AllStars(p[pi..])
    ensures pi < |p| && p[pi] == '*' ==> Matches(p[pi..], t[starText + (pi - (s + 1))..], caseSensitive)
    ensures starText + (pi - (s + 1)) < |t| && (pi < |p| ==> !Fits(p[pi], t[starText + (pi - (s + 1))], caseSensitive) && p[pi] != '*')
      ==> Matches(p[s..], t[starText + 1..], caseSensitive)
  {
    var ti := starText + (pi - (s + 1));
    assert p[s..][1..] == p[s + 1..];
    var k := StarSplits(p[s..], t, starText, caseSensitive);
    LiteralTakes(p, t, caseSensitive, s + 1, pi, k);
    hide Matches;
    if ti == |t| {
      AllStarsMatchEmpty(p[pi..], caseSensitive);
      assert k == starText && t[ti..] == "";
    }
    if pi < |p| && p[pi] == '*' { StarAbsorbs(p[pi..], t, ti, k + (pi - (s + 1)), caseSensitive); }
    if ti < |t| && (pi < |p| ==> !Fits(p[pi], t[ti], caseSensitive) && p[pi] != '*') {
      NoLiteralMatch(p, t, caseSensitive, pi, ti);
      assert k != starText;
      StarTakesNothing(p[s..], t[k..], caseSensitive);
      StarAbsorbs(p[s..], t, starText + 1, k, caseSensitive);
    }
  }

  lemma NoLiteralMatch(p: string, t: string, caseSensitive: bool, pi: nat, ti: nat)
    requires pi <= |p| && ti < |t|
    requires pi < |p| ==> !Fits(p[pi], t[ti], caseSensitive) && p[pi] != '*'
    ensures !Matches(p[pi..], t[ti..], caseSensitive)
  {}

  lemma StarTakesNothing(p: string, t: string, caseSensitive: bool)
    requires p != "" && p[0] == '*' && Matches(p[1..], t, caseSensitive)
    ensures Matches(p, t, caseSensitive)
  {}

  lemma TriedMore(p: string, t: string, caseSensitive: bool, s: nat, pi: nat, starText: nat)
    requires s < pi < |p| && starText + (pi - (s + 1)) < |t| && Tried(p, t, caseSensitive, s, pi, starText)
    requires p[pi] != '*' && Fits(p[pi], t[starText + (pi - (s + 1))], caseSensitive)
    ensures Tried(p, t, caseSensitive, s, pi + 1, starText)
  {}

  lemma {:induction false} CompleteAnywhere(p: string, t: string, caseSensitive: bool, pi: nat, ti: nat, star: Option<nat>, starText: nat)
    requires pi <= |p| && starText <= ti <= |t| && '*' !in t
    requires star.Some? ==> star.value < pi && ti == starText + (pi - (star.value + 1))
    requires star.Some? ==> Tried(p, t, caseSensitive, star.value, pi, starText)
    requires star.Some? ==> Matches(p[star.value..], t[starText..], caseSensitive)
    requires star.None? ==> Matches(p[pi..], t[ti..], caseSensitive)
    ensures Greedy(p, t, caseSensitive, pi, ti, star, starText)
    decreases |t| - starText, |p| - (if star.Some? then star.value + 1 else 0), |t| - ti
  {
    hide Matches, Fits, AllStars;
    if star.Some? {
      StarMovesOn(p, t, caseSensitive, star.value, pi, starText);
      if ti >= |t| {
      } else if pi < |p| && Fits(p[pi], t[ti], caseSensitive) {
        FitsNoStar(p[pi], t[ti], caseSensitive);
        TriedMore(p, t, caseSensitive, star.value, pi, starText);
        CompleteAnywhere(p, t, caseSensitive, pi + 1, ti + 1, star, starText);
      } else if pi < |p| && p[pi] == '*' {
        CompleteAnywhere(p, t, caseSensitive, pi + 1, ti, Some(pi), ti);
      } else {
        CompleteAnywhere(p, t, caseSensitive, star.value + 1, starText + 1, star, starText + 1);
      }
    } else if ti >= |t| {
      AllStarsMatchEmpty(p[pi..], caseSensitive);
      assert t[ti..] == "";
    } else {
      if pi == |p| || (p[pi] != '*' && !Fits(p[pi], t[ti], caseSensitive)) {
        NoLiteralMatch(p, t, caseSensitive, pi, ti);
      }
      if Fits(p[pi], t[ti], caseSensitive) {
        FitsNoStar(p[pi], t[ti], caseSensitive);
        LiteralTakes(p, t, caseSensitive, pi, pi + 1, ti);
        CompleteAnywhere(p, t, caseSensitive, pi + 1, ti + 1, star, starText);
      } else {
        CompleteAnywhere(p, t, caseSensitive, pi + 1, ti, Some(pi), ti);
      }
    }
  }

  lemma GreedyComplete(p: string, t: string, caseSensitive: bool)
    requires '*' !in t && Matches(p, t, caseSensitive)
    ensures WildcardMatches(p, t, caseSensitive)
  {
    assert p[0..] == p && t[0..] == t;
    CompleteAnywhere(p, t, caseSensitive, 0, 0, None, 0);
  }

  // ---- Texts with a star always have a pattern the matcher wrongly rejects ----

  lemma {:induction false} NoStarNoSlack(p: string, t: string, caseSensitive: bool, pi: nat, ti: nat)
    requires pi <= |p| && ti <= |t| && '*' !in p[pi..]
    requires Greedy(p, t, caseSensitive, pi, ti, None, 0)
    ensures |p| - pi == |t| - ti
    decreases |t| - ti
  {
    if pi < |p| { assert p[pi..][0] == p[pi]; }
    if ti < |t| {
      assert pi < |p| ==> forall c :: c in p[pi + 1..] ==> c in p[pi..];
      NoStarNoSlack(p, t, caseSensitive, pi + 1, ti + 1);
    }
  }

  lemma {:induction false} LiteralPrefix(p: string, t: string, caseSensitive: bool, i: nat, n: nat)
    requires i <= n <= |p| && n <= |t| && p[..n] == t[..n]
    ensures Greedy(p, t, caseSensitive, i, i, None, 0) == Greedy(p, t, caseSensitive, n, n, None, 0)
    decreases n - i
  {
    if i < n {
      assert p[i] == p[..n][i] == t[i];
      LiteralPrefix(p, t, caseSensitive, i + 1, n);
    }
  }

  lemma {:induction false} LastStar(t: string) returns (k: nat)
    requires '*' in t
    ensures k < |t| && t[k] == '*' && '*' !in t[k + 1..]
  {
    var n := |t| - 1;
    if t[n] == '*' {
      k := n;
    } else {
      assert '*' in t[..n];
      k := LastStar(t[..n]);
      assert t[k + 1..] == t[..n][k + 1..] + [t[n]];
    }
  }

  lemma RejectedPattern(t: string, caseSensitive: bool) returns (p: string)
    requires '*' in t
    ensures Matches(p, t, caseSensitive) && !WildcardMatches(p, t, caseSensitive)
  {
    var k := LastStar(t);
    var u, v := t[..k], t[k + 1..];
    p := u + "*?" + v;
    assert t == u + "*" + v;
    MatchesSelf(u, caseSensitive);
    MatchesSelf(v, caseSensitive);
    assert Matches("*?", "*", caseSensitive) by {
      assert "*?"[1..] == "?" && "?"[1..] == "" && "*"[1..] == "";
      assert Matches("?", "*", caseSensitive);
    }
    MatchesConcat(u, u, "*?", "*", caseSensitive);
    MatchesConcat(u + "*?", u + "*", v, v, caseSensitive);
    assert p[..k + 1] == u + "*" == t[..k + 1];
    LiteralPrefix(p, t, caseSensitive, 0, k + 1);
    assert p[k + 1..] == "?" + v;
    if Greedy(p, t, caseSensitive, k + 1, k + 1, None, 0) {
      NoStarNoSlack(p, t, caseSensitive, k + 1, k + 1);
    }
  }

  /** Main result: on a text the matcher agrees with the meaning of every pattern exactly
      when the text has no star in it; in both case modes. */
  lemma AgreesIffNoStar(t: string, caseSensitive: bool)
    ensures (forall p :: WildcardMatches(p, t, caseSensitive) <==> Matches(p, t, caseSensitive)) <==> '*' !in t
  {
    if '*' in t {
      var p := RejectedPattern(t, caseSensitive);
    } else {
      forall p ensures WildcardMatches(p, t, caseSensitive) <==> Matches(p, t, caseSensitive) {
        GreedySound(p, t, caseSensitive);
        if Matches(p, t, caseSensitive) { GreedyComplete(p, t, caseSensitive); }
      }
    }
  }

  // ---- Matching spelled out on the characters ----

  /** One upper-case letter and the same letter in lower case, in either order. */
  predicate CasePair(a: char, b: char) {
    ('A' <= a <= 'Z' && b as int == a as int + 32) || ('A' <= b <= 'Z' && a as int == b as int + 32)
  }

  predicate CharByChar(p: string, t: string, caseSensitive: bool) {
    && |p| == |t|
    && forall i :: 0 <= i < |p| ==> p[i] == '?' || p[i] == t[i] || (!caseSensitive && CasePair(p[i], t[i]))
  }

  lemma {:induction false} PlainMatches(p: string, t: string, caseSensitive: bool)
    requires '*' !in p
    ensures Matches(p, t, caseSensitive) <==> CharByChar(p, t, caseSensitive)
  {
    if p != "" && t != "" {
      PlainMatches(p[1..], t[1..], caseSensitive);
      FitsSpelled(p[0], t[0], caseSensitive);
      FirstThenRest(p, t, caseSensitive);
    }
  }

  lemma FitsSpelled(p: char, t: char, caseSensitive: bool)
    ensures Fits(p, t, caseSensitive) <==> p == '?' || p == t || (!caseSensitive && CasePair(p, t))
  {}

  lemma FirstThenRest(p: string, t: string, caseSensitive: bool)
    requires p != "" && t != ""
    ensures CharByChar(p, t, caseSensitive) <==>
      (p[0] == '?' || p[0] == t[0] || (!caseSensitive && CasePair(p[0], t[0]))) && CharByChar(p[1..], t[1..], caseSensitive)
  {
    if |p| == |t| {
      assert forall i :: 1 <= i < |p| ==> p[i] == p[1..][i - 1] && t[i] == t[1..][i - 1];
    }
  }

  /** Main result: a pattern without a star is matched character by character: each is equal, or `?`,
      or, unless case counts, the same letter in the other case. */
  lemma PlainPattern(p: string, t: string, caseSensitive: bool)
    requires '*' !in p && '*' !in t
    ensures WildcardMatches(p, t, caseSensitive) <==> CharByChar(p, t, caseSensitive)
  {
    PlainMatches(p, t, caseSensitive);
    GreedySound(p, t, caseSensitive);
    if Matches(p, t, caseSensitive) { GreedyComplete(p, t, caseSensitive); }
  }

  /** Main result: a star stands for any text between what is before it and what is behind it. */
  lemma OneStarPattern(u: string, v: string, t: string, caseSensitive: bool)
    requires '*' !in u && '*' !in v && '*' !in t
    ensures WildcardMatches(u + "*" + v, t, caseSensitive) <==>
      |u| + |v| <= |t| && CharByChar(u, t[..|u|], caseSensitive) && CharByChar(v, t[|t| - |v|..], caseSensitive)
  {
    hide CharByChar, WildcardMatches;
    var p := u + "*" + v;
    assert p[0..] == p && p[|u|..] == "*" + v && ("*" + v)[1..] == v;
    GreedySound(p, t, caseSensitive);
    if WildcardMatches(p, t, caseSensitive) {
      assert t[0..] == t;
      LiteralTakes(p, t, caseSensitive, 0, |u|, 0);
      var k := StarSplits(p[|u|..], t, |u|, caseSensitive);
      PlainMatches(v, t[k..], caseSensitive);
      SameLength(v, t[k..], caseSensitive);
      LiteralPart(u, t[..|u|], p, t, caseSensitive);
    }
    if |u| + |v| <= |t| && CharByChar(u, t[..|u|], caseSensitive) && CharByChar(v, t[|t| - |v|..], caseSensitive) {
      PlainMatches(u, t[..|u|], caseSensitive);
      PlainMatches(v, t[|t| - |v|..], caseSensitive);
      StarTakesNothing("*" + v, t[|t| - |v|..], caseSensitive);
      StarAbsorbs("*" + v, t, |u|, |t| - |v|, caseSensitive);
      MatchesConcat(u, t[..|u|], "*" + v, t[|u|..], caseSensitive);
      assert u + ("*" + v) == p && t[..|u|] + t[|u|..] == t;
      GreedyComplete(p, t, caseSensitive);
    }
  }

  /** A glob without a star accepts an entry when it spells out the path or the name; the empty glob accepts nothing. */
  lemma PlainGlob(glob: string, path: string, name: string, caseSensitive: bool)
    requires '*' !in glob && '*' !in path && '*' !in name
    ensures GlobAccepts(glob, path, name, caseSensitive) <==>
      glob != "" && (CharByChar(glob, path, caseSensitive) || CharByChar(glob, name, caseSensitive))
  {
    PlainPattern(glob, path, caseSensitive);
    PlainPattern(glob, name, caseSensitive);
    hide WildcardMatches, CharByChar;
  }

  lemma SameLength(p: string, t: string, caseSensitive: bool)
    requires CharByChar(p, t, caseSensitive)
    ensures |p| == |t|
  {}

  lemma LiteralPart(u: string, head: string, p: string, t: string, caseSensitive: bool)
    requires |u| <= |p| && |u| <= |t| && u == p[..|u|] && head == t[..|u|]
    requires forall x :: 0 <= x < |u| ==> Fits(p[x], t[0 + (x - 0)], caseSensitive)
    ensures CharByChar(u, head, caseSensitive)
  {
    forall x | 0 <= x < |u| ensures u[x] == '?' || u[x] == head[x] || (!caseSensitive && CasePair(u[x], head[x])) {
      FitsSpelled(p[x], t[x], caseSensitive);
      assert Fits(p[x], t[0 + (x - 0)], caseSensitive);
    }
  }
}
