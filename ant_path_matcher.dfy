/**
 * The starter's Ant-style path matcher: a pattern and a path are split on
 * '/', tokens are matched first from the front, then from the back, and
 * "**" tokens in the middle are resolved by a leftmost search for the block
 * of tokens between two of them. Inside one token the same scheme runs on
 * characters with '*' and '?'.
 */
module AntPathMatcher {
  import opened Text
  import opened Wildcard

  const SEPARATOR: string := "/"
  const DOUBLE_STAR: string := "**"

  /** '?' matches any one character, any other pattern char only itself. */
  predicate CharMatches(p: char, c: char)
  {
    p == '?' || p == c
  }

  /** Reference glob within one segment: '*' is any run of chars. */
  predicate GlobMatch(pattern: string, str: string)
  {
    WildMatch(pattern, str, '*', CharMatches)
  }

  /** Reference match of token lists: "**" is any run of segments. */
  predicate SegMatch(patt: seq<string>, path: seq<string>)
  {
    WildMatch(patt, path, DOUBLE_STAR, GlobMatch)
  }

  function Tokenize(s: string): seq<string>
  {
    Split(s, SEPARATOR)
  }

  /**
   * When the path runs out exactly where a single trailing "*" token is
   * left and the path ends with '/', the matcher accepts.
   */
  predicate TrailingStarAccepts(patt: seq<string>, path: seq<string>, pathEndsSlash: bool)
  {
    |patt| == |path| + 1 && patt[|path|] == "*" && NoStars(patt, DOUBLE_STAR)
    && SegMatch(patt[..|path|], path) && pathEndsSlash
  }

  /**
   * What the token-level matcher computes: a match of equal-length token
   * lists without "**" also needs both or neither string to end with '/';
   * otherwise the token lists must match (or the trailing "*" case applies).
   */
  predicate TokensMatch(patt: seq<string>, dirs: seq<string>, pattEndsSlash: bool, pathEndsSlash: bool)
  {
    if |patt| == |dirs| && NoStars(patt, DOUBLE_STAR) then
      SegMatch(patt, dirs) && pattEndsSlash == pathEndsSlash
    else
      SegMatch(patt, dirs) || TrailingStarAccepts(patt, dirs, pathEndsSlash)
  }

  /** What the matcher computes: both or neither start with '/', and the tokens match. */
  predicate AntMatch(pattern: string, path: string)
  {
    StartsWith(path, SEPARATOR) == StartsWith(pattern, SEPARATOR)
    && TokensMatch(Tokenize(pattern), Tokenize(path), EndsWith(pattern, SEPARATOR), EndsWith(path, SEPARATOR))
  }

  /** match(pattern, path): a missing pattern or path never matches. */
  method Match(pattern: Option<string>, path: Option<string>) returns (r: bool)
    ensures r <==> pattern.Some? && path.Some? && AntMatch(pattern.value, path.value)
  {
    if pattern.None? || path.None? {
      return false;
    }
    r := DoMatch(pattern.value, path.value);
  }

  /** The segment-level matcher (full match). */
  method DoMatch(pattern: string, path: string) returns (r: bool)
    ensures r == AntMatch(pattern, path)
  {
    if StartsWith(path, SEPARATOR) != StartsWith(pattern, SEPARATOR) {
      return false;
    }
    var pattDirs := Tokenize(pattern);
    var pathDirs := Tokenize(path);
    r := MatchTokens(pattDirs, pathDirs, EndsWith(pattern, SEPARATOR), EndsWith(path, SEPARATOR));
  }

  /** doMatch after tokenizing: the tokens before the first "**" are matched pairwise. */
  method MatchTokens(pattDirs: seq<string>, pathDirs: seq<string>, pattEndsSlash: bool, pathEndsSlash: bool)
    returns (r: bool)
    ensures r == TokensMatch(pattDirs, pathDirs, pattEndsSlash, pathEndsSlash)
  {
    var pattIdxStart := 0;
    var pattIdxEnd := |pattDirs| - 1;
    var pathIdxStart := 0;
    var pathIdxEnd := |pathDirs| - 1;

    while pattIdxStart <= pattIdxEnd && pathIdxStart <= pathIdxEnd
      invariant 0 <= pattIdxStart == pathIdxStart
      invariant pattIdxStart <= |pattDirs| && pathIdxStart <= |pathDirs|
      invariant forall i :: 0 <= i < pattIdxStart ==> pattDirs[i] != DOUBLE_STAR && GlobMatch(pattDirs[i], pathDirs[i])
    {
      var pattDir := pattDirs[pattIdxStart];
      if pattDir == DOUBLE_STAR {
        break;
      }
      var ok := MatchStrings(pattDir, pathDirs[pathIdxStart]);
      if !ok {
        PeelLeftFail(pattDirs, pathDirs, pattIdxStart, DOUBLE_STAR, GlobMatch);
        if |pattDirs| == |pathDirs| + 1 {
          PeelLeftFail(pattDirs[..|pathDirs|], pathDirs, pattIdxStart, DOUBLE_STAR, GlobMatch);
        }
        return false;
      }
      pattIdxStart := pattIdxStart + 1;
      pathIdxStart := pathIdxStart + 1;
    }
    r := MatchAfterPrefix(pattDirs, pathDirs, pattIdxStart, pattEndsSlash, pathEndsSlash);
  }

  /**
   * doMatch once the first k tokens have matched and either a list is
   * exhausted or pattDirs[k] is "**".
   */
  method MatchAfterPrefix(pattDirs: seq<string>, pathDirs: seq<string>, k: nat, pattEndsSlash: bool, pathEndsSlash: bool)
    returns (r: bool)
    requires k <= |pattDirs| && k <= |pathDirs|
    requires forall i :: 0 <= i < k ==> pattDirs[i] != DOUBLE_STAR && GlobMatch(pattDirs[i], pathDirs[i])
    requires k == |pattDirs| || k == |pathDirs| || pattDirs[k] == DOUBLE_STAR
    ensures r == TokensMatch(pattDirs, pathDirs, pattEndsSlash, pathEndsSlash)
  {
    PeelLeft(pattDirs, pathDirs, k, DOUBLE_STAR, GlobMatch);
    if k == |pathDirs| {
      if k == |pattDirs| {
        assert NoStars(pattDirs, DOUBLE_STAR);
        assert pattDirs[k..] == [];
        return pattEndsSlash == pathEndsSlash;
      }
      if k == |pattDirs| - 1 && pattDirs[k] == "*" && pathEndsSlash {
        assert NoStars(pattDirs, DOUBLE_STAR);
        PeelLeft(pattDirs[..|pathDirs|], pathDirs, k, DOUBLE_STAR, GlobMatch);
        assert pattDirs[..|pathDirs|][k..] == [];
        return true;
      }
      assert pathDirs[k..] == [];
      assert pattDirs[k..] == pattDirs[k..|pattDirs|];
      MatchEmpty(pattDirs[k..], DOUBLE_STAR, GlobMatch);
      r := OnlyDoubleStars(pattDirs, k, |pattDirs| - 1);
      return;
    } else if k == |pattDirs| {
      assert pattDirs[k..] == [];
      return false;
    }
    // both lists remain, so the first loop stopped at a "**"
    assert !NoStars(pattDirs, DOUBLE_STAR);
    assert pattDirs[k..] == pattDirs[k..|pattDirs| - 1 + 1];
    assert pathDirs[k..] == pathDirs[k..|pathDirs| - 1 + 1];
    r := SegmentsFromDoubleStar(pattDirs, pathDirs, k, |pattDirs| - 1, k, |pathDirs| - 1);
  }

  /** doMatch once the front is matched and pattDirs[ps] is "**": the tokens after the last "**". */
  method SegmentsFromDoubleStar(pattDirs: seq<string>, pathDirs: seq<string>, ps: int, pe: int, ss: int, se: int)
    returns (r: bool)
    requires 0 <= ps <= pe < |pattDirs| && pattDirs[ps] == DOUBLE_STAR
    requires 0 <= ss <= se + 1 <= |pathDirs|
    ensures r == WildMatch(pattDirs[ps..pe + 1], pathDirs[ss..se + 1], DOUBLE_STAR, GlobMatch)
  {
    ghost var goal := WildMatch(pattDirs[ps..pe + 1], pathDirs[ss..se + 1], DOUBLE_STAR, GlobMatch);
    var pattIdxEnd := pe;
    var pathIdxEnd := se;
    while ps <= pattIdxEnd && ss <= pathIdxEnd
      invariant ps <= pattIdxEnd <= pe && ss - 1 <= pathIdxEnd <= se
      invariant goal == WildMatch(pattDirs[ps..pattIdxEnd + 1], pathDirs[ss..pathIdxEnd + 1], DOUBLE_STAR, GlobMatch)
    {
      var pattDir := pattDirs[pattIdxEnd];
      if pattDir == DOUBLE_STAR {
        break;
      }
      WindowPeelRight(pattDirs, pathDirs, ps, pattIdxEnd, ss, pathIdxEnd, DOUBLE_STAR, GlobMatch);
      var ok := MatchStrings(pattDir, pathDirs[pathIdxEnd]);
      if !ok {
        return false;
      }
      pattIdxEnd := pattIdxEnd - 1;
      pathIdxEnd := pathIdxEnd - 1;
    }

    if ss > pathIdxEnd {
      assert pathDirs[ss..pathIdxEnd + 1] == [];
      MatchEmpty(pattDirs[ps..pattIdxEnd + 1], DOUBLE_STAR, GlobMatch);
      r := OnlyDoubleStars(pattDirs, ps, pattIdxEnd);
      return;
    }
    r := SegmentBlocks(pattDirs, pathDirs, ps, pattIdxEnd, ss, pathIdxEnd);
  }

  /** doMatch between two "**": each block of tokens is placed at its leftmost match. */
  method SegmentBlocks(pattDirs: seq<string>, pathDirs: seq<string>, ps: int, pe: int, ss: int, se: int)
    returns (r: bool)
    requires 0 <= ps <= pe < |pattDirs| && pattDirs[ps] == DOUBLE_STAR && pattDirs[pe] == DOUBLE_STAR
    requires 0 <= ss <= se + 1 <= |pathDirs|
    ensures r == WildMatch(pattDirs[ps..pe + 1], pathDirs[ss..se + 1], DOUBLE_STAR, GlobMatch)
  {
    ghost var goal := WildMatch(pattDirs[ps..pe + 1], pathDirs[ss..se + 1], DOUBLE_STAR, GlobMatch);
    var pattIdxStart := ps;
    var pathIdxStart := ss;
    while pattIdxStart != pe && pathIdxStart <= se
      invariant ps <= pattIdxStart <= pe && pattDirs[pattIdxStart] == DOUBLE_STAR
      invariant ss <= pathIdxStart <= se + 1
      invariant goal == WildMatch(pattDirs[pattIdxStart..pe + 1], pathDirs[pathIdxStart..se + 1], DOUBLE_STAR, GlobMatch)
      decreases pe - pattIdxStart
    {
      var patIdxTmp := NextDoubleStar(pattDirs, pattIdxStart + 1, pe);
      if patIdxTmp == pattIdxStart + 1 {
        // "**/**"
        WindowDoubleStar(pattDirs, pathDirs, pattIdxStart, pe, pathIdxStart, se, DOUBLE_STAR, GlobMatch);
        pattIdxStart := pattIdxStart + 1;
        continue;
      }
      var patLength := patIdxTmp - pattIdxStart - 1;
      var foundIdx := FindSegmentBlock(pattDirs, pathDirs, pattIdxStart, patIdxTmp, pathIdxStart, se);
      WindowBlockStep(pattDirs, pathDirs, pattIdxStart, patIdxTmp, pe, pathIdxStart, se, foundIdx, DOUBLE_STAR, GlobMatch);
      if foundIdx == -1 {
        return false;
      }
      pattIdxStart := patIdxTmp;
      pathIdxStart := foundIdx + patLength;
    }

    if pattIdxStart == pe {
      AllStarsMatchAll(pattDirs[pattIdxStart..pe + 1], pathDirs[pathIdxStart..se + 1], DOUBLE_STAR, GlobMatch);
    } else {
      assert pathDirs[pathIdxStart..se + 1] == [];
      MatchEmpty(pattDirs[pattIdxStart..pe + 1], DOUBLE_STAR, GlobMatch);
    }
    r := OnlyDoubleStars(pattDirs, pattIdxStart, pe);
  }

  /** The closing loops of doMatch: is pattDirs[lo..hi] all "**"? */
  method OnlyDoubleStars(pattDirs: seq<string>, lo: int, hi: int) returns (r: bool)
    requires 0 <= lo <= hi + 1 <= |pattDirs|
    ensures r == AllStars(pattDirs[lo..hi + 1], DOUBLE_STAR)
  {
    var i := lo;
    while i <= hi
      invariant lo <= i <= hi + 1
      invariant forall k :: lo <= k < i ==> pattDirs[k] == DOUBLE_STAR
    {
      if pattDirs[i] != DOUBLE_STAR {
        assert pattDirs[lo..hi + 1][i - lo] != DOUBLE_STAR;
        return false;
      }
      i := i + 1;
    }
    return true;
  }

  /** The scan for the next "**" token; hi itself holds one. */
  method NextDoubleStar(pattDirs: seq<string>, lo: int, hi: int) returns (tmp: int)
    requires 0 <= lo <= hi < |pattDirs| && pattDirs[hi] == DOUBLE_STAR
    ensures lo <= tmp <= hi && pattDirs[tmp] == DOUBLE_STAR
    ensures forall k :: lo <= k < tmp ==> pattDirs[k] != DOUBLE_STAR
  {
    tmp := -1;
    var i := lo;
    while i <= hi
      invariant lo <= i <= hi
      invariant forall k :: lo <= k < i ==> pattDirs[k] != DOUBLE_STAR
    {
      if pattDirs[i] == DOUBLE_STAR {
        tmp := i;
        break;
      }
      i := i + 1;
    }
  }

  /**
   * The labelled search of doMatch: the leftmost place in
   * pathDirs[ss..se] where the tokens strictly between the "**" at ps and
   * tmp all match, or -1.
   */
  method FindSegmentBlock(pattDirs: seq<string>, pathDirs: seq<string>, ps: int, tmp: int, ss: int, se: int)
    returns (foundIdx: int)
    requires 0 <= ps < tmp < |pattDirs| && 0 <= ss <= se + 1 <= |pathDirs|
    ensures foundIdx == -1 ==>
      forall q :: 0 <= q <= (se - ss + 1) - (tmp - ps - 1) ==> !BlockBetween(pattDirs, ps, tmp, pathDirs, ss, se, q, GlobMatch)
    ensures foundIdx != -1 ==>
      ss <= foundIdx && BlockBetween(pattDirs, ps, tmp, pathDirs, ss, se, foundIdx - ss, GlobMatch)
      && forall q :: 0 <= q < foundIdx - ss ==> !BlockBetween(pattDirs, ps, tmp, pathDirs, ss, se, q, GlobMatch)
  {
    ghost var block := pattDirs[ps + 1..tmp];
    ghost var sw := pathDirs[ss..se + 1];
    var patLength := tmp - ps - 1;
    var strLength := se - ss + 1;
    foundIdx := -1;
    var i := 0;
    label strLoop:
    while i <= strLength - patLength
      invariant 0 <= i
      invariant forall q :: 0 <= q < i ==> !BlockBetween(pattDirs, ps, tmp, pathDirs, ss, se, q, GlobMatch)
    {
      var j := 0;
      while j < patLength
        invariant 0 <= j <= patLength
        invariant forall q :: 0 <= q < j ==> GlobMatch(block[q], sw[i + q])
      {
        var subPat := pattDirs[ps + j + 1];
        var subStr := pathDirs[ss + i + j];
        var ok := MatchStrings(subPat, subStr);
        if !ok {
          assert !GlobMatch(block[j], sw[i + j]);
          i := i + 1;
          continue strLoop;
        }
        j := j + 1;
      }
      foundIdx := ss + i;
      break;
    }
  }

  /** matchStrings: '?' and '*' within one segment. */
  method MatchStrings(pattern: string, str: string) returns (r: bool)
    ensures r == GlobMatch(pattern, str)
  {
    var patIdxStart := 0;
    var patIdxEnd := |pattern| - 1;
    var strIdxStart := 0;
    var strIdxEnd := |str| - 1;

    var containsStar := false;
    var c := 0;
    while c < |pattern|
      invariant 0 <= c <= |pattern|
      invariant forall i :: 0 <= i < c ==> pattern[i] != '*'
    {
      if pattern[c] == '*' {
        containsStar := true;
        break;
      }
      c := c + 1;
    }

    if !containsStar {
      r := MatchWithoutStar(pattern, str);
      return;
    }

    if patIdxEnd == 0 {
      AllStarsMatchAll(pattern, str, '*', CharMatches);
      return true;
    }

    // the part before the first '*'
    while pattern[patIdxStart] != '*' && strIdxStart <= strIdxEnd
      invariant c < |pattern| && pattern[c] == '*'
      invariant 0 <= patIdxStart <= c && patIdxStart == strIdxStart && strIdxStart <= |str|
      invariant forall i :: 0 <= i < patIdxStart ==> pattern[i] != '*' && CharMatches(pattern[i], str[i])
      decreases strIdxEnd - strIdxStart
    {
      var ch := pattern[patIdxStart];
      if ch != '?' && ch != str[strIdxStart] {
        PeelLeftFail(pattern, str, patIdxStart, '*', CharMatches);
        return false;
      }
      patIdxStart := patIdxStart + 1;
      strIdxStart := strIdxStart + 1;
    }
    PeelLeft(pattern, str, patIdxStart, '*', CharMatches);
    assert pattern[patIdxStart..] == pattern[patIdxStart..patIdxEnd + 1];
    assert str[strIdxStart..] == str[strIdxStart..strIdxEnd + 1];

    if strIdxStart > strIdxEnd {
      MatchEmpty(pattern[patIdxStart..patIdxEnd + 1], '*', CharMatches);
      r := OnlyStars(pattern, patIdxStart, patIdxEnd);
      return;
    }
    r := MatchFromStar(pattern, str, patIdxStart, patIdxEnd, strIdxStart, strIdxEnd);
  }

  /** matchStrings once the front is matched and pattern[ps] is '*': the part after the last '*'. */
  method MatchFromStar(pattern: string, str: string, ps: int, pe: int, ss: int, se: int) returns (r: bool)
    requires 0 <= ps <= pe < |pattern| && pattern[ps] == '*'
    requires 0 <= ss <= se + 1 <= |str|
    ensures r == WildMatch(pattern[ps..pe + 1], str[ss..se + 1], '*', CharMatches)
  {
    ghost var goal := WildMatch(pattern[ps..pe + 1], str[ss..se + 1], '*', CharMatches);
    var patIdxEnd := pe;
    var strIdxEnd := se;
    while pattern[patIdxEnd] != '*' && ss <= strIdxEnd
      invariant ps <= patIdxEnd <= pe && ss - 1 <= strIdxEnd <= se
      invariant goal == WildMatch(pattern[ps..patIdxEnd + 1], str[ss..strIdxEnd + 1], '*', CharMatches)
      decreases strIdxEnd - ss
    {
      var ch := pattern[patIdxEnd];
      WindowPeelRight(pattern, str, ps, patIdxEnd, ss, strIdxEnd, '*', CharMatches);
      if ch != '?' && ch != str[strIdxEnd] {
        return false;
      }
      patIdxEnd := patIdxEnd - 1;
      strIdxEnd := strIdxEnd - 1;
    }

    if ss > strIdxEnd {
      assert str[ss..strIdxEnd + 1] == [];
      MatchEmpty(pattern[ps..patIdxEnd + 1], '*', CharMatches);
      r := OnlyStars(pattern, ps, patIdxEnd);
      return;
    }
    r := MatchStarBlocks(pattern, str, ps, patIdxEnd, ss, strIdxEnd);
  }

  /** matchStrings between two '*': each block is placed at its leftmost match. */
  method MatchStarBlocks(pattern: string, str: string, ps: int, pe: int, ss: int, se: int) returns (r: bool)
    requires 0 <= ps <= pe < |pattern| && pattern[ps] == '*' && pattern[pe] == '*'
    requires 0 <= ss <= se + 1 <= |str|
    ensures r == WildMatch(pattern[ps..pe + 1], str[ss..se + 1], '*', CharMatches)
  {
    ghost var goal := WildMatch(pattern[ps..pe + 1], str[ss..se + 1], '*', CharMatches);
    var patIdxStart := ps;
    var strIdxStart := ss;
    while patIdxStart != pe && strIdxStart <= se
      invariant ps <= patIdxStart <= pe && pattern[patIdxStart] == '*'
      invariant ss <= strIdxStart <= se + 1
      invariant goal == WildMatch(pattern[patIdxStart..pe + 1], str[strIdxStart..se + 1], '*', CharMatches)
      decreases pe - patIdxStart
    {
      var patIdxTmp := NextStar(pattern, patIdxStart + 1, pe);
      if patIdxTmp == patIdxStart + 1 {
        WindowDoubleStar(pattern, str, patIdxStart, pe, strIdxStart, se, '*', CharMatches);
        patIdxStart := patIdxStart + 1;
        continue;
      }
      var patLength := patIdxTmp - patIdxStart - 1;
      var foundIdx := FindCharBlock(pattern, str, patIdxStart, patIdxTmp, strIdxStart, se);
      WindowBlockStep(pattern, str, patIdxStart, patIdxTmp, pe, strIdxStart, se, foundIdx, '*', CharMatches);
      if foundIdx == -1 {
        return false;
      }
      patIdxStart := patIdxTmp;
      strIdxStart := foundIdx + patLength;
    }

    if patIdxStart == pe {
      AllStarsMatchAll(pattern[patIdxStart..pe + 1], str[strIdxStart..se + 1], '*', CharMatches);
    } else {
      assert str[strIdxStart..se + 1] == [];
      MatchEmpty(pattern[patIdxStart..pe + 1], '*', CharMatches);
    }
    r := OnlyStars(pattern, patIdxStart, pe);
  }

  /** The branch of matchStrings for a pattern without '*': equal length, char by char. */
  method MatchWithoutStar(pattern: string, str: string) returns (r: bool)
    requires NoStars(pattern, '*')
    ensures r == GlobMatch(pattern, str)
  {
    NoStarsMatch(pattern, str, '*', CharMatches);
    var patIdxEnd := |pattern| - 1;
    var strIdxEnd := |str| - 1;
    if patIdxEnd != strIdxEnd {
      return false;
    }
    var i := 0;
    while i <= patIdxEnd
      invariant 0 <= i <= |pattern|
      invariant forall k :: 0 <= k < i ==> CharMatches(pattern[k], str[0 + k])
    {
      var ch := pattern[i];
      if ch != '?' && ch != str[i] {
        return false;
      }
      i := i + 1;
    }
    return true;
  }

  /** The closing loop of matchStrings: is pattern[lo..hi] all '*'? */
  method OnlyStars(pattern: string, lo: int, hi: int) returns (r: bool)
    requires 0 <= lo <= hi + 1 <= |pattern|
    ensures r == AllStars(pattern[lo..hi + 1], '*')
  {
    var i := lo;
    while i <= hi
      invariant lo <= i <= hi + 1
      invariant forall k :: lo <= k < i ==> pattern[k] == '*'
    {
      if pattern[i] != '*' {
        assert pattern[lo..hi + 1][i - lo] != '*';
        return false;
      }
      i := i + 1;
    }
    return true;
  }

  /** The scan for the next '*' after patIdxStart; hi itself holds one. */
  method NextStar(pattern: string, lo: int, hi: int) returns (tmp: int)
    requires 0 <= lo <= hi < |pattern| && pattern[hi] == '*'
    ensures lo <= tmp <= hi && pattern[tmp] == '*'
    ensures forall k :: lo <= k < tmp ==> pattern[k] != '*'
  {
    tmp := -1;
    var i := lo;
    while i <= hi
      invariant lo <= i <= hi
      invariant forall k :: lo <= k < i ==> pattern[k] != '*'
    {
      if pattern[i] == '*' {
        tmp := i;
        break;
      }
      i := i + 1;
    }
  }

  /**
   * The labelled search of matchStrings: the leftmost place in
   * str[ss..se] where the chars strictly between the stars at ps and tmp
   * match, or -1.
   */
  method FindCharBlock(pattern: string, str: string, ps: int, tmp: int, ss: int, se: int) returns (foundIdx: int)
    requires 0 <= ps < tmp < |pattern| && 0 <= ss <= se + 1 <= |str|
    ensures foundIdx == -1 ==>
      forall q :: 0 <= q <= (se - ss + 1) - (tmp - ps - 1) ==> !BlockBetween(pattern, ps, tmp, str, ss, se, q, CharMatches)
    ensures foundIdx != -1 ==>
      ss <= foundIdx && BlockBetween(pattern, ps, tmp, str, ss, se, foundIdx - ss, CharMatches)
      && forall q :: 0 <= q < foundIdx - ss ==> !BlockBetween(pattern, ps, tmp, str, ss, se, q, CharMatches)
  {
    ghost var block := pattern[ps + 1..tmp];
    ghost var sw := str[ss..se + 1];
    var patLength := tmp - ps - 1;
    var strLength := se - ss + 1;
    foundIdx := -1;
    var i := 0;
    label strLoop:
    while i <= strLength - patLength
      invariant 0 <= i
      invariant forall q :: 0 <= q < i ==> !BlockBetween(pattern, ps, tmp, str, ss, se, q, CharMatches)
    {
      var j := 0;
      while j < patLength
        invariant 0 <= j <= patLength
        invariant forall q :: 0 <= q < j ==> CharMatches(block[q], sw[i + q])
      {
        var ch := pattern[ps + j + 1];
        if ch != '?' && ch != str[ss + i + j] {
          assert !CharMatches(block[j], sw[i + j]);
          i := i + 1;
          continue strLoop;
        }
        j := j + 1;
      }
      foundIdx := ss + i;
      break;
    }
  }

  // ---- properties of the reference predicates ----

  /** Without '*', a segment matches iff the lengths agree and each char is '?' or equal. */
  lemma GlobWithoutStar(pattern: string, str: string)
    requires NoStars(pattern, '*')
    ensures GlobMatch(pattern, str) <==>
      |pattern| == |str| && forall i :: 0 <= i < |pattern| ==> pattern[i] == '?' || pattern[i] == str[i]
  {
    NoStarsMatch(pattern, str, '*', CharMatches);
  }

  /** Within a segment '*' matches any run of characters. */
  lemma GlobStarRun(a: string, b: string, x: string, y: string, z: string)
    requires GlobMatch(a, x) && GlobMatch(b, z)
    ensures GlobMatch(a + "*" + b, x + y + z)
  {
    StarBetween(a, b, x, y, z, '*', CharMatches);
  }

  /** A "**" token matches any run of whole segments, including none. */
  lemma DoubleStarSpansSegments(a: seq<string>, b: seq<string>, x: seq<string>, y: seq<string>, z: seq<string>)
    requires SegMatch(a, x) && SegMatch(b, z)
    ensures SegMatch(a + [DOUBLE_STAR] + b, x + y + z)
  {
    StarBetween(a, b, x, y, z, DOUBLE_STAR, GlobMatch);
  }

  /** Once the path tokens are used up by the front, the rest of the pattern must be all "**". */
  lemma PathExhaustedLeftover(patt: seq<string>, dirs: seq<string>)
    requires |dirs| <= |patt|
    requires forall i :: 0 <= i < |dirs| ==> patt[i] != DOUBLE_STAR && GlobMatch(patt[i], dirs[i])
    ensures SegMatch(patt, dirs) <==> AllStars(patt[|dirs|..], DOUBLE_STAR)
  {
    PeelLeft(patt, dirs, |dirs|, DOUBLE_STAR, GlobMatch);
    assert dirs[|dirs|..] == [];
    MatchEmpty(patt[|dirs|..], DOUBLE_STAR, GlobMatch);
  }

  /** A pattern without "**" that has fewer tokens than the path never matches. */
  lemma PatternExhausted(patt: seq<string>, dirs: seq<string>, pattEndsSlash: bool, pathEndsSlash: bool)
    requires NoStars(patt, DOUBLE_STAR) && |patt| < |dirs|
    ensures !TokensMatch(patt, dirs, pattEndsSlash, pathEndsSlash)
  {
    NoStarsMatch(patt, dirs, DOUBLE_STAR, GlobMatch);
  }

  /** Tokenizing a '/'-joined path of non-empty tail. */
  lemma TokenizeJoin(parts: seq<string>)
    requires |parts| >= 2 && parts[|parts| - 1] != ""
    requires forall i :: 0 <= i < |parts| ==> '/' !in parts[i]
    ensures Tokenize(Join(parts, SEPARATOR)) == parts
  {
    SplitJoinChar(parts, '/');
  }

  /** A literal path tokenizes into its '/'-free parts. */
  lemma TokenizeLiteral(parts: seq<string>, s: string)
    requires |parts| >= 2 && parts[|parts| - 1] != ""
    requires forall i :: 0 <= i < |parts| ==> '/' !in parts[i]
    requires Join(parts, SEPARATOR) == s
    ensures Tokenize(s) == parts
  {
    TokenizeJoin(parts);
  }

  // The tokens of the paths in the starter's own test cases.
  lemma TokensApiUsers() ensures Tokenize("/api/users/123") == ["", "api", "users", "123"]
  {
    TokenizeLiteral(["", "api", "users", "123"], "/api/users/123");
  }

  lemma TokensApiDoubleStar() ensures Tokenize("/api/**") == ["", "api", DOUBLE_STAR]
  {
    TokenizeLiteral(["", "api", "**"], "/api/**");
  }

  lemma TokensApiStar() ensures Tokenize("/api/*") == ["", "api", "*"]
  {
    TokenizeLiteral(["", "api", "*"], "/api/*");
  }

  lemma TokensUserStarProfile() ensures Tokenize("/user/*/profile") == ["", "user", "*", "profile"]
  {
    TokenizeLiteral(["", "user", "*", "profile"], "/user/*/profile");
  }

  lemma TokensUserProfile() ensures Tokenize("/user/123/profile") == ["", "user", "123", "profile"]
  {
    TokenizeLiteral(["", "user", "123", "profile"], "/user/123/profile");
  }

  lemma ApiDoubleStarTokens()
    ensures TokensMatch(["", "api", DOUBLE_STAR], ["", "api", "users", "123"], false, false)
  {
    var front := ["", "api"];
    assert GlobMatch(front[0], front[0]) && GlobMatch(front[1], front[1]);
    PathExhaustedLeftover(front, front);
    assert front[|front|..] == [];
    MatchEmpty([], DOUBLE_STAR, GlobMatch);
    DoubleStarSpansSegments(front, [], front, ["users", "123"], []);
    assert front + [DOUBLE_STAR] + [] == ["", "api", DOUBLE_STAR];
    assert front + ["users", "123"] + [] == ["", "api", "users", "123"];
  }

  lemma ApiStarTokens()
    ensures !TokensMatch(["", "api", "*"], ["", "api", "users", "123"], false, false)
  {
    assert NoStars(["", "api", "*"], DOUBLE_STAR);
    PatternExhausted(["", "api", "*"], ["", "api", "users", "123"], false, false);
  }

  lemma UserStarProfileTokens()
    ensures TokensMatch(["", "user", "*", "profile"], ["", "user", "123", "profile"], false, false)
  {
    var patt := ["", "user", "*", "profile"];
    var dirs := ["", "user", "123", "profile"];
    assert NoStars(patt, DOUBLE_STAR);
    AllStarsMatchAll("*", "123", '*', CharMatches);
    assert GlobMatch(patt[0], dirs[0]) && GlobMatch(patt[1], dirs[1]);
    assert GlobMatch(patt[2], dirs[2]) && GlobMatch(patt[3], dirs[3]);
    PathExhaustedLeftover(patt, dirs);
    assert patt[|dirs|..] == [];
  }

  // The three cases of the starter's test: "/api/**" matches "/api/users/123",
  // "/api/*" does not, and "/user/*/profile" matches "/user/123/profile".
  lemma StarterTestCases()
    ensures AntMatch("/api/**", "/api/users/123")
    ensures !AntMatch("/api/*", "/api/users/123")
    ensures AntMatch("/user/*/profile", "/user/123/profile")
  {
    TokensApiUsers();
    TokensApiDoubleStar();
    TokensApiStar();
    TokensUserStarProfile();
    TokensUserProfile();
    ApiDoubleStarTokens();
    ApiStarTokens();
    UserStarProfileTokens();
  }
}
