/**
 * Reference semantics for star-and-item patterns, shared by the two levels
 * of the Ant matcher: characters inside one path segment ('*' against
 * '?'/literal chars) and whole segments ("**" against per-segment globs).
 */
module Wildcard {

  /**
   * p matches s when every `star` element of p absorbs zero or more
   * elements of s and every other element of p matches exactly one
   * element of s under `m`, in order.
   */
  function WildMatch<T(==), U>(p: seq<T>, s: seq<U>, star: T, m: (T, U) -> bool): bool
    decreases |p| + |s|
  {
    if |p| == 0 then |s| == 0
    else if p[0] == star then WildMatch(p[1..], s, star, m) || (|s| > 0 && WildMatch(p, s[1..], star, m))
    else |s| > 0 && m(p[0], s[0]) && WildMatch(p[1..], s[1..], star, m)
  }

  predicate AllStars<T(==)>(p: seq<T>, star: T)
  {
    forall i :: 0 <= i < |p| ==> p[i] == star
  }

  predicate NoStars<T(==)>(p: seq<T>, star: T)
  {
    forall i :: 0 <= i < |p| ==> p[i] != star
  }

  /** Block b matches the |b| elements of s starting at k. */
  predicate BlockAt<T, U>(b: seq<T>, s: seq<U>, k: int, m: (T, U) -> bool)
  {
    0 <= k && k + |b| <= |s| && forall j :: 0 <= j < |b| ==> m(b[j], s[k + j])
  }

  /** Against the empty sequence only all-star patterns match. */
  lemma {:induction false} MatchEmpty<T, U>(p: seq<T>, star: T, m: (T, U) -> bool)
    ensures WildMatch(p, [], star, m) <==> AllStars(p, star)
    decreases |p|
  {
    if |p| > 0 {
      MatchEmpty(p[1..], star, m);
      assert AllStars(p, star) <==> p[0] == star && AllStars(p[1..], star) by {
        if p[0] == star && AllStars(p[1..], star) {
          forall i | 0 <= i < |p| ensures p[i] == star {
            if i > 0 { assert p[i] == p[1..][i - 1]; }
          }
        }
      }
    }
  }

  /** A pattern made only of stars matches everything. */
  lemma {:induction false} AllStarsMatchAll<T, U>(p: seq<T>, s: seq<U>, star: T, m: (T, U) -> bool)
    requires |p| > 0 && AllStars(p, star)
    ensures WildMatch(p, s, star, m)
    decreases |s|
  {
    if |s| == 0 {
      MatchEmpty(p, star, m);
    } else {
      AllStarsMatchAll(p, s[1..], star, m);
    }
  }

  /** A pattern without stars matches exactly the sequences of its own length, item by item. */
  lemma {:induction false} NoStarsMatch<T, U>(p: seq<T>, s: seq<U>, star: T, m: (T, U) -> bool)
    requires NoStars(p, star)
    ensures WildMatch(p, s, star, m) <==> |p| == |s| && BlockAt(p, s, 0, m)
    decreases |p|
  {
    if |p| > 0 && |s| > 0 {
      NoStarsMatch(p[1..], s[1..], star, m);
      if |p| == |s| && BlockAt(p, s, 0, m) {
        forall j | 0 <= j < |p| - 1 ensures m(p[1..][j], s[1..][0 + j]) {
          assert m(p[j + 1], s[0 + (j + 1)]);
        }
      }
      if WildMatch(p, s, star, m) {
        forall j | 0 <= j < |p| ensures m(p[j], s[0 + j]) {
          if j > 0 { assert m(p[1..][j - 1], s[1..][0 + (j - 1)]); }
        }
      }
    }
  }

  /** Matching the first n non-star items one for one leaves the rest to match the rest. */
  lemma {:induction false} PeelLeft<T, U>(p: seq<T>, s: seq<U>, n: nat, star: T, m: (T, U) -> bool)
    requires n <= |p| && n <= |s|
    requires forall i :: 0 <= i < n ==> p[i] != star && m(p[i], s[i])
    ensures WildMatch(p, s, star, m) == WildMatch(p[n..], s[n..], star, m)
    decreases n
  {
    if n > 0 {
      PeelLeft(p[1..], s[1..], n - 1, star, m);
      assert p[1..][n - 1..] == p[n..];
      assert s[1..][n - 1..] == s[n..];
    }
  }

  /** A first item that does not match its element makes the whole match fail. */
  lemma PeelLeftFail<T, U>(p: seq<T>, s: seq<U>, n: nat, star: T, m: (T, U) -> bool)
    requires n < |p| && n < |s|
    requires forall i :: 0 <= i < n ==> p[i] != star && m(p[i], s[i])
    requires p[n] != star && !m(p[n], s[n])
    ensures !WildMatch(p, s, star, m)
  {
    PeelLeft(p, s, n, star, m);
  }

  /** Matches compose: a match of p against s and of q against t give one of p + q against s + t. */
  lemma {:induction false} MatchConcat<T, U>(p: seq<T>, q: seq<T>, s: seq<U>, t: seq<U>, star: T, m: (T, U) -> bool)
    requires WildMatch(p, s, star, m) && WildMatch(q, t, star, m)
    ensures WildMatch(p + q, s + t, star, m)
    decreases |p| + |s|
  {
    if |p| == 0 {
      assert p + q == q && s + t == t;
    } else if p[0] == star {
      assert (p + q)[0] == star && (p + q)[1..] == p[1..] + q;
      if WildMatch(p[1..], s, star, m) {
        MatchConcat(p[1..], q, s, t, star, m);
      } else {
        MatchConcat(p, q, s[1..], t, star, m);
        assert (s + t)[1..] == s[1..] + t;
      }
    } else {
      MatchConcat(p[1..], q, s[1..], t, star, m);
      assert (p + q)[1..] == p[1..] + q && (s + t)[1..] == s[1..] + t;
    }
  }

  /** A star between two matching parts absorbs whatever run lies between them. */
  lemma StarBetween<T, U>(a: seq<T>, b: seq<T>, x: seq<U>, y: seq<U>, z: seq<U>, star: T, m: (T, U) -> bool)
    requires WildMatch(a, x, star, m) && WildMatch(b, z, star, m)
    ensures WildMatch(a + [star] + b, x + y + z, star, m)
  {
    var sb := [star] + b;
    assert sb[1..] == b && (y + z)[|y|..] == z;
    StarSplit(sb, y + z, |y|, star, m);
    MatchConcat(a, sb, x, y + z, star, m);
    assert a + sb == a + [star] + b && x + (y + z) == x + y + z;
  }

  /** A non-star last item must match the last element. */
  lemma {:induction false} PeelRight<T, U>(p: seq<T>, s: seq<U>, star: T, m: (T, U) -> bool)
    requires |p| > 0 && p[|p| - 1] != star
    ensures WildMatch(p, s, star, m) <==>
      |s| > 0 && m(p[|p| - 1], s[|s| - 1]) && WildMatch(p[..|p| - 1], s[..|s| - 1], star, m)
    decreases |p| + |s|
  {
    var last := p[|p| - 1];
    var p' := p[..|p| - 1];
    if |p| == 1 {
      assert p' == [];
    } else if p[0] == star {
      PeelRight(p[1..], s, star, m);
      assert p[1..][..|p| - 2] == p'[1..];
      if |s| > 0 {
        PeelRight(p, s[1..], star, m);
        if |s| > 1 {
          assert s[1..][..|s| - 2] == s[..|s| - 1][1..];
        }
        var s' := s[..|s| - 1];
        assert WildMatch(p', s', star, m) == (WildMatch(p'[1..], s', star, m) || (|s'| > 0 && WildMatch(p', s'[1..], star, m)));
        if |s| == 1 {
          assert !WildMatch(p, s[1..], star, m) by {
            MatchEmpty(p, star, m);
          }
        }
      } else {
        MatchEmpty(p, star, m);
        MatchEmpty(p[1..], star, m);
      }
    } else {
      if |s| > 0 {
        PeelRight(p[1..], s[1..], star, m);
        assert p[1..][..|p| - 2] == p'[1..];
        if |s| > 1 {
          assert s[1..][..|s| - 2] == s[..|s| - 1][1..];
          var s' := s[..|s| - 1];
          assert WildMatch(p', s', star, m) == (m(p[0], s[0]) && WildMatch(p'[1..], s'[1..], star, m));
        } else {
          MatchEmpty(p', star, m);
          assert !AllStars(p', star);
        }
      }
    }
  }

  /** Successive stars behave as one. */
  lemma {:induction false} DoubleStar<T, U>(p: seq<T>, s: seq<U>, star: T, m: (T, U) -> bool)
    requires |p| >= 2 && p[0] == star && p[1] == star
    ensures WildMatch(p, s, star, m) == WildMatch(p[1..], s, star, m)
    decreases |s|
  {
    if |s| > 0 {
      DoubleStar(p, s[1..], star, m);
      assert p[1..][1..] == p[2..];
    }
  }

  /** A leading star may start matching anywhere: it absorbs any prefix. */
  lemma {:induction false} StarAbsorbs<T, U>(p: seq<T>, s: seq<U>, i: nat, j: nat, star: T, m: (T, U) -> bool)
    requires |p| > 0 && p[0] == star
    requires i <= j <= |s|
    requires WildMatch(p, s[j..], star, m)
    ensures WildMatch(p, s[i..], star, m)
    decreases j - i
  {
    if i < j {
      StarAbsorbs(p, s, i + 1, j, star, m);
      assert s[i..][1..] == s[i + 1..];
    }
  }

  /** A leading star followed by q matches s iff q matches some suffix of s. */
  lemma {:induction false} StarSplit<T, U>(p: seq<T>, s: seq<U>, k: nat, star: T, m: (T, U) -> bool)
    requires |p| > 0 && p[0] == star && k <= |s|
    requires WildMatch(p[1..], s[k..], star, m)
    ensures WildMatch(p, s, star, m)
  {
    StarAbsorbs(p, s, 0, k, star, m);
  }

  lemma {:induction false} StarSplitBack<T, U>(p: seq<T>, s: seq<U>, star: T, m: (T, U) -> bool)
    returns (k: nat)
    requires |p| > 0 && p[0] == star
    requires WildMatch(p, s, star, m)
    ensures k <= |s| && WildMatch(p[1..], s[k..], star, m)
    decreases |s|
  {
    if WildMatch(p[1..], s, star, m) {
      k := 0;
    } else {
      var k' := StarSplitBack(p, s[1..], star, m);
      k := k' + 1;
      assert s[1..][k'..] == s[k..];
    }
  }

  /** A block of non-star items in front of q consumes exactly |b| elements. */
  lemma {:induction false} BlockPrefix<T, U>(b: seq<T>, q: seq<T>, s: seq<U>, star: T, m: (T, U) -> bool)
    requires NoStars(b, star)
    ensures WildMatch(b + q, s, star, m) <==> BlockAt(b, s, 0, m) && WildMatch(q, s[|b|..], star, m)
    decreases |b|
  {
    if |b| > 0 {
      assert (b + q)[1..] == b[1..] + q;
      assert (b + q)[0] == b[0];
      if |s| > 0 {
        BlockPrefix(b[1..], q, s[1..], star, m);
        if |s| >= |b| {
          assert s[1..][|b| - 1..] == s[|b|..];
        }
        if BlockAt(b, s, 0, m) {
          forall j | 0 <= j < |b| - 1 ensures m(b[1..][j], s[1..][0 + j]) {
            assert m(b[j + 1], s[0 + (j + 1)]);
          }
        }
        if BlockAt(b[1..], s[1..], 0, m) && m(b[0], s[0]) {
          forall j | 0 <= j < |b| ensures m(b[j], s[0 + j]) {
            if j > 0 { assert m(b[1..][j - 1], s[1..][0 + (j - 1)]); }
          }
        }
      }
    } else {
      assert b + q == q;
    }
  }

  /** Shifting a block match to a suffix of s. */
  lemma BlockAtShift<T, U>(b: seq<T>, s: seq<U>, k: nat, m: (T, U) -> bool)
    requires k <= |s|
    ensures BlockAt(b, s, k, m) <==> BlockAt(b, s[k..], 0, m)
  {
    if BlockAt(b, s[k..], 0, m) {
      forall j | 0 <= j < |b| ensures m(b[j], s[k + j]) {
        assert s[k..][0 + j] == s[k + j];
      }
    }
    if BlockAt(b, s, k, m) {
      forall j | 0 <= j < |b| ensures m(b[j], s[k..][0 + j]) {
        assert s[k..][0 + j] == s[k + j];
      }
    }
  }

  /**
   * The middle step of the matcher. p starts with a star, the next star is
   * at t, and the items between them form the block p[1..t]. If k0 is the
   * leftmost place where the block matches, p matches s exactly when
   * p[t..] matches what follows that place.
   */
  lemma LeftmostBlock<T, U>(p: seq<T>, s: seq<U>, t: nat, k0: nat, star: T, m: (T, U) -> bool)
    requires 1 < t < |p| && p[0] == star && p[t] == star
    requires NoStars(p[1..t], star)
    requires BlockAt(p[1..t], s, k0, m)
    requires forall k :: 0 <= k < k0 ==> !BlockAt(p[1..t], s, k, m)
    ensures WildMatch(p, s, star, m) == WildMatch(p[t..], s[k0 + t - 1..], star, m)
  {
    var b := p[1..t];
    assert p[1..] == b + p[t..];
    var rest := s[k0 + t - 1..];
    assert s[k0..][|b|..] == rest;
    if WildMatch(p[t..], rest, star, m) {
      BlockAtShift(b, s, k0, m);
      BlockPrefix(b, p[t..], s[k0..], star, m);
      StarSplit(p, s, k0, star, m);
    }
    if WildMatch(p, s, star, m) {
      var k := StarSplitBack(p, s, star, m);
      BlockPrefix(b, p[t..], s[k..], star, m);
      BlockAtShift(b, s, k, m);
      assert k >= k0;
      assert s[k..][|b|..] == s[k + t - 1..];
      StarAbsorbs(p[t..], s, k0 + t - 1, k + t - 1, star, m);
    }
  }

  /** If the block matches nowhere, p cannot match. */
  lemma NoBlock<T, U>(p: seq<T>, s: seq<U>, t: nat, star: T, m: (T, U) -> bool)
    requires 1 < t < |p| && p[0] == star && p[t] == star
    requires NoStars(p[1..t], star)
    requires forall k :: 0 <= k <= |s| - (t - 1) ==> !BlockAt(p[1..t], s, k, m)
    ensures !WildMatch(p, s, star, m)
  {
    var b := p[1..t];
    assert p[1..] == b + p[t..];
    if WildMatch(p, s, star, m) {
      var k := StarSplitBack(p, s, star, m);
      BlockPrefix(b, p[t..], s[k..], star, m);
      BlockAtShift(b, s, k, m);
    }
  }

  // ------------------------------------------------------------------
  // The same facts restated on index windows p[ps..pe] and s[ss..se]
  // (both inclusive), the way the matcher's loops keep their state.

  /** The items strictly between the stars at ps and tmp match s[ss..se] at offset q. */
  predicate BlockBetween<T, U>(p: seq<T>, ps: int, tmp: int, s: seq<U>, ss: int, se: int, q: int, m: (T, U) -> bool)
    requires 0 <= ps < tmp <= |p| && 0 <= ss <= se + 1 <= |s|
  {
    BlockAt(p[ps + 1..tmp], s[ss..se + 1], q, m)
  }

  lemma WindowPeelRight<T, U>(p: seq<T>, s: seq<U>, ps: int, pe: int, ss: int, se: int, star: T, m: (T, U) -> bool)
    requires 0 <= ps <= pe < |p| && p[pe] != star
    requires 0 <= ss <= se < |s|
    ensures WildMatch(p[ps..pe + 1], s[ss..se + 1], star, m) ==
      (m(p[pe], s[se]) && WildMatch(p[ps..pe], s[ss..se], star, m))
  {
    PeelRight(p[ps..pe + 1], s[ss..se + 1], star, m);
    assert p[ps..pe + 1][..pe - ps] == p[ps..pe];
    assert s[ss..se + 1][..se - ss] == s[ss..se];
  }

  lemma WindowDoubleStar<T, U>(p: seq<T>, s: seq<U>, ps: int, pe: int, ss: int, se: int, star: T, m: (T, U) -> bool)
    requires 0 <= ps < pe < |p| && p[ps] == star && p[ps + 1] == star
    requires 0 <= ss <= se + 1 <= |s|
    ensures WildMatch(p[ps..pe + 1], s[ss..se + 1], star, m) ==
      WildMatch(p[ps + 1..pe + 1], s[ss..se + 1], star, m)
  {
    DoubleStar(p[ps..pe + 1], s[ss..se + 1], star, m);
    assert p[ps..pe + 1][1..] == p[ps + 1..pe + 1];
  }

  /**
   * One round of the matcher's middle loop: with stars at ps and tmp, a
   * failed search rejects, and a leftmost hit at foundIdx moves the
   * windows past the block.
   */
  lemma WindowBlockStep<T, U>(p: seq<T>, s: seq<U>, ps: int, tmp: int, pe: int, ss: int, se: int, foundIdx: int,
                             star: T, m: (T, U) -> bool)
    requires 0 <= ps < tmp <= pe < |p| && tmp > ps + 1
    requires p[ps] == star && p[tmp] == star && forall k :: ps + 1 <= k < tmp ==> p[k] != star
    requires 0 <= ss <= se + 1 <= |s|
    requires foundIdx == -1 ==>
      forall q :: 0 <= q <= (se - ss + 1) - (tmp - ps - 1) ==> !BlockBetween(p, ps, tmp, s, ss, se, q, m)
    requires foundIdx != -1 ==>
      ss <= foundIdx && BlockBetween(p, ps, tmp, s, ss, se, foundIdx - ss, m)
      && forall q :: 0 <= q < foundIdx - ss ==> !BlockBetween(p, ps, tmp, s, ss, se, q, m)
    ensures foundIdx == -1 ==> !WildMatch(p[ps..pe + 1], s[ss..se + 1], star, m)
    ensures foundIdx != -1 ==> foundIdx + (tmp - ps - 1) <= se + 1
    ensures foundIdx != -1 ==>
      (WildMatch(p[ps..pe + 1], s[ss..se + 1], star, m) ==
       WildMatch(p[tmp..pe + 1], s[foundIdx + (tmp - ps - 1)..se + 1], star, m))
  {
    var pw := p[ps..pe + 1];
    var sw := s[ss..se + 1];
    var t := tmp - ps;
    var block := pw[1..t];
    forall q | 0 <= q < t - 1 ensures block[q] == p[ps + 1..tmp][q] && block[q] != star {
      assert block[q] == p[ps + 1 + q];
    }
    assert block == p[ps + 1..tmp];
    if foundIdx == -1 {
      forall q | 0 <= q <= |sw| - (t - 1) ensures !BlockAt(block, sw, q, m) {
        assert !BlockBetween(p, ps, tmp, s, ss, se, q, m);
      }
      NoBlock(pw, sw, t, star, m);
    } else {
      var k := foundIdx - ss;
      assert BlockBetween(p, ps, tmp, s, ss, se, k, m);
      forall q | 0 <= q < k ensures !BlockAt(block, sw, q, m) {
        assert !BlockBetween(p, ps, tmp, s, ss, se, q, m);
      }
      LeftmostBlock(pw, sw, t, k, star, m);
      assert pw[t..] == p[tmp..pe + 1];
      assert sw[k + t - 1..] == s[foundIdx + (tmp - ps - 1)..se + 1];
    }
  }
}
