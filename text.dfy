/**
 * Java/JavaScript string primitives the rest of the model relies on:
 * literal search, String.split (with and without a limit), joining,
 * trim, ASCII case mapping, decimal rendering and Long.parseLong.
 */
module Text {

  datatype Option<T> = None | Some(value: T)

  predicate StartsWith(s: string, p: string)
  {
    |p| <= |s| && s[..|p|] == p
  }

  predicate EndsWith(s: string, p: string)
  {
    |p| <= |s| && s[|s| - |p|..] == p
  }

  /** d occurs in s at position i */
  predicate OccursAt(s: string, d: string, i: int)
  {
    0 <= i && i + |d| <= |s| && s[i..i + |d|] == d
  }

  lemma OccursAtTail(s: string, d: string, k: int)
    requires |s| > 0 && k >= 0
    ensures OccursAt(s, d, k + 1) <==> OccursAt(s[1..], d, k)
  {
    if 0 <= k && k + 1 + |d| <= |s| {
      assert s[k + 1..k + 1 + |d|] == s[1..][k..k + |d|];
    }
  }

  /** Position of the leftmost occurrence of d in s (String.indexOf). */
  function IndexOf(s: string, d: string): (r: Option<nat>)
    ensures r.Some? ==> OccursAt(s, d, r.value)
    ensures r.Some? ==> forall j :: 0 <= j < r.value ==> !OccursAt(s, d, j)
    ensures r.None? ==> forall j :: !OccursAt(s, d, j)
    decreases |s|
  {
    if |s| < |d| then None
    else if s[..|d|] == d then Some(0)
    else
      var t := IndexOf(s[1..], d);
      assert !OccursAt(s, d, 0);
      forall j | j >= 1 ensures OccursAt(s, d, j) <==> OccursAt(s[1..], d, j - 1) {
        OccursAtTail(s, d, j - 1);
      }
      match t
      case None => None
      case Some(k) => Some(k + 1)
  }

  predicate Contains(s: string, d: string)
  {
    IndexOf(s, d).Some?
  }

  /** Every piece between occurrences of d, left to right, trailing empties kept. */
  function SplitAll(s: string, d: string): (r: seq<string>)
    requires |d| > 0
    ensures |r| >= 1
    ensures forall i :: 0 <= i < |r| ==> !Contains(r[i], d)
    decreases |s|
  {
    match IndexOf(s, d)
    case None => [s]
    case Some(i) =>
      assert !Contains(s[..i], d) by {
        forall j ensures !OccursAt(s[..i], d, j) {
          if OccursAt(s[..i], d, j) {
            assert s[..i][j..j + |d|] == s[j..j + |d|];
            assert OccursAt(s, d, j);
          }
        }
      }
      [s[..i]] + SplitAll(s[i + |d|..], d)
  }

  function Join(parts: seq<string>, sep: string): string
  {
    if |parts| == 0 then ""
    else if |parts| == 1 then parts[0]
    else parts[0] + sep + Join(parts[1..], sep)
  }

  /** Java removes trailing empty strings when split is called without a limit. */
  function DropTrailingEmpty(parts: seq<string>): (r: seq<string>)
    ensures |r| <= |parts| && r == parts[..|r|]
    ensures |r| > 0 ==> r[|r| - 1] != ""
    ensures forall i :: |r| <= i < |parts| ==> parts[i] == ""
  {
    if |parts| == 0 then []
    else if parts[|parts| - 1] == "" then DropTrailingEmpty(parts[..|parts| - 1])
    else parts
  }

  /** Java String.split(d) for a delimiter with no regex metacharacters. */
  function Split(s: string, d: string): (r: seq<string>)
    requires |d| > 0
    ensures !Contains(s, d) ==> r == [s]
    ensures Contains(s, d) ==> r == DropTrailingEmpty(SplitAll(s, d))
    ensures forall i :: 0 <= i < |r| ==> !Contains(r[i], d)
  {
    if IndexOf(s, d).None? then [s] else DropTrailingEmpty(SplitAll(s, d))
  }

  /** Java String.split(d, n) with n >= 1: at most n pieces, trailing empties kept. */
  function SplitLimit(s: string, d: string, n: nat): (r: seq<string>)
    requires |d| > 0 && n >= 1
    ensures 1 <= |r| <= n
    ensures Join(r, d) == s
    decreases n
  {
    if n == 1 then [s]
    else
      match IndexOf(s, d)
      case None => [s]
      case Some(i) =>
        var rest := SplitLimit(s[i + |d|..], d, n - 1);
        assert s == s[..i] + d + s[i + |d|..];
        [s[..i]] + rest
  }

  lemma JoinSplitAll(s: string, d: string)
    requires |d| > 0
    ensures Join(SplitAll(s, d), d) == s
    decreases |s|
  {
    match IndexOf(s, d)
    case None =>
    case Some(i) =>
      var rest := SplitAll(s[i + |d|..], d);
      JoinSplitAll(s[i + |d|..], d);
      assert ([s[..i]] + rest)[1..] == rest;
      calc {
        Join(SplitAll(s, d), d);
        Join([s[..i]] + rest, d);
        s[..i] + d + Join(rest, d);
        s[..i] + d + s[i + |d|..];
        s;
      }
  }

  /**
   * The first occurrence of d in a + d is the appended one: then d
   * separates a from whatever follows it.
   */
  predicate Separable(a: string, d: string)
  {
    IndexOf(a + d, d) == Some(|a|)
  }

  /** An occurrence that lies inside x is also one of x + y, and back. */
  lemma OccursAtPrefix(x: string, y: string, d: string, j: int)
    requires 0 <= j && j + |d| <= |x|
    ensures OccursAt(x + y, d, j) <==> OccursAt(x, d, j)
  {
    assert (x + y)[j..j + |d|] == x[j..j + |d|];
  }

  /** The first occurrence is the one with no occurrence before it. */
  lemma IndexOfFirst(s: string, d: string, k: nat)
    requires OccursAt(s, d, k) && forall j :: 0 <= j < k ==> !OccursAt(s, d, j)
    ensures IndexOf(s, d) == Some(k)
  {
  }

  lemma IndexOfExtend(x: string, y: string, d: string)
    requires IndexOf(x, d).Some? && IndexOf(x, d).value + |d| <= |x|
    ensures IndexOf(x + y, d) == IndexOf(x, d)
  {
    var k := IndexOf(x, d).value;
    OccursAtPrefix(x, y, d, k);
    forall j | 0 <= j < k ensures !OccursAt(x + y, d, j) {
      OccursAtPrefix(x, y, d, j);
    }
    IndexOfFirst(x + y, d, k);
  }

  /** SplitAll at a known first occurrence. */
  lemma SplitAllAt(s: string, d: string, i: nat)
    requires |d| > 0 && IndexOf(s, d) == Some(i)
    ensures SplitAll(s, d) == [s[..i]] + SplitAll(s[i + |d|..], d)
  {
  }

  /** Join of a part in front of a nonempty rest. */
  lemma JoinFront(a: string, rest: seq<string>, d: string)
    requires |rest| >= 1
    ensures Join([a] + rest, d) == a + d + Join(rest, d)
  {
    assert ([a] + rest)[1..] == rest;
  }

  /** With a one-character delimiter, separability is just absence. */
  lemma SeparableSingle(a: string, c: char)
    requires c !in a
    ensures Separable(a, [c])
  {
    assert OccursAt(a + [c], [c], |a|);
    forall j | 0 <= j < |a| ensures !OccursAt(a + [c], [c], j) {
      assert (a + [c])[j] == a[j];
    }
  }

  lemma SeparableNoOccurrence(a: string, d: string)
    requires |d| > 0 && Separable(a, d)
    ensures !Contains(a, d)
  {
    if Contains(a, d) {
      var j := IndexOf(a, d).value;
      OccursAtPrefix(a, d, d, j);
    }
  }

  /** A string free of the delimiter's first char is separable by it. */
  lemma SeparableFirstChar(a: string, d: string)
    requires |d| > 0 && d[0] !in a
    ensures Separable(a, d)
  {
    assert OccursAt(a + d, d, |a|);
    forall j | 0 <= j < |a| ensures !OccursAt(a + d, d, j) {
      assert (a + d)[j] == a[j];
    }
  }

  /** A string with no doubled c and not ending in c is separable by cc. */
  lemma SeparableDoubled(a: string, c: char)
    requires forall j :: 0 <= j < |a| - 1 ==> !(a[j] == c && a[j + 1] == c)
    requires |a| > 0 ==> a[|a| - 1] != c
    ensures Separable(a, [c, c])
  {
    var d := [c, c];
    assert OccursAt(a + d, d, |a|);
    forall j | 0 <= j < |a| ensures !OccursAt(a + d, d, j) {
      assert (a + d)[j] == a[j];
      if j < |a| - 1 {
        assert (a + d)[j + 1] == a[j + 1];
      } else {
        assert (a + d)[j + 1] == c;
      }
    }
  }

  /** Position of the rightmost occurrence of d in s (String.lastIndexOf). */
  function LastIndexOf(s: string, d: string): (r: Option<nat>)
    ensures r.Some? ==> OccursAt(s, d, r.value)
    ensures r.Some? ==> forall j :: r.value < j ==> !OccursAt(s, d, j)
    ensures r.None? ==> forall j :: !OccursAt(s, d, j)
    decreases |s|
  {
    if |s| < |d| then None
    else if s[|s| - |d|..] == d then Some(|s| - |d|)
    else
      var t := LastIndexOf(s[..|s| - 1], d);
      assert !OccursAt(s, d, |s| - |d|);
      forall j | 0 <= j && j + |d| < |s| ensures OccursAt(s, d, j) <==> OccursAt(s[..|s| - 1], d, j) {
        assert s[j..j + |d|] == s[..|s| - 1][j..j + |d|];
      }
      t
  }

  /** Join of at least two parts peels off its first part and separator. */
  lemma JoinCons(parts: seq<string>, d: string)
    requires |parts| >= 2
    ensures Join(parts, d) == parts[0] + d + Join(parts[1..], d)
  {
  }

  /** Join grows at its end one separator and part at a time. */
  lemma {:induction false} JoinSnoc(parts: seq<string>, x: string, sep: string)
    ensures Join(parts + [x], sep) == if |parts| == 0 then x else Join(parts, sep) + sep + x
    decreases |parts|
  {
    if |parts| == 1 {
      assert (parts + [x])[1..] == [x];
    } else if |parts| > 1 {
      assert (parts + [x])[1..] == parts[1..] + [x];
      JoinSnoc(parts[1..], x, sep);
    }
  }

  /** Splitting a join recovers the parts when every separator is unambiguous. */
  lemma {:induction false} SplitAllJoin(parts: seq<string>, d: string)
    requires |d| > 0 && |parts| >= 1
    requires forall i :: 0 <= i < |parts| - 1 ==> Separable(parts[i], d)
    requires !Contains(parts[|parts| - 1], d)
    ensures SplitAll(Join(parts, d), d) == parts
    decreases |parts|
  {
    if |parts| > 1 {
      var a := parts[0];
      var rest := Join(parts[1..], d);
      var s := Join(parts, d);
      JoinCons(parts, d);
      assert s == (a + d) + rest;
      assert Separable(a, d);
      IndexOfExtend(a + d, rest, d);
      assert s[..|a|] == a;
      assert s[|a| + |d|..] == rest;
      SplitAllAt(s, d, |a|);
      SplitAllJoin(parts[1..], d);
      assert parts == [a] + parts[1..];
    }
  }

  /** The same for the limited split, read back with exactly as many pieces. */
  lemma {:induction false} SplitLimitJoin(parts: seq<string>, d: string)
    requires |d| > 0 && |parts| >= 1
    requires forall i :: 0 <= i < |parts| - 1 ==> Separable(parts[i], d)
    ensures SplitLimit(Join(parts, d), d, |parts|) == parts
    decreases |parts|
  {
    if |parts| > 1 {
      var a := parts[0];
      var rest := Join(parts[1..], d);
      var s := Join(parts, d);
      JoinCons(parts, d);
      assert s == (a + d) + rest;
      IndexOfExtend(a + d, rest, d);
      assert IndexOf(s, d) == Some(|a|);
      assert s[..|a|] == a;
      assert s[|a| + |d|..] == rest;
      assert SplitLimit(s, d, |parts|) == [a] + SplitLimit(rest, d, |parts| - 1);
      SplitLimitJoin(parts[1..], d);
      assert parts == [a] + parts[1..];
    }
  }

  /** Splitting on a one-char delimiter undoes a join of parts free of it. */
  lemma SplitAllJoinChar(parts: seq<string>, c: char)
    requires |parts| >= 1 && forall i :: 0 <= i < |parts| ==> c !in parts[i]
    ensures SplitAll(Join(parts, [c]), [c]) == parts
  {
    forall i | 0 <= i < |parts| ensures Separable(parts[i], [c]) {
      SeparableSingle(parts[i], c);
    }
    SeparableNoOccurrence(parts[|parts| - 1], [c]);
    SplitAllJoin(parts, [c]);
  }

  /**
   * Java split on a one-char delimiter undoes a join of at least two
   * delimiter-free parts whose last part is not empty.
   */
  lemma SplitJoinChar(parts: seq<string>, c: char)
    requires |parts| >= 2 && parts[|parts| - 1] != ""
    requires forall i :: 0 <= i < |parts| ==> c !in parts[i]
    ensures Split(Join(parts, [c]), [c]) == parts
  {
    forall i | 0 <= i < |parts| ensures Separable(parts[i], [c]) {
      SeparableSingle(parts[i], c);
    }
    SeparableNoOccurrence(parts[|parts| - 1], [c]);
    SplitAllJoin(parts, [c]);
    JoinCons(parts, [c]);
    assert OccursAt(Join(parts, [c]), [c], |parts[0]|);
  }

  /** A char found neither in the parts nor in the separator is not in their join. */
  lemma {:induction false} NotInJoin(parts: seq<string>, sep: string, c: char)
    requires c !in sep && forall i :: 0 <= i < |parts| ==> c !in parts[i]
    ensures c !in Join(parts, sep)
    decreases |parts|
  {
    if |parts| > 1 {
      NotInJoin(parts[1..], sep, c);
    }
  }

  /** Global literal replacement (JavaScript replace with a /g literal pattern). */
  function ReplaceAll(s: string, from: string, to: string): string
    requires |from| > 0
  {
    Join(SplitAll(s, from), to)
  }

  /** A leading occurrence of the pattern is replaced and the scan resumes after it. */
  lemma ReplaceHead(s: string, from: string, to: string)
    requires |from| > 0
    ensures ReplaceAll(from + s, from, to) == to + ReplaceAll(s, from, to)
  {
    var u := from + s;
    assert u[..|from|] == from && u[|from|..] == s;
    assert IndexOf(u, from) == Some(0);
    var rest := SplitAll(s, from);
    assert SplitAll(u, from) == [""] + rest;
    JoinCons([""] + rest, to);
    assert ([""] + rest)[1..] == rest;
  }

  /** Without an occurrence at the front, the search resumes one char later. */
  lemma IndexOfCons(x: char, s: string, d: string)
    requires !StartsWith([x] + s, d)
    ensures IndexOf([x] + s, d) == (match IndexOf(s, d) case None => None case Some(i) => Some(i + 1))
  {
    var u := [x] + s;
    assert u[1..] == s;
  }

  /** A char that does not start an occurrence is copied. */
  lemma ReplaceStep(x: char, s: string, from: string, to: string)
    requires |from| > 0 && !StartsWith([x] + s, from)
    ensures ReplaceAll([x] + s, from, to) == [x] + ReplaceAll(s, from, to)
  {
    IndexOfCons(x, s, from);
    match IndexOf(s, from)
    case None =>
      assert SplitAll([x] + s, from) == [[x] + s];
    case Some(i) =>
      var head, rest := s[..i], s[i + |from|..];
      assert s == head + from + rest;
      ReplaceStepAt(x, head, rest, from, to);
  }

  lemma ReplaceStepAt(x: char, head: string, rest: string, from: string, to: string)
    requires |from| > 0
    requires IndexOf(head + from + rest, from) == Some(|head|)
    requires IndexOf([x] + (head + from + rest), from) == Some(|head| + 1)
    ensures ReplaceAll([x] + (head + from + rest), from, to) == [x] + ReplaceAll(head + from + rest, from, to)
  {
    var r := ReplaceAll(rest, from, to);
    ReplaceAllAt(head + from + rest, from, to, head, rest);
    Regroup([x], head, from, rest);
    ReplaceAllAt([x] + (head + from + rest), from, to, [x] + head, rest);
    Regroup([x], head, to, r);
  }

  lemma AppendAssoc<T>(a: seq<T>, b: seq<T>, c: seq<T>)
    ensures (a + b) + c == a + (b + c)
  {
  }

  lemma Regroup(a: string, b: string, c: string, d: string)
    ensures (a + b) + c + d == a + (b + c + d)
  {
  }

  /** The replacement at a known first occurrence. */
  lemma ReplaceAllAt(s: string, from: string, to: string, head: string, rest: string)
    requires |from| > 0 && s == head + from + rest && IndexOf(s, from) == Some(|head|)
    ensures ReplaceAll(s, from, to) == head + to + ReplaceAll(rest, from, to)
  {
    assert s[..|head|] == head;
    assert s[|head| + |from|..] == rest;
    SplitAllAt(s, from, |head|);
    JoinFront(head, SplitAll(rest, from), to);
  }

  /** A prefix free of a one-char pattern is copied unchanged. */
  lemma {:induction false} ReplaceFree(u: string, s: string, c: char, to: string)
    requires c !in u
    ensures ReplaceAll(u + s, [c], to) == u + ReplaceAll(s, [c], to)
    decreases |u|
  {
    if |u| > 0 {
      assert u + s == [u[0]] + (u[1..] + s);
      ReplaceStep(u[0], u[1..] + s, [c], to);
      ReplaceFree(u[1..], s, c, to);
      assert [u[0]] + (u[1..] + ReplaceAll(s, [c], to)) == u + ReplaceAll(s, [c], to);
    } else {
      assert u + s == s;
    }
  }

  /** A one-char delimiter occurs in s only where s holds that char. */
  lemma OccursChar(s: string, c: char, j: int)
    ensures OccursAt(s, [c], j) <==> 0 <= j < |s| && s[j] == c
  {
    if 0 <= j < |s| {
      assert s[j..j + 1] == [s[j]];
    }
  }

  lemma NoCharNoOccurrence(a: string, c: char)
    requires c !in a
    ensures !Contains(a, [c])
  {
    if Contains(a, [c]) {
      OccursChar(a, c, IndexOf(a, [c]).value);
    }
  }

  predicate AllEmpty(parts: seq<string>)
  {
    forall i :: 0 <= i < |parts| ==> parts[i] == ""
  }

  predicate AllChar(s: string, c: char)
  {
    forall k :: 0 <= k < |s| ==> s[k] == c
  }

  /** Every piece of the split is empty exactly when s is nothing but delimiters. */
  lemma SplitAllAllEmpty(s: string, c: char)
    ensures AllEmpty(SplitAll(s, [c])) <==> AllChar(s, c)
  {
    if AllChar(s, c) {
      OnlySeparatorsSplitEmpty(s, c);
    }
    if AllEmpty(SplitAll(s, [c])) {
      EmptySplitOnlySeparators(s, c);
    }
  }

  lemma {:induction false} OnlySeparatorsSplitEmpty(s: string, c: char)
    requires AllChar(s, c)
    ensures AllEmpty(SplitAll(s, [c]))
    decreases |s|
  {
    match IndexOf(s, [c])
    case None =>
      assert SplitAll(s, [c]) == [s];
      if |s| > 0 {
        OccursChar(s, c, 0);
      }
    case Some(i) =>
      var rest := s[i + 1..];
      OccursChar(s, c, 0);
      assert i == 0;
      forall k | 0 <= k < |rest| ensures rest[k] == c {
        assert rest[k] == s[k + 1];
      }
      OnlySeparatorsSplitEmpty(rest, c);
      var parts := SplitAll(s, [c]);
      var tail := SplitAll(rest, [c]);
      assert parts == [s[..i]] + tail;
      forall j | 0 <= j < |parts| ensures parts[j] == "" {
        if j > 0 {
          assert parts[j] == tail[j - 1];
        }
      }
  }

  lemma {:induction false} EmptySplitOnlySeparators(s: string, c: char)
    requires AllEmpty(SplitAll(s, [c]))
    ensures AllChar(s, c)
    decreases |s|
  {
    match IndexOf(s, [c])
    case None =>
      assert SplitAll(s, [c]) == [s];
      assert SplitAll(s, [c])[0] == s;
    case Some(i) =>
      var rest := s[i + 1..];
      var parts := SplitAll(s, [c]);
      var tail := SplitAll(rest, [c]);
      assert parts == [s[..i]] + tail;
      assert parts[0] == s[..i];
      assert i == 0;
      OccursChar(s, c, i);
      assert s[0] == c;
      forall j | 0 <= j < |tail| ensures tail[j] == "" {
        assert tail[j] == parts[j + 1];
      }
      EmptySplitOnlySeparators(rest, c);
      forall k | 0 <= k < |s| ensures s[k] == c {
        if k > 0 {
          assert s[k] == rest[k - 1];
        }
      }
  }

  /**
   * Java's split on one char returns no pieces at all exactly when the
   * string is non-empty and made only of that char.
   */
  lemma SplitEmptyIffOnlySeparators(s: string, c: char)
    ensures Split(s, [c]) == [] <==> |s| > 0 && forall k :: 0 <= k < |s| ==> s[k] == c
  {
    SplitAllAllEmpty(s, c);
    var parts := SplitAll(s, [c]);
    if |s| > 0 && forall k :: 0 <= k < |s| ==> s[k] == c {
      OccursChar(s, c, 0);
      assert Contains(s, [c]);
      var r := DropTrailingEmpty(parts);
      if |r| > 0 {
        assert r[|r| - 1] == parts[|r| - 1];
      }
    }
    if Split(s, [c]) == [] {
      assert Contains(s, [c]);
      OccursChar(s, c, IndexOf(s, [c]).value);
    }
  }

  /** The first piece of a split is the text before the first delimiter. */
  lemma SplitFirst(a: string, rest: string, c: char)
    requires c !in a && a != ""
    ensures |Split(a + [c] + rest, [c])| >= 1 && Split(a + [c] + rest, [c])[0] == a
  {
    var s := a + [c] + rest;
    SeparableSingle(a, c);
    IndexOfExtend(a + [c], rest, [c]);
    assert IndexOf(s, [c]) == Some(|a|);
    assert s[..|a|] == a;
    var parts := SplitAll(s, [c]);
    assert parts[0] == a;
    var r := DropTrailingEmpty(parts);
    assert Split(s, [c]) == r;
  }

  /** Without the delimiter, split gives the whole string. */
  lemma SplitNone(a: string, c: char)
    requires c !in a
    ensures Split(a, [c]) == [a]
  {
    NoCharNoOccurrence(a, c);
  }

  // ---------------------------------------------------------------- trim

  /** Java's trim removes every leading and trailing char up to U+0020. */
  predicate IsTrimmed(c: char) { c <= ' ' }

  function TrimStart(s: string): (r: string)
    ensures |r| <= |s| && r == s[|s| - |r|..]
    ensures |r| > 0 ==> !IsTrimmed(r[0])
    ensures forall k :: 0 <= k < |s| - |r| ==> IsTrimmed(s[k])
  {
    if |s| > 0 && IsTrimmed(s[0]) then
      var r := TrimStart(s[1..]);
      assert s[1..][|s| - 1 - |r|..] == s[|s| - |r|..];
      assert forall k :: 1 <= k < |s| ==> s[k] == s[1..][k - 1];
      r
    else s
  }

  function TrimEnd(s: string): (r: string)
    ensures |r| <= |s| && r == s[..|r|]
    ensures |r| > 0 ==> !IsTrimmed(r[|r| - 1])
    ensures forall k :: |r| <= k < |s| ==> IsTrimmed(s[k])
  {
    if |s| > 0 && IsTrimmed(s[|s| - 1]) then
      var r := TrimEnd(s[..|s| - 1]);
      assert s[..|s| - 1][..|r|] == s[..|r|];
      assert forall k :: 0 <= k < |s| - 1 ==> s[k] == s[..|s| - 1][k];
      r
    else s
  }

  function Trim(s: string): string
  {
    TrimEnd(TrimStart(s))
  }

  /** Java's s.trim().isEmpty() */
  predicate IsBlank(s: string)
  {
    Trim(s) == ""
  }

  lemma BlankIffAllTrimmed(s: string)
    ensures IsBlank(s) <==> forall k :: 0 <= k < |s| ==> IsTrimmed(s[k])
  {
    var t := TrimStart(s);
    if IsBlank(s) {
      assert t == "";
    }
    assert |t| > 0 ==> t[0] == s[|s| - |t|];
  }

  // ---------------------------------------------------------- ASCII case

  function LowerChar(c: char): char
  {
    if 'A' <= c <= 'Z' then (c as int + 32) as char else c
  }

  function UpperChar(c: char): char
  {
    if 'a' <= c <= 'z' then (c as int - 32) as char else c
  }

  function ToLower(s: string): (r: string)
    ensures |r| == |s| && forall i :: 0 <= i < |s| ==> r[i] == LowerChar(s[i])
  {
    seq(|s|, i requires 0 <= i < |s| => LowerChar(s[i]))
  }

  function ToUpper(s: string): (r: string)
    ensures |r| == |s| && forall i :: 0 <= i < |s| ==> r[i] == UpperChar(s[i])
  {
    seq(|s|, i requires 0 <= i < |s| => UpperChar(s[i]))
  }

  predicate EqualsIgnoreCase(a: string, b: string)
  {
    ToUpper(a) == ToUpper(b)
  }

  lemma ToLowerIdempotent(s: string)
    ensures ToLower(ToLower(s)) == ToLower(s)
  {
  }

  // ------------------------------------------------------------ decimals

  function DigitChar(d: nat): char
    requires d < 10
  {
    ('0' as int + d) as char
  }

  predicate IsDigit(c: char) { '0' <= c <= '9' }

  function NatToString(n: nat): (r: string)
    ensures |r| >= 1
    ensures forall i :: 0 <= i < |r| ==> IsDigit(r[i])
    ensures n > 0 ==> r[0] != '0'
    decreases n
  {
    if n < 10 then [DigitChar(n)] else NatToString(n / 10) + [DigitChar(n % 10)]
  }

  /** Java's Integer/Long toString in base 10. */
  function IntToString(n: int): (r: string)
    ensures |r| >= 1
    ensures (n < 0) <==> r[0] == '-'
    ensures n >= 0 ==> IsDigit(r[0])
    ensures forall i :: 1 <= i < |r| ==> IsDigit(r[i])
  {
    if n < 0 then "-" + NatToString(-n) else NatToString(n)
  }

  function DigitsValue(s: string): nat
    requires forall i :: 0 <= i < |s| ==> IsDigit(s[i])
  {
    if |s| == 0 then 0
    else
      assert IsDigit(s[|s| - 1]);
      10 * DigitsValue(s[..|s| - 1]) + (s[|s| - 1] as int - '0' as int)
  }

  lemma {:induction false} DigitsValueOfNat(n: nat)
    ensures DigitsValue(NatToString(n)) == n
    decreases n
  {
    if n >= 10 {
      DigitsValueOfNat(n / 10);
      var s := NatToString(n);
      assert s[..|s| - 1] == NatToString(n / 10);
    }
  }

  /** Java's integer division, which truncates toward zero (Dafny's rounds toward minus infinity for a negative dividend). */
  function JavaDiv(a: int, b: int): (q: int)
    requires b != 0
    ensures a >= 0 && b > 0 ==> q == a / b
    ensures a < 0 && b > 0 ==> q == -((-a) / b)
  {
    if b > 0 then (if a >= 0 then a / b else -((-a) / b))
    else (if a >= 0 then -(a / (-b)) else (-a) / (-b))
  }

  const LONG_MIN: int := -0x8000_0000_0000_0000
  const LONG_MAX: int := 0x7FFF_FFFF_FFFF_FFFF

  /**
   * Long.parseLong: an optional sign, one or more decimal digits, and a
   * value inside the 64-bit range; anything else is None (the exception).
   */
  function ParseLong(s: string): (r: Option<int>)
    ensures r.Some? ==> LONG_MIN <= r.value <= LONG_MAX
  {
    var neg := |s| > 0 && s[0] == '-';
    var body := if |s| > 0 && (s[0] == '-' || s[0] == '+') then s[1..] else s;
    if |body| == 0 || !(forall i :: 0 <= i < |body| ==> IsDigit(body[i])) then None
    else
      var v: int := if neg then -(DigitsValue(body) as int) else DigitsValue(body);
      if LONG_MIN <= v <= LONG_MAX then Some(v) else None
  }

  /** Rendering a long in decimal and parsing it back is the identity. */
  lemma ParseLongOfIntToString(n: int)
    requires LONG_MIN <= n <= LONG_MAX
    ensures ParseLong(IntToString(n)) == Some(n)
  {
    var s := IntToString(n);
    if n < 0 {
      assert s[1..] == NatToString(-n);
      DigitsValueOfNat(-n);
    } else {
      DigitsValueOfNat(n);
    }
  }

  lemma NatToStringInjective(a: nat, b: nat)
    requires NatToString(a) == NatToString(b)
    ensures a == b
  {
    DigitsValueOfNat(a);
    DigitsValueOfNat(b);
  }

  /** Distinct integers have distinct decimal texts. */
  lemma IntToStringInjective(i: int, j: int)
    requires IntToString(i) == IntToString(j)
    ensures i == j
  {
    if i < 0 {
      assert IntToString(i)[1..] == NatToString(-i);
      assert IntToString(j)[1..] == NatToString(-j);
      NatToStringInjective(-i, -j);
    } else {
      NatToStringInjective(i, j);
    }
  }

  // ------------------------------------------------------------ ordering

  /** String.compareTo, reduced to its sign: lexicographic by char, a proper prefix first. */
  function StrCompare(a: string, b: string): (r: int)
    ensures -1 <= r <= 1
    ensures r == 0 <==> a == b
  {
    if |a| == 0 then (if |b| == 0 then 0 else -1)
    else if |b| == 0 then 1
    else if a[0] < b[0] then -1
    else if a[0] > b[0] then 1
    else
      var r := StrCompare(a[1..], b[1..]);
      assert r == 0 ==> a == [a[0]] + a[1..] == [b[0]] + b[1..] == b;
      r
  }

  lemma {:induction false} StrCompareAntisymmetric(a: string, b: string)
    ensures StrCompare(a, b) == -StrCompare(b, a)
  {
    if |a| > 0 && |b| > 0 && a[0] == b[0] {
      StrCompareAntisymmetric(a[1..], b[1..]);
    }
  }

  lemma {:induction false} StrCompareTransitive(a: string, b: string, c: string)
    requires StrCompare(a, b) < 0 && StrCompare(b, c) < 0
    ensures StrCompare(a, c) < 0
  {
    if |a| > 0 && |b| > 0 && |c| > 0 && a[0] == b[0] && b[0] == c[0] {
      StrCompareTransitive(a[1..], b[1..], c[1..]);
    }
  }
}
