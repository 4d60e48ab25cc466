/**
 * GroupNameGenerator: stable, content-based names for parameter groups and
 * for the parameters inside them. A value is given as its toString, or
 * None for null; the MD5 digest is a parameter.
 */
module GroupNameGenerator {
  import opened Text

  const MAX_CONTENT_LENGTH: nat := 20
  const HASH_LENGTH: nat := 8
  const MAX_GROUP_NAME_LENGTH: nat := 100

  /** SAFE_CHARS: [a-zA-Z0-9_-]. */
  predicate SafeChar(c: char)
  {
    'a' <= c <= 'z' || 'A' <= c <= 'Z' || '0' <= c <= '9' || c == '_' || c == '-'
  }

  predicate AllSafe(s: string)
  {
    forall i :: 0 <= i < |s| ==> SafeChar(s[i])
  }

  /** The safe chars of s, in order. */
  function SafeChars(s: string): (r: string)
    ensures |r| <= |s| && AllSafe(r)
  {
    if |s| == 0 then ""
    else SafeChars(s[..|s| - 1]) + (if SafeChar(s[|s| - 1]) then [s[|s| - 1]] else "")
  }

  lemma {:induction false} SafeCharsAppend(a: string, b: string)
    ensures SafeChars(a + b) == SafeChars(a) + SafeChars(b)
    decreases |b|
  {
    if |b| == 0 {
      assert a + b == a;
    } else {
      assert (a + b)[..|a + b| - 1] == a + b[..|b| - 1];
      SafeCharsAppend(a, b[..|b| - 1]);
    }
  }

  lemma {:induction false} SafeCharsOfSafe(s: string)
    requires AllSafe(s)
    ensures SafeChars(s) == s
    decreases |s|
  {
    if |s| > 0 {
      SafeCharsOfSafe(s[..|s| - 1]);
      assert s == s[..|s| - 1] + [s[|s| - 1]];
    }
  }

  function MinNat(a: nat, b: nat): nat { if a <= b then a else b }

  /**
   * What generateSafeContent returns: the first safe chars, at most 20,
   * or "len" and the length when s has none.
   */
  function SafeContent(s: string): string
  {
    var f := SafeChars(s);
    if |f| == 0 then "len" + IntToString(|s|) else f[..MinNat(MAX_CONTENT_LENGTH, |f|)]
  }

  /** The loop of generateSafeContent, with its early break at 20 chars. */
  method GenerateSafeContent(content: string) returns (r: string)
    ensures r == SafeContent(content)
  {
    var sb := "";
    var i := 0;
    while i < |content|
      invariant 0 <= i <= |content|
      invariant sb == SafeChars(content[..i]) && |sb| < MAX_CONTENT_LENGTH
    {
      var c := content[i];
      assert content[..i + 1][..i] == content[..i];
      if SafeChar(c) {
        sb := sb + [c];
        if |sb| >= MAX_CONTENT_LENGTH {
          SafeCharsAppend(content[..i + 1], content[i + 1..]);
          assert content[..i + 1] + content[i + 1..] == content;
          assert SafeChars(content)[..MAX_CONTENT_LENGTH] == sb;
          return sb;
        }
      }
      i := i + 1;
    }
    assert content[..i] == content;
    if |sb| == 0 {
      sb := "len" + IntToString(|content|);
    }
    return sb;
  }

  function Pow10(k: nat): nat { if k == 0 then 1 else 10 * Pow10(k - 1) }

  lemma {:induction false} NatToStringShort(n: nat, k: nat)
    requires 1 <= k && n < Pow10(k)
    ensures |NatToString(n)| <= k
    decreases k
  {
    if n >= 10 {
      assert Pow10(1) == 10;
      assert n / 10 < Pow10(k - 1);
      NatToStringShort(n / 10, k - 1);
    }
  }

  /** The safe content is made of safe chars, is never empty and, for a Java string, has at most 20 of them. */
  lemma SafeContentShape(s: string)
    requires |s| < 0x8000_0000
    ensures var r := SafeContent(s); AllSafe(r) && 0 < |r| <= MAX_CONTENT_LENGTH
    ensures |SafeChars(s)| > 0 ==> SafeContent(s) == SafeChars(s)[..MinNat(MAX_CONTENT_LENGTH, |SafeChars(s)|)]
    ensures |SafeChars(s)| == 0 ==> SafeContent(s) == "len" + IntToString(|s|)
  {
    if |SafeChars(s)| == 0 {
      assert 0x8000_0000 < Pow10(10) by {
        assert Pow10(10) == 10000000000;
      }
      NatToStringShort(|s|, 10);
      var r := "len" + IntToString(|s|);
      forall i | 0 <= i < |r| ensures SafeChar(r[i]) {
        if i >= 3 {
          assert r[i] == NatToString(|s|)[i - 3];
        }
      }
    }
  }

  /** A string of at most 20 safe chars is its own safe content. */
  lemma SafeContentOfSafe(s: string)
    requires AllSafe(s) && 0 < |s| <= MAX_CONTENT_LENGTH
    ensures SafeContent(s) == s
  {
    SafeCharsOfSafe(s);
  }

  /** generateContentHash: the first eight hex digits of the MD5 digest. */
  function ContentHash(s: string, md5: string -> string): (r: string)
    ensures |r| == MinNat(HASH_LENGTH, |md5(s)|) && r == md5(s)[..|r|]
  {
    md5(s)[..MinNat(HASH_LENGTH, |md5(s)|)]
  }

  /** generateActualGroupName: base_null, base_empty or base_safe_hash. */
  function ActualGroupName(base: string, content: Option<string>, md5: string -> string): string
  {
    match content
    case None => base + "_null"
    case Some(c) =>
      if c == "" then base + "_empty"
      else base + "_" + SafeContent(c) + "_" + ContentHash(c, md5)
  }

  /** generateSimpleGroupName: short all-safe content is used as it is, anything else gets the full name. */
  function SimpleGroupName(base: string, content: Option<string>, md5: string -> string): string
  {
    match content
    case None => base + "_null"
    case Some(c) =>
      if |c| <= 10 && AllSafe(c) then base + "_" + c
      else ActualGroupName(base, content, md5)
  }

  /** generateElementGroupName: the element's index appears only for a null or empty element. */
  function ElementGroupName(base: string, element: Option<string>, index: int, md5: string -> string): string
  {
    match element
    case None => base + "_null_" + IntToString(index)
    case Some(e) =>
      if e == "" then base + "_empty_" + IntToString(index)
      else base + "_" + SafeContent(e) + "_" + ContentHash(e, md5)
  }

  /** A non-empty element is named by its content alone, exactly as a group of that content would be. */
  lemma ElementNameIgnoresIndex(base: string, e: string, i: int, j: int, md5: string -> string)
    requires e != ""
    ensures ElementGroupName(base, Some(e), i, md5) == ElementGroupName(base, Some(e), j, md5)
    ensures ElementGroupName(base, Some(e), i, md5) == ActualGroupName(base, Some(e), md5)
  {
  }

  /** Null and empty elements are told apart by their index. */
  lemma ElementNameIndexed(base: string, element: Option<string>, i: int, j: int, md5: string -> string)
    requires element.None? || element.value == ""
    requires i != j
    ensures ElementGroupName(base, element, i, md5) != ElementGroupName(base, element, j, md5)
  {
    var a := ElementGroupName(base, element, i, md5);
    var b := ElementGroupName(base, element, j, md5);
    var tag := if element.None? then "_null_" else "_empty_";
    assert a == (base + tag) + IntToString(i) && b == (base + tag) + IntToString(j);
    if a == b {
      assert IntToString(i) == a[|base + tag|..];
      assert IntToString(j) == b[|base + tag|..];
      IntToStringInjective(i, j);
    }
  }

  /** generateStableParamName: base[null], base[empty] or base[safe content]. */
  function StableParamName(base: string, element: Option<string>): string
  {
    match element
    case None => base + "[null]"
    case Some(e) =>
      if e == "" then base + "[empty]" else base + "[" + SafeContent(e) + "]"
  }

  /** Elements whose safe contents agree get the same name however else they differ. */
  lemma StableNamesIgnoreUnsafeChars(base: string)
    ensures StableParamName(base, Some("a b")) == StableParamName(base, Some("ab"))
  {
    assert SafeChars("a b") == "ab" by {
      assert "a b"[..2] == "a ";
      assert "a "[..1] == "a";
      assert ""[..0] == "";
      assert "a"[..0] == "";
    }
    assert SafeChars("ab") == "ab" by {
      assert "ab"[..1] == "a";
      assert "a"[..0] == "";
    }
  }

  /** Short all-safe content stands for itself in the simple name; empty content gives a bare underscore. */
  lemma SimpleNameOfSafe(base: string, c: string, md5: string -> string)
    requires |c| <= 10 && AllSafe(c)
    ensures SimpleGroupName(base, Some(c), md5) == base + "_" + c
    ensures c == "" ==> SimpleGroupName(base, Some(c), md5) == base + "_"
  {
  }

  /** Anything longer or with other chars falls back to the full name. */
  lemma SimpleNameFallsBack(base: string, c: string, md5: string -> string)
    requires |c| > 10 || !AllSafe(c)
    ensures SimpleGroupName(base, Some(c), md5) == ActualGroupName(base, Some(c), md5)
  {
  }

  /** isValidGroupName's conditions. */
  predicate ValidGroupName(name: Option<string>)
  {
    name.Some? && name.value != "" && |name.value| <= MAX_GROUP_NAME_LENGTH && AllSafe(name.value)
  }

  /** isValidGroupName: the loop over the chars. */
  method IsValidGroupName(name: Option<string>) returns (r: bool)
    ensures r <==> ValidGroupName(name)
  {
    if name.None? || name.value == "" {
      return false;
    }
    var s := name.value;
    if |s| > MAX_GROUP_NAME_LENGTH {
      return false;
    }
    var i := 0;
    while i < |s|
      invariant 0 <= i <= |s|
      invariant forall k :: 0 <= k < i ==> SafeChar(s[k])
    {
      if !SafeChar(s[i]) && s[i] != '_' {
        return false;
      }
      i := i + 1;
    }
    return true;
  }

  /**
   * A valid base of at most 70 chars and a hex digest give a valid actual
   * group name under every content of a Java string.
   */
  lemma ActualGroupNameValid(base: string, content: Option<string>, md5: string -> string)
    requires ValidGroupName(Some(base)) && |base| <= 70
    requires content.Some? ==> |content.value| < 0x8000_0000 && AllSafe(md5(content.value))
    ensures ValidGroupName(Some(ActualGroupName(base, content, md5)))
  {
    match content
    case None =>
      SafeLiteral("_null");
      AllSafeAppend(base, "_null");
    case Some(c) =>
      if c == "" {
        SafeLiteral("_empty");
        AllSafeAppend(base, "_empty");
      } else {
        SafeContentShape(c);
        var sc := SafeContent(c);
        var h := ContentHash(c, md5);
        assert AllSafe(h) by {
          forall i | 0 <= i < |h| ensures SafeChar(h[i]) {
            assert h[i] == md5(c)[i];
          }
        }
        SafeLiteral("_");
        AllSafeAppend(base, "_");
        AllSafeAppend(base + "_", sc);
        AllSafeAppend(base + "_" + sc, "_");
        AllSafeAppend(base + "_" + sc + "_", h);
      }
  }

  lemma SafeLiteral(s: string)
    requires forall i :: 0 <= i < |s| ==> s[i] in "_nulemptya"
    ensures AllSafe(s)
  {
  }

  lemma AllSafeAppend(a: string, b: string)
    requires AllSafe(a) && AllSafe(b)
    ensures AllSafe(a + b)
  {
    forall i | 0 <= i < |a + b| ensures SafeChar((a + b)[i]) {
      if i < |a| {
        assert (a + b)[i] == a[i];
      } else {
        assert (a + b)[i] == b[i - |a|];
      }
    }
  }

  /** generateBatchGroupNames: one name per element, element by element. */
  method GenerateBatchGroupNames(base: string, elements: array<Option<string>>, md5: string -> string)
    returns (names: array<string>)
    ensures fresh(names) && names.Length == elements.Length
    ensures forall i :: 0 <= i < names.Length ==> names[i] == ElementGroupName(base, elements[i], i, md5)
  {
    names := new string[elements.Length];
    var i := 0;
    while i < elements.Length
      invariant 0 <= i <= elements.Length
      invariant forall k :: 0 <= k < i ==> names[k] == ElementGroupName(base, elements[k], k, md5)
    {
      names[i] := ElementGroupName(base, elements[i], i, md5);
      i := i + 1;
    }
  }

  /** generateStableParamNames: one stable parameter name per element. */
  method GenerateStableParamNames(base: string, elements: array<Option<string>>) returns (names: array<string>)
    ensures fresh(names) && names.Length == elements.Length
    ensures forall i :: 0 <= i < names.Length ==> names[i] == StableParamName(base, elements[i])
  {
    names := new string[elements.Length];
    var i := 0;
    while i < elements.Length
      invariant 0 <= i <= elements.Length
      invariant forall k :: 0 <= k < i ==> names[k] == StableParamName(base, elements[k])
    {
      var name := StableParamName(base, elements[i]);
      names[i] := name;
      i := i + 1;
    }
  }
}
