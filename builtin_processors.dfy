/**
 * The built-in parameter-value processors: "default" passes the value
 * through, "mask" hides sensitive values, "normalize" trims, lower-cases
 * some names and collapses whitespace, and "split" cuts a value into
 * trimmed non-empty pieces; "hash" replaces a value by the MD5 digest of
 * its text, the digest itself being a parameter.
 */
module BuiltinProcessors {
  import opened Text
  import opened Values

  const DefaultName: string := "default"
  const MaskName: string := "mask"
  const NormalizeName: string := "normalize"
  const SplitName: string := "split"
  const HashName: string := "hash"

  /** Whether s holds one of the words. */
  predicate ContainsAny(s: string, words: seq<string>)
  {
    exists i :: 0 <= i < |words| && Contains(s, words[i])
  }

  /** The default processor: the original value. */
  function DefaultProcess(v: Value): (r: Value)
    ensures r == v
  {
    v
  }

  // ------------------------------------------------------------ hash

  /** The hash processor: null stays null, anything else becomes the MD5 hex digest of its text; the digest is a parameter. */
  function HashProcess(v: Value, md5: string -> string): (r: Value)
    ensures v.Null? <==> r.Null?
    ensures !v.Null? ==> r.Str? && r.s == md5(ToString(v))
  {
    if v.Null? then Null else Str(md5(ToString(v)))
  }

  // ------------------------------------------------------------ mask

  const SensitiveWords: seq<string> :=
    ["password", "pwd", "secret", "token", "key", "phone", "mobile", "email", "idcard", "bankcard"]

  /** isSensitiveParam: the lower-cased name holds one of the ten words; a null name is not sensitive. */
  predicate IsSensitive(paramName: Option<string>)
  {
    paramName.Some? && ContainsAny(ToLower(paramName.value), SensitiveWords)
  }

  /** How many chars the mask keeps at each end of a value of length n. */
  function MaskKept(n: nat): nat
  {
    if n <= 2 then 0 else if n <= 6 then 1 else 2
  }

  /** maskSensitiveValue: "***" between the first and last MaskKept chars. */
  function MaskSensitive(value: string): (r: string)
    ensures var k := MaskKept(|value|); 2 * k <= |value| && r == value[..k] + "***" + value[|value| - k..]
  {
    if |value| <= 2 then "***"
    else if |value| <= 6 then [value[0]] + "***" + [value[|value| - 1]]
    else value[..2] + "***" + value[|value| - 2..]
  }

  /** A mask is 3, 5 or 7 chars long and shows fewer chars of a non-empty value than the value has. */
  lemma MaskShape(value: string)
    ensures |MaskSensitive(value)| in {3, 5, 7}
    ensures value != "" ==> |MaskSensitive(value)| - 3 < |value|
    ensures MaskSensitive(value)[MaskKept(|value|)..MaskKept(|value|) + 3] == "***"
  {
    var k := MaskKept(|value|);
    var r := MaskSensitive(value);
    assert r[k..k + 3] == "***" by {
      assert r == value[..k] + "***" + value[|value| - k..];
      assert |value[..k]| == k;
    }
  }

  /** The mask processor: null stays null, a sensitive value is masked, any other becomes its text. */
  function MaskProcess(v: Value, paramName: Option<string>): (r: Value)
    ensures r.Null? <==> v.Null?
    ensures !v.Null? ==> r.Str?
    ensures !v.Null? && IsSensitive(paramName) ==> r.s == MaskSensitive(ToString(v))
    ensures !v.Null? && !IsSensitive(paramName) ==> r.s == ToString(v)
  {
    if v.Null? then Null
    else
      var text := ToString(v);
      if IsSensitive(paramName) then Str(MaskSensitive(text)) else Str(text)
  }

  /** A password parameter is masked whatever the case of its name. */
  lemma PasswordIsSensitive(name: string)
    requires Contains(ToLower(name), "password")
    ensures IsSensitive(Some(name))
  {
    assert SensitiveWords[0] == "password";
  }

  // ------------------------------------------------------------ normalize

  /** The whitespace class \s of Java regular expressions. */
  predicate IsWs(c: char)
  {
    c == ' ' || c == '\t' || c == '\n' || c == '\U{B}' || c == '\U{C}' || c == '\r'
  }

  /** The string after its leading run of whitespace. */
  function DropWs(s: string): (r: string)
    ensures |r| <= |s| && r == s[|s| - |r|..]
    ensures |r| > 0 ==> !IsWs(r[0])
    ensures forall k :: 0 <= k < |s| - |r| ==> IsWs(s[k])
    ensures |s| > 0 && IsWs(s[0]) ==> |r| < |s|
  {
    if |s| > 0 && IsWs(s[0]) then
      var r := DropWs(s[1..]);
      assert s[1..][|s| - 1 - |r|..] == s[|s| - |r|..];
      assert forall k :: 1 <= k < |s| - |r| ==> s[k] == s[1..][k - 1];
      r
    else s
  }

  /** replaceAll("\\s+", " "): each maximal run of whitespace becomes one space. */
  function CollapseWs(s: string): string
    decreases |s|
  {
    if |s| == 0 then ""
    else if IsWs(s[0]) then " " + CollapseWs(DropWs(s))
    else [s[0]] + CollapseWs(s[1..])
  }

  /** No whitespace but single spaces. */
  predicate Collapsed(c: string)
  {
    forall i :: 0 <= i < |c| && IsWs(c[i]) ==> c[i] == ' ' && (i + 1 < |c| ==> !IsWs(c[i + 1]))
  }

  /** A collapse leaves no whitespace but single spaces. */
  lemma {:induction false} CollapseIsCollapsed(s: string)
    ensures Collapsed(CollapseWs(s))
    decreases |s|
  {
    if |s| > 0 {
      var c := CollapseWs(s);
      var rest := if IsWs(s[0]) then DropWs(s) else s[1..];
      CollapseIsCollapsed(rest);
      CollapseFirst(rest);
      var t := CollapseWs(rest);
      assert c == [c[0]] + t;
      forall i | 0 <= i < |c| && IsWs(c[i]) ensures c[i] == ' ' && (i + 1 < |c| ==> !IsWs(c[i + 1])) {
        if i > 0 {
          assert c[i] == t[i - 1];
          if i + 1 < |c| { assert c[i + 1] == t[i]; }
        } else if i + 1 < |c| {
          assert c[1] == t[0];
        }
      }
    }
  }

  /** A collapse of a non-empty string is non-empty and starts like it unless it starts with whitespace. */
  lemma CollapseFirst(s: string)
    ensures |s| > 0 ==> |CollapseWs(s)| > 0
    ensures |s| > 0 && !IsWs(s[0]) ==> CollapseWs(s)[0] == s[0]
    ensures |s| > 0 && IsWs(s[0]) ==> CollapseWs(s)[0] == ' ' && (|DropWs(s)| > 0 ==> CollapseWs(DropWs(s))[0] == DropWs(s)[0])
  {
    if |s| > 0 && IsWs(s[0]) {
      var rest := DropWs(s);
      if |rest| > 0 {
        assert CollapseWs(rest) == [rest[0]] + CollapseWs(rest[1..]);
      }
    }
  }

  /** Every char of c that is not whitespace occurs in s. */
  predicate FromInput(c: string, s: string)
  {
    forall i :: 0 <= i < |c| && !IsWs(c[i]) ==> c[i] in s
  }

  /** Every char of a collapse that is not whitespace comes from the input. */
  lemma {:induction false} CollapseChars(s: string)
    ensures FromInput(CollapseWs(s), s)
    decreases |s|
  {
    if |s| > 0 {
      var rest := if IsWs(s[0]) then DropWs(s) else s[1..];
      CollapseChars(rest);
      var h := if IsWs(s[0]) then ' ' else s[0];
      assert CollapseWs(s) == [h] + CollapseWs(rest);
      FromInputCons(h, CollapseWs(rest), s, |s| - |rest|);
    }
  }

  lemma FromInputCons(h: char, t: string, s: string, k: nat)
    requires 0 < |s| && k <= |s| && FromInput(t, s[k..])
    requires !IsWs(h) ==> h == s[0]
    ensures FromInput([h] + t, s)
  {
    var c := [h] + t;
    forall i | 0 <= i < |c| && !IsWs(c[i]) ensures c[i] in s {
      if i > 0 {
        assert c[i] == t[i - 1];
        InSuffix(s, k, t[i - 1]);
      }
    }
  }

  lemma InSuffix(s: string, k: nat, x: char)
    requires k <= |s| && x in s[k..]
    ensures x in s
  {
    var j :| 0 <= j < |s[k..]| && s[k..][j] == x;
    assert s[k + j] == x;
  }

  /** A collapse ends like its input when the input does not end with whitespace. */
  lemma {:induction false} CollapseLast(s: string)
    ensures |s| > 0 && !IsWs(s[|s| - 1]) ==> |CollapseWs(s)| > 0 && CollapseWs(s)[|CollapseWs(s)| - 1] == s[|s| - 1]
    decreases |s|
  {
    if |s| > 0 && !IsWs(s[|s| - 1]) {
      var c := CollapseWs(s);
      var rest := if IsWs(s[0]) then DropWs(s) else s[1..];
      CollapseFirst(s);
      if |rest| > 0 {
        CollapseLast(rest);
        assert rest[|rest| - 1] == s[|s| - 1];
        var t := CollapseWs(rest);
        assert c == [c[0]] + t;
      } else {
        assert !IsWs(s[0]);
        assert c == [s[0]];
      }
    }
  }

  /** A collapsed string is its own collapse. */
  lemma {:induction false} CollapseFixed(c: string)
    requires Collapsed(c)
    ensures CollapseWs(c) == c
    decreases |c|
  {
    if |c| > 0 {
      assert Collapsed(c[1..]) by {
        forall i | 0 <= i < |c[1..]| && IsWs(c[1..][i])
          ensures c[1..][i] == ' ' && (i + 1 < |c[1..]| ==> !IsWs(c[1..][i + 1]))
        {
          assert c[1..][i] == c[i + 1];
          if i + 1 < |c[1..]| { assert c[1..][i + 1] == c[i + 2]; }
        }
      }
      CollapseFixed(c[1..]);
      if IsWs(c[0]) {
        assert |c| > 1 ==> !IsWs(c[1]);
        assert DropWs(c) == c[1..];
      }
      assert c == [c[0]] + c[1..];
    }
  }

  const LowerCaseWords: seq<string> := ["email", "username", "account", "code", "type"]

  /** shouldLowerCase: the lower-cased name holds one of the five words; never for a null name. */
  predicate ShouldLowerCase(paramName: Option<string>)
  {
    paramName.Some? && ContainsAny(ToLower(paramName.value), LowerCaseWords)
  }

  /** The normalized text: trimmed, lower-cased when asked, whitespace runs collapsed. */
  function NormalizeText(s: string, lower: bool): string
  {
    var t := Trim(s);
    CollapseWs(if lower then ToLower(t) else t)
  }

  /** Neither end of a string is trimmed away. */
  predicate TrimmedEnds(s: string)
  {
    |s| > 0 ==> !IsTrimmed(s[0]) && !IsTrimmed(s[|s| - 1])
  }

  lemma TrimOfTrimmed(s: string)
    requires TrimmedEnds(s)
    ensures Trim(s) == s
  {
  }

  lemma TrimEnds(s: string)
    ensures TrimmedEnds(Trim(s))
  {
  }

  /** Lowering keeps a char that trim would drop, and any other char out of trim's reach. */
  lemma LowerKeepsEnds(t: string)
    requires TrimmedEnds(t)
    ensures TrimmedEnds(ToLower(t))
  {
  }

  /** Collapsing keeps ends that trim would not drop, since whitespace is all trimmed. */
  lemma CollapseKeepsEnds(u: string)
    requires TrimmedEnds(u)
    ensures TrimmedEnds(CollapseWs(u))
  {
    CollapseFirst(u);
    CollapseLast(u);
  }

  /** The normalized text has trimmed ends and single spaces only. */
  lemma NormalizeShape(s: string, lower: bool)
    ensures TrimmedEnds(NormalizeText(s, lower)) && Collapsed(NormalizeText(s, lower))
  {
    var t := Trim(s);
    TrimEnds(s);
    LowerKeepsEnds(t);
    var u := if lower then ToLower(t) else t;
    CollapseIsCollapsed(u);
    CollapseKeepsEnds(u);
  }

  /** Text normalized with lower-casing is lower-case. */
  lemma NormalizeLower(s: string)
    ensures ToLower(NormalizeText(s, true)) == NormalizeText(s, true)
  {
    var u := ToLower(Trim(s));
    assert forall x :: x in u ==> LowerChar(x) == x;
    CollapseChars(u);
    var c := CollapseWs(u);
    forall i | 0 <= i < |c| ensures LowerChar(c[i]) == c[i] {
      if !IsWs(c[i]) { assert c[i] in u; }
    }
  }

  /** Normalizing twice with the same name gives the same text as once. */
  lemma NormalizeIdempotent(s: string, lower: bool)
    ensures NormalizeText(NormalizeText(s, lower), lower) == NormalizeText(s, lower)
  {
    var c := NormalizeText(s, lower);
    NormalizeShape(s, lower);
    if lower { NormalizeLower(s); }
    TrimOfTrimmed(c);
    CollapseFixed(c);
  }

  /** The normalize processor: null stays null, any other value becomes its normalized text. */
  function NormalizeProcess(v: Value, paramName: Option<string>): (r: Value)
    ensures r.Null? <==> v.Null?
    ensures !v.Null? ==> r == Str(NormalizeText(ToString(v), ShouldLowerCase(paramName)))
  {
    if v.Null? then Null else Str(NormalizeText(ToString(v), ShouldLowerCase(paramName)))
  }

  /** For a fixed parameter name, the normalize processor is idempotent. */
  lemma NormalizeProcessIdempotent(v: Value, paramName: Option<string>)
    ensures NormalizeProcess(NormalizeProcess(v, paramName), paramName) == NormalizeProcess(v, paramName)
  {
    if !v.Null? {
      NormalizeIdempotent(ToString(v), ShouldLowerCase(paramName));
    }
  }

  // ------------------------------------------------------------ split

  /** getDelimiter: tag and label lists split on ',', paths and urls on '/', everything else on ','. */
  function GetDelimiter(paramName: Option<string>): (r: string)
    ensures r == "," || r == "/"
    ensures r == "/" <==> (
      && paramName.Some?
      && (Contains(ToLower(paramName.value), "path") || Contains(ToLower(paramName.value), "url"))
      && !(Contains(ToLower(paramName.value), "tag") || Contains(ToLower(paramName.value), "label")))
  {
    if paramName.None? then ","
    else
      var lowerName := ToLower(paramName.value);
      if Contains(lowerName, "tag") || Contains(lowerName, "label") then ","
      else if Contains(lowerName, "path") || Contains(lowerName, "url") then "/"
      else if Contains(lowerName, "id") && Contains(lowerName, "list") then ","
      else ","
  }

  /** The stream of split's pipeline: each part trimmed, the empty ones dropped, in order. */
  function Pieces(parts: seq<string>): (r: seq<string>)
    ensures |r| <= |parts|
    ensures forall i :: 0 <= i < |r| ==> r[i] != "" && TrimmedEnds(r[i])
  {
    if |parts| == 0 then []
    else
      var t := Trim(parts[0]);
      TrimEnds(parts[0]);
      if t == "" then Pieces(parts[1..]) else [t] + Pieces(parts[1..])
  }

  /** Every piece is the trim of one of the parts. */
  lemma {:induction false} PiecesFromParts(parts: seq<string>)
    ensures forall p :: p in Pieces(parts) ==> exists j :: 0 <= j < |parts| && p == Trim(parts[j])
  {
    if |parts| > 0 {
      PiecesFromParts(parts[1..]);
      forall p | p in Pieces(parts) ensures exists j :: 0 <= j < |parts| && p == Trim(parts[j]) {
        if p != Trim(parts[0]) {
          assert p in Pieces(parts[1..]);
          var j :| 0 <= j < |parts[1..]| && p == Trim(parts[1..][j]);
          assert parts[1..][j] == parts[j + 1];
        }
      }
    }
  }

  /** Pieces of strings that are already trimmed and non-empty are those strings. */
  lemma {:induction false} PiecesOfClean(items: seq<string>)
    requires forall i :: 0 <= i < |items| ==> items[i] != "" && TrimmedEnds(items[i])
    ensures Pieces(items) == items
  {
    if |items| > 0 {
      TrimOfTrimmed(items[0]);
      PiecesOfClean(items[1..]);
      assert items == [items[0]] + items[1..];
    }
  }

  function StrValues(ps: seq<string>): (r: seq<Value>)
    ensures |r| == |ps| && forall i :: 0 <= i < |ps| ==> r[i] == Str(ps[i])
  {
    seq(|ps|, i requires 0 <= i < |ps| => Str(ps[i]))
  }

  /** The split processor: null stays null; one piece is that string, any other count a list of the pieces. */
  function SplitProcess(v: Value, paramName: Option<string>): (r: Value)
    ensures r.Null? <==> v.Null?
    ensures r.Str? ==> r.s != "" && TrimmedEnds(r.s)
    ensures r.List? ==> |r.items| != 1 && forall i :: 0 <= i < |r.items| ==> r.items[i].Str? && r.items[i].s != ""
    ensures r.Null? || r.Str? || r.List?
  {
    if v.Null? then Null
    else
      var ps := Pieces(Split(ToString(v), GetDelimiter(paramName)));
      if |ps| == 1 then Str(ps[0]) else List(StrValues(ps))
  }

  /**
   * Round trip: two or more trimmed, non-empty items free of ',' joined by
   * ',' are split back into exactly those items, for any name that does
   * not select the '/' delimiter.
   */
  lemma SplitJoinRoundTrip(items: seq<string>, paramName: Option<string>)
    requires |items| >= 2 && GetDelimiter(paramName) == ","
    requires forall i :: 0 <= i < |items| ==> items[i] != "" && TrimmedEnds(items[i]) && ',' !in items[i]
    ensures SplitProcess(Str(Join(items, ",")), paramName) == List(StrValues(items))
  {
    SplitJoinChar(items, ',');
    assert Split(Join(items, ","), ",") == items;
    PiecesOfClean(items);
  }
}
