/**
 * The dashboard script's pure helpers: the glob preview that turns an Ant
 * pattern into a JavaScript regular expression, the trend interval
 * caption, the batch-test tally, the CSV export and the user-agent cell.
 */
module Dashboard {
  import opened Text

  // ----------------------------------------------------------- antPathMatch

  /**
   * How "**" is rewritten: as the script does it (".*", whose '*' the next
   * rewrite turns into "[^/]*"), or as evidently intended (".*", left alone).
   */
  datatype Translation = AsWritten | Intended

  /** The three global replacements of antPathMatch, in order. */
  function GlobToRegex(pattern: string): string
  {
    ReplaceAll(ReplaceAll(ReplaceAll(pattern, "**", ".*"), "*", "[^/]*"), "?", ".")
  }

  function DoubleStarText(t: Translation): string
  {
    if t == AsWritten then ".[^/]*" else ".*"
  }

  predicate DoubleStarAt(p: string)
  {
    |p| >= 2 && p[0] == '*' && p[1] == '*'
  }

  /** The regular expression source, one pattern char (or "**") at a time. */
  function RegexSource(pattern: string, t: Translation): (r: string)
    ensures |r| > 0 ==> r[0] != '*'
    decreases |pattern|
  {
    if |pattern| == 0 then ""
    else if DoubleStarAt(pattern) then DoubleStarText(t) + RegexSource(pattern[2..], t)
    else if pattern[0] == '*' then "[^/]*" + RegexSource(pattern[1..], t)
    else if pattern[0] == '?' then "." + RegexSource(pattern[1..], t)
    else [pattern[0]] + RegexSource(pattern[1..], t)
  }

  /** The replacement chain produces the char-by-char source above. */
  lemma {:induction false} GlobToRegexSource(pattern: string)
    ensures GlobToRegex(pattern) == RegexSource(pattern, AsWritten)
    decreases |pattern|
  {
    var p := pattern;
    if |p| == 0 {
      assert IndexOf("", "**") == None && IndexOf("", "*") == None && IndexOf("", "?") == None;
    } else if DoubleStarAt(p) {
      var rest := p[2..];
      assert p == "**" + rest;
      GlobDoubleStar(rest);
      GlobToRegexSource(rest);
    } else {
      var rest := p[1..];
      assert p == [p[0]] + rest;
      GlobOneChar(p[0], rest);
      GlobToRegexSource(rest);
    }
  }

  /** A leading "**" becomes ".[^/]*" and the rest is rewritten on its own. */
  lemma GlobDoubleStar(rest: string)
    ensures GlobToRegex("**" + rest) == ".[^/]*" + GlobToRegex(rest)
  {
    ReplaceHead(rest, "**", ".*");
    var y := ReplaceAll(rest, "**", ".*");
    assert ".*" + y == ['.'] + ("*" + y);
    ReplaceStep('.', "*" + y, "*", "[^/]*");
    ReplaceHead(y, "*", "[^/]*");
    var z := ReplaceAll(y, "*", "[^/]*");
    assert "." + ("[^/]*" + z) == ".[^/]*" + z;
    ReplaceFree(".[^/]*", z, '?', ".");
  }

  /** A leading char that does not start "**" is rewritten on its own. */
  lemma GlobOneChar(c: char, rest: string)
    requires !DoubleStarAt([c] + rest)
    ensures GlobToRegex([c] + rest) == (if c == '*' then "[^/]*" else if c == '?' then "." else [c]) + GlobToRegex(rest)
  {
    ReplaceStep(c, rest, "**", ".*");
    var y := ReplaceAll(rest, "**", ".*");
    if c == '*' {
      ReplaceHead(y, "*", "[^/]*");
      var z := ReplaceAll(y, "*", "[^/]*");
      ReplaceFree("[^/]*", z, '?', ".");
    } else {
      ReplaceStep(c, y, "*", "[^/]*");
      var z := ReplaceAll(y, "*", "[^/]*");
      if c == '?' {
        ReplaceHead(z, "?", ".");
      } else {
        ReplaceStep(c, z, "?", ".");
      }
    }
  }

  /** Line terminators, which '.' in a JavaScript regular expression does not match. */
  predicate LineTerminator(c: char)
  {
    c == '\n' || c == '\r' || c == '\U{2028}' || c == '\U{2029}'
  }

  /**
   * The regular expressions the preview builds from ordinary patterns: a
   * literal char, '.', the class run "[^/]*" and ".*".
   */
  datatype Atom = Lit(c: char) | AnyChar | NoSlashRun | AnyRun

  /** Chars that are regex syntax this model does not interpret. */
  predicate RegexMeta(c: char)
  {
    c in "\\^$|+()[]{}*?"
  }

  /** Reads a regex source of the fragment; None when it uses other syntax. */
  function ParseRegex(r: string): Option<seq<Atom>>
    decreases |r|
  {
    if |r| == 0 then Some([])
    else if ClassRunAt(r) then Prepend(NoSlashRun, ParseRegex(r[5..]))
    else if |r| >= 2 && r[0] == '.' && r[1] == '*' then Prepend(AnyRun, ParseRegex(r[2..]))
    else if r[0] == '.' then Prepend(AnyChar, ParseRegex(r[1..]))
    else if RegexMeta(r[0]) then None
    else Prepend(Lit(r[0]), ParseRegex(r[1..]))
  }

  /** r starts with the class run "[^/]*". */
  predicate ClassRunAt(r: string)
  {
    |r| >= 5 && r[0] == '[' && r[1] == '^' && r[2] == '/' && r[3] == ']' && r[4] == '*'
  }

  function Prepend(a: Atom, rest: Option<seq<Atom>>): Option<seq<Atom>>
  {
    if rest.None? then None else Some([a] + rest.value)
  }

  /** Reads "^" + source + "$", the anchored form the preview tests with. */
  function ParseAnchored(r: string): Option<seq<Atom>>
  {
    if |r| >= 2 && r[0] == '^' && r[|r| - 1] == '$' then ParseRegex(r[1..|r| - 1]) else None
  }

  /** Whole-string match of an atom list (the regex is anchored at both ends). */
  predicate RegexMatch(atoms: seq<Atom>, s: string)
    decreases |atoms| + |s|
  {
    if |atoms| == 0 then |s| == 0
    else match atoms[0]
      case Lit(c) => |s| > 0 && s[0] == c && RegexMatch(atoms[1..], s[1..])
      case AnyChar => |s| > 0 && !LineTerminator(s[0]) && RegexMatch(atoms[1..], s[1..])
      case NoSlashRun => RegexMatch(atoms[1..], s) || (|s| > 0 && s[0] != '/' && RegexMatch(atoms, s[1..]))
      case AnyRun => RegexMatch(atoms[1..], s) || (|s| > 0 && !LineTerminator(s[0]) && RegexMatch(atoms, s[1..]))
  }

  /** A pattern is ordinary when it has no regex syntax besides '*', '?' and '.'. */
  predicate Ordinary(pattern: string)
  {
    forall i :: 0 <= i < |pattern| ==> pattern[i] !in "\\^$|+()[]{}"
  }

  function DoubleStarAtoms(t: Translation): seq<Atom>
  {
    if t == AsWritten then [AnyChar, NoSlashRun] else [AnyRun]
  }

  /**
   * What an ordinary pattern means as a regex: "**" per the translation,
   * '*' a run without '/', '?' and an unescaped '.' any one char.
   */
  function Compile(pattern: string, t: Translation): seq<Atom>
    decreases |pattern|
  {
    if |pattern| == 0 then []
    else if DoubleStarAt(pattern) then DoubleStarAtoms(t) + Compile(pattern[2..], t)
    else if pattern[0] == '*' then [NoSlashRun] + Compile(pattern[1..], t)
    else if pattern[0] == '?' || pattern[0] == '.' then [AnyChar] + Compile(pattern[1..], t)
    else [Lit(pattern[0])] + Compile(pattern[1..], t)
  }

  lemma ParseNoSlashRun(x: string)
    ensures ParseRegex("[^/]*" + x) == Prepend(NoSlashRun, ParseRegex(x))
  {
    var u := "[^/]*" + x;
    assert ClassRunAt(u) && u[5..] == x;
  }

  lemma ParseAnyRun(x: string)
    ensures ParseRegex(".*" + x) == Prepend(AnyRun, ParseRegex(x))
  {
    var u := ".*" + x;
    assert u[0] == '.' && u[1] == '*' && u[2..] == x;
    assert !ClassRunAt(u);
  }

  lemma ParseAnyChar(x: string)
    requires |x| > 0 ==> x[0] != '*'
    ensures ParseRegex("." + x) == Prepend(AnyChar, ParseRegex(x))
  {
    var u := "." + x;
    assert u[1..] == x && u[0] == '.';
    assert !ClassRunAt(u);
    if |x| > 0 { assert u[1] == x[0]; }
  }

  lemma ParseLit(c: char, x: string)
    requires c !in "\\^$|+()[]{}*?."
    ensures ParseRegex([c] + x) == Prepend(Lit(c), ParseRegex(x))
  {
    var u := [c] + x;
    assert u[1..] == x && u[0] == c;
    assert !ClassRunAt(u);
  }

  /** How many pattern chars the next step of the translation consumes. */
  function HeadLength(p: string): nat
  {
    if DoubleStarAt(p) then 2 else 1
  }

  lemma ParseSourceStep(p: string, t: Translation)
    requires |p| > 0 && p[0] !in "\\^$|+()[]{}"
    requires ParseRegex(RegexSource(p[HeadLength(p)..], t)) == Some(Compile(p[HeadLength(p)..], t))
    ensures ParseRegex(RegexSource(p, t)) == Some(Compile(p, t))
  {
    var c := p[0];
    var rest := p[HeadLength(p)..];
    var x := RegexSource(rest, t);
    var tail := Compile(rest, t);
    if DoubleStarAt(p) {
      assert RegexSource(p, t) == DoubleStarText(t) + x;
      assert Compile(p, t) == DoubleStarAtoms(t) + tail;
      ParseDoubleStar(x, tail, t);
    } else if c == '*' {
      assert RegexSource(p, t) == "[^/]*" + x;
      assert Compile(p, t) == [NoSlashRun] + tail;
      ParseNoSlashRun(x);
    } else if c == '?' || c == '.' {
      assert RegexSource(p, t) == "." + x;
      assert Compile(p, t) == [AnyChar] + tail;
      ParseAnyChar(x);
    } else {
      assert RegexSource(p, t) == [c] + x;
      assert Compile(p, t) == [Lit(c)] + tail;
      ParseLit(c, x);
    }
  }

  lemma ParseDoubleStar(x: string, tail: seq<Atom>, t: Translation)
    requires ParseRegex(x) == Some(tail)
    ensures ParseRegex(DoubleStarText(t) + x) == Some(DoubleStarAtoms(t) + tail)
  {
    if t == AsWritten {
      ParseNoSlashRun(x);
      ParseAnyChar("[^/]*" + x);
      assert "." + ("[^/]*" + x) == ".[^/]*" + x;
      assert [AnyChar] + ([NoSlashRun] + tail) == [AnyChar, NoSlashRun] + tail;
    } else {
      ParseAnyRun(x);
    }
  }

  /** Reading back the source of an ordinary pattern gives its compiled atoms. */
  lemma {:induction false} ParseRegexSource(pattern: string, t: Translation)
    requires Ordinary(pattern)
    ensures ParseRegex(RegexSource(pattern, t)) == Some(Compile(pattern, t))
    decreases |pattern|
  {
    var p := pattern;
    if |p| > 0 {
      var n := HeadLength(p);
      var rest := p[n..];
      assert Ordinary(rest) by {
        forall i | 0 <= i < |rest| ensures rest[i] !in "\\^$|+()[]{}" { assert rest[i] == p[i + n]; }
      }
      ParseRegexSource(rest, t);
      ParseSourceStep(p, t);
    }
  }

  /** The falsy test of the script for an optional string. */
  predicate Falsy(s: Option<string>)
  {
    s.None? || s.value == ""
  }

  /**
   * antPathMatch: Some(verdict) for every regex in the modelled fragment,
   * None when the pattern carries regex syntax this model leaves
   * uninterpreted. A missing or empty pattern or path never matches.
   */
  function AntPathMatch(pattern: Option<string>, path: Option<string>): (r: Option<bool>)
    ensures Falsy(pattern) || Falsy(path) ==> r == Some(false)
  {
    if Falsy(pattern) || Falsy(path) then Some(false)
    else
      match ParseAnchored("^" + GlobToRegex(pattern.value) + "$")
      case None => None
      case Some(atoms) => Some(RegexMatch(atoms, path.value))
  }

  /** For an ordinary pattern the preview's verdict is the match of the compiled atoms. */
  lemma AntPathMatchOrdinary(pattern: string, path: string)
    requires pattern != "" && path != "" && Ordinary(pattern)
    ensures AntPathMatch(Some(pattern), Some(path)) == Some(RegexMatch(Compile(pattern, AsWritten), path))
  {
    GlobToRegexSource(pattern);
    ParseRegexSource(pattern, AsWritten);
    var src := GlobToRegex(pattern);
    var anchored := "^" + src + "$";
    assert anchored[1..|anchored| - 1] == src;
  }

  /** The corrected preview: "**" becomes ".*" and survives the single-star rewrite. */
  function AntPathMatchIntended(pattern: Option<string>, path: Option<string>): (r: Option<bool>)
    ensures Falsy(pattern) || Falsy(path) ==> r == Some(false)
  {
    if Falsy(pattern) || Falsy(path) then Some(false)
    else
      match ParseAnchored("^" + RegexSource(pattern.value, Intended) + "$")
      case None => None
      case Some(atoms) => Some(RegexMatch(atoms, path.value))
  }

  lemma AntPathMatchIntendedOrdinary(pattern: string, path: string)
    requires pattern != "" && path != "" && Ordinary(pattern)
    ensures AntPathMatchIntended(Some(pattern), Some(path)) == Some(RegexMatch(Compile(pattern, Intended), path))
  {
    ParseRegexSource(pattern, Intended);
    var src := RegexSource(pattern, Intended);
    var anchored := "^" + src + "$";
    assert anchored[1..|anchored| - 1] == src;
  }

  /** "[^/]*" matches exactly the strings without '/'. */
  lemma {:induction false} NoSlashRunMatches(s: string)
    ensures RegexMatch([NoSlashRun], s) <==> '/' !in s
    decreases |s|
  {
    assert [NoSlashRun][1..] == [];
    if |s| > 0 {
      NoSlashRunMatches(s[1..]);
      assert s == [s[0]] + s[1..];
    }
  }

  /** ".*" matches exactly the strings without line terminators. */
  lemma {:induction false} AnyRunMatches(s: string)
    ensures RegexMatch([AnyRun], s) <==> forall i :: 0 <= i < |s| ==> !LineTerminator(s[i])
    decreases |s|
  {
    assert [AnyRun][1..] == [];
    if |s| > 0 {
      AnyRunMatches(s[1..]);
      assert forall i :: 1 <= i < |s| ==> s[i] == s[1..][i - 1];
    }
  }

  /** A plain pattern has no wildcard and no regex syntax at all. */
  predicate Plain(a: string)
  {
    forall i :: 0 <= i < |a| ==> a[i] !in "*?.\\^$|+()[]{}"
  }

  function Lits(a: string): (r: seq<Atom>)
    ensures |r| == |a| && forall i :: 0 <= i < |a| ==> r[i] == Lit(a[i])
  {
    seq(|a|, i requires 0 <= i < |a| => Lit(a[i]))
  }

  lemma {:induction false} CompilePlain(a: string, q: string, t: Translation)
    requires Plain(a)
    ensures Compile(a + q, t) == Lits(a) + Compile(q, t)
    decreases |a|
  {
    if |a| > 0 {
      var rest := a[1..] + q;
      assert a + q == [a[0]] + rest;
      assert a[0] !in "*?.\\^$|+()[]{}";
      CompileLit(a[0], rest, t);
      assert Plain(a[1..]) by {
        forall i | 0 <= i < |a[1..]| ensures a[1..][i] !in "*?.\\^$|+()[]{}" { assert a[1..][i] == a[i + 1]; }
      }
      CompilePlain(a[1..], q, t);
      assert Lits(a) == [Lit(a[0])] + Lits(a[1..]);
      AppendAssoc([Lit(a[0])], Lits(a[1..]), Compile(q, t));
    } else {
      assert a + q == q;
    }
  }

  /** A char without regex meaning compiles to itself. */
  lemma CompileLit(c: char, rest: string, t: Translation)
    requires c !in "*?.\\^$|+()[]{}"
    ensures Compile([c] + rest, t) == [Lit(c)] + Compile(rest, t)
  {
    var u := [c] + rest;
    assert u[0] == c && u[1..] == rest;
  }

  lemma {:induction false} MatchLits(a: string, rest: seq<Atom>, s: string)
    ensures RegexMatch(Lits(a) + rest, a + s) <==> RegexMatch(rest, s)
    decreases |a|
  {
    if |a| > 0 {
      var atoms := Lits(a) + rest;
      assert atoms[0] == Lit(a[0]) && atoms[1..] == Lits(a[1..]) + rest;
      assert (a + s)[0] == a[0] && (a + s)[1..] == a[1..] + s;
      MatchLits(a[1..], rest, s);
    } else {
      assert Lits(a) + rest == rest && a + s == s;
    }
  }

  /**
   * As written, "**" after a plain prefix matches one char that is not a
   * line terminator followed by a run without '/': it never crosses a
   * segment and never matches the empty rest.
   */
  lemma AsWrittenDoubleStar(a: string, s: string)
    requires Plain(a) && a != ""
    ensures AntPathMatch(Some(a + "**"), Some(a + s)) ==
      Some(|s| > 0 && !LineTerminator(s[0]) && '/' !in s[1..])
  {
    assert Ordinary(a + "**") by {
      forall i | 0 <= i < |a + "**"| ensures (a + "**")[i] !in "\\^$|+()[]{}" {
        if i < |a| { assert (a + "**")[i] == a[i]; }
      }
    }
    AntPathMatchOrdinary(a + "**", a + s);
    CompilePlain(a, "**", AsWritten);
    assert Compile("**", AsWritten) == [AnyChar, NoSlashRun] by {
      assert StartsWith("**", "**") && "**"[2..] == "";
    }
    MatchLits(a, [AnyChar, NoSlashRun], s);
    if |s| > 0 {
      assert [AnyChar, NoSlashRun][1..] == [NoSlashRun];
      NoSlashRunMatches(s[1..]);
    }
  }

  /** With the intended translation "**" matches any rest of the line, '/' included. */
  lemma IntendedDoubleStar(a: string, s: string)
    requires Plain(a) && a != ""
    ensures AntPathMatchIntended(Some(a + "**"), Some(a + s)) ==
      Some(forall i :: 0 <= i < |s| ==> !LineTerminator(s[i]))
  {
    assert Ordinary(a + "**") by {
      forall i | 0 <= i < |a + "**"| ensures (a + "**")[i] !in "\\^$|+()[]{}" {
        if i < |a| { assert (a + "**")[i] == a[i]; }
      }
    }
    AntPathMatchIntendedOrdinary(a + "**", a + s);
    CompilePlain(a, "**", Intended);
    assert Compile("**", Intended) == [AnyRun] by {
      assert StartsWith("**", "**") && "**"[2..] == "";
    }
    MatchLits(a, [AnyRun], s);
    AnyRunMatches(s);
  }

  /** The starter's own example: the preview rejects what the Java matcher accepts. */
  lemma ApiDoubleStarPreview()
    ensures AntPathMatch(Some("/api/**"), Some("/api/users/123")) == Some(false)
  {
    var s := "users/123";
    assert Plain("/api/");
    assert "/api/" + "**" == "/api/**";
    assert "/api/" + s == "/api/users/123";
    assert s[1..][4] == '/';
    AsWrittenDoubleStar("/api/", s);
  }

  /** The corrected preview accepts it. */
  lemma ApiDoubleStarIntended()
    ensures AntPathMatchIntended(Some("/api/**"), Some("/api/users/123")) == Some(true)
  {
    var s := "users/123";
    assert Plain("/api/");
    assert "/api/" + "**" == "/api/**";
    assert "/api/" + s == "/api/users/123";
    assert forall i :: 0 <= i < |s| ==> !LineTerminator(s[i]);
    IntendedDoubleStar("/api/", s);
  }

  // -------------------------------------------------------- getIntervalInfo

  const NO_DATA: string := "无数据"

  /** The falsy test of the script for an optional number (NaN is not modelled). */
  predicate FalsyNumber(n: Option<int>)
  {
    n.None? || n.value == 0
  }

  /**
   * The caption under the trend chart. A whole number of hours is rendered
   * as an integer; fraction(n) stands for the JavaScript rendering of n / 60
   * when 60 does not divide n.
   */
  function IntervalInfo(intervalMinutes: Option<int>, dataPoints: Option<int>, fraction: int -> string): (r: string)
    ensures FalsyNumber(intervalMinutes) || FalsyNumber(dataPoints) <==> r == NO_DATA
    ensures !FalsyNumber(intervalMinutes) && !FalsyNumber(dataPoints) ==>
      StartsWith(r, IntToString(dataPoints.value) + "个数据点，")
      && (EndsWith(r, "小时") <==> intervalMinutes.value >= 60)
      && (EndsWith(r, "分钟") <==> intervalMinutes.value < 60)
    ensures !FalsyNumber(intervalMinutes) && !FalsyNumber(dataPoints) ==>
      var head := IntToString(dataPoints.value) + "个数据点，";
      var n := intervalMinutes.value;
      (n == 1 ==> r == head + "每分钟")
      && (n != 1 && n < 60 ==> r == head + ("每" + IntToString(n) + "分钟"))
      && (n >= 60 ==> r == head + ("每" + HoursText(n, fraction) + "小时"))
  {
    if FalsyNumber(intervalMinutes) || FalsyNumber(dataPoints) then NO_DATA
    else
      var desc := IntervalDesc(intervalMinutes.value, fraction);
      var head := IntToString(dataPoints.value) + "个数据点，";
      assert head[0] == IntToString(dataPoints.value)[0];
      Caption(head, desc);
      head + desc
  }

  /** The interval part of the caption: per minute, per n minutes, or per so many hours. */
  function IntervalDesc(n: int, fraction: int -> string): (r: string)
    ensures |r| >= 2
    ensures n == 1 ==> r == "每分钟"
    ensures n != 1 && n < 60 ==> r == "每" + IntToString(n) + "分钟"
    ensures n >= 60 ==> r == "每" + HoursText(n, fraction) + "小时"
    ensures EndsWith(r, "小时") <==> n >= 60
    ensures EndsWith(r, "分钟") <==> n < 60
  {
    if n == 1 then "每分钟"
    else if n < 60 then "每" + IntToString(n) + "分钟"
    else "每" + HoursText(n, fraction) + "小时"
  }

  /** A caption keeps its head's start and its description's ending, and is never "无数据". */
  lemma Caption(head: string, desc: string)
    requires |head| > 0 && head[0] != NO_DATA[0] && |desc| >= 2
    ensures StartsWith(head + desc, head) && head + desc != NO_DATA
    ensures EndsWith(head + desc, "小时") <==> EndsWith(desc, "小时")
    ensures EndsWith(head + desc, "分钟") <==> EndsWith(desc, "分钟")
  {
    var r := head + desc;
    assert r[..|head|] == head;
    assert r[0] == head[0];
    assert r[|r| - 2..] == desc[|desc| - 2..];
  }

  function HoursText(n: int, fraction: int -> string): string
  {
    if n % 60 == 0 then IntToString(n / 60) else fraction(n)
  }

  /** A whole number of hours appears as that integer. */
  lemma IntervalInfoWholeHours(intervalMinutes: int, dataPoints: int, fraction: int -> string)
    requires intervalMinutes >= 60 && intervalMinutes % 60 == 0 && dataPoints != 0
    ensures EndsWith(IntervalInfo(Some(intervalMinutes), Some(dataPoints), fraction),
                     "每" + IntToString(intervalMinutes / 60) + "小时")
  {
    var head := IntToString(dataPoints) + "个数据点，";
    var tail := "每" + IntToString(intervalMinutes / 60) + "小时";
    var r := head + tail;
    assert r[|r| - |tail|..] == tail;
  }

  // --------------------------------------------------------------- batchTest

  const BATCH_SIZE: nat := 10
  const TOO_MANY_REQUESTS: int := 429

  /** One settled request of the batch: a response, or an error with a status. */
  datatype Outcome = Succeeded | Failed(status: int)

  /** The catch handler: the response's status, or 0 when there was no response. */
  function FailureOf(response: Option<int>): (r: Outcome)
    ensures r.Failed? && (response.None? ==> r.status == 0)
  {
    Failed(if response.Some? then response.value else 0)
  }

  predicate IsBlocked(o: Outcome)
  {
    o.Failed? && o.status == TOO_MANY_REQUESTS
  }

  predicate IsError(o: Outcome)
  {
    o.Failed? && o.status != TOO_MANY_REQUESTS
  }

  /** The three filters of the tally. */
  function CountSucceeded(rs: seq<Outcome>): nat
  {
    if |rs| == 0 then 0 else (if rs[0].Succeeded? then 1 else 0) + CountSucceeded(rs[1..])
  }

  function CountBlocked(rs: seq<Outcome>): nat
  {
    if |rs| == 0 then 0 else (if IsBlocked(rs[0]) then 1 else 0) + CountBlocked(rs[1..])
  }

  function CountErrors(rs: seq<Outcome>): nat
  {
    if |rs| == 0 then 0 else (if IsError(rs[0]) then 1 else 0) + CountErrors(rs[1..])
  }

  /** Every outcome lands in exactly one bucket. */
  lemma {:induction false} TallyPartition(rs: seq<Outcome>)
    ensures CountSucceeded(rs) + CountBlocked(rs) + CountErrors(rs) == |rs|
    decreases |rs|
  {
    if |rs| > 0 {
      TallyPartition(rs[1..]);
    }
  }

  /** A request that never got a response counts as an error, not as blocked. */
  lemma TransportFailureIsError()
    ensures IsError(FailureOf(None)) && !IsBlocked(FailureOf(None))
  {
  }

  /**
   * batchTest: ten requests, each settled by send(i), then the three
   * filters over the results.
   */
  method BatchTest(send: nat -> Outcome) returns (results: seq<Outcome>, successCount: nat, blockedCount: nat, errorCount: nat)
    ensures |results| == BATCH_SIZE && forall i :: 0 <= i < BATCH_SIZE ==> results[i] == send(i)
    ensures successCount == CountSucceeded(results) && blockedCount == CountBlocked(results)
    ensures errorCount == CountErrors(results)
    ensures successCount + blockedCount + errorCount == BATCH_SIZE
  {
    results := [];
    for i := 0 to BATCH_SIZE
      invariant |results| == i && forall k :: 0 <= k < i ==> results[k] == send(k)
    {
      results := results + [send(i)];
    }
    successCount := CountSucceeded(results);
    blockedCount := CountBlocked(results);
    errorCount := CountErrors(results);
    TallyPartition(results);
  }

  // ------------------------------------------------------------ convertToCSV

  /** One row of the statistics export. */
  datatype StatsItem = StatsItem(ruleId: string, ruleName: string, totalRequests: int,
                                 allowedRequests: int, blockedRequests: int,
                                 blockRate: real, requestRate: real)

  const CSV_HEADERS: seq<string> := ["规则ID", "规则名称", "总请求数", "允许请求", "阻止请求", "阻止率", "请求频率"]

  /** The seven cells of a row; formatNumber renders the two rates. */
  function CsvFields(item: StatsItem, formatNumber: real -> string): (r: seq<string>)
    ensures |r| == |CSV_HEADERS|
    ensures r[0] == item.ruleId && r[1] == item.ruleName
  {
    [item.ruleId, item.ruleName, IntToString(item.totalRequests), IntToString(item.allowedRequests),
     IntToString(item.blockedRequests), formatNumber(item.blockRate), formatNumber(item.requestRate)]
  }

  function CsvLines(data: seq<StatsItem>, formatNumber: real -> string): (r: seq<string>)
    ensures |r| == |data| + 1
  {
    [Join(CSV_HEADERS, ",")] + seq(|data|, i requires 0 <= i < |data| => RowLine(data[i], formatNumber))
  }

  /** convertToCSV: no data gives the empty string. */
  function ConvertToCsv(data: Option<seq<StatsItem>>, formatNumber: real -> string): (r: string)
    ensures data.None? || |data.value| == 0 ==> r == ""
  {
    if data.None? || |data.value| == 0 then ""
    else Join(CsvLines(data.value, formatNumber), "\n")
  }

  /** A row is clean when none of its cells holds a comma or a newline. */
  predicate CleanRow(item: StatsItem, formatNumber: real -> string)
  {
    forall k :: 0 <= k < 7 ==> ',' !in CsvFields(item, formatNumber)[k] && '\n' !in CsvFields(item, formatNumber)[k]
  }

  /**
   * With clean rows the export splits back into data.length + 1 lines:
   * the header line, then one line per row that splits into its seven cells.
   */
  lemma CsvShape(data: seq<StatsItem>, formatNumber: real -> string)
    requires |data| > 0 && forall i :: 0 <= i < |data| ==> CleanRow(data[i], formatNumber)
    ensures var lines := SplitAll(ConvertToCsv(Some(data), formatNumber), "\n");
      |lines| == |data| + 1
      && SplitAll(lines[0], ",") == CSV_HEADERS
      && forall i :: 0 <= i < |data| ==> SplitAll(lines[i + 1], ",") == CsvFields(data[i], formatNumber)
  {
    var lines := CsvLines(data, formatNumber);
    HeaderLine();
    RowLines(data, formatNumber);
    assert lines[0] == Join(CSV_HEADERS, ",");
    assert forall i :: 0 <= i < |data| ==> lines[i + 1] == RowLine(data[i], formatNumber);
    forall i | 0 <= i < |lines| ensures '\n' !in lines[i] {
      if i > 0 {
        assert lines[i] == RowLine(data[i - 1], formatNumber);
      }
    }
    SplitAllJoinChar(lines, '\n');
  }

  function RowLine(item: StatsItem, formatNumber: real -> string): string
  {
    Join(CsvFields(item, formatNumber), ",")
  }

  lemma RowLines(data: seq<StatsItem>, formatNumber: real -> string)
    requires forall i :: 0 <= i < |data| ==> CleanRow(data[i], formatNumber)
    ensures forall i :: 0 <= i < |data| ==>
      '\n' !in RowLine(data[i], formatNumber) && SplitAll(RowLine(data[i], formatNumber), ",") == CsvFields(data[i], formatNumber)
  {
    forall i | 0 <= i < |data|
      ensures '\n' !in RowLine(data[i], formatNumber) && SplitAll(RowLine(data[i], formatNumber), ",") == CsvFields(data[i], formatNumber)
    {
      CleanFieldsSplit(CsvFields(data[i], formatNumber));
    }
  }

  lemma HeaderLine()
    ensures '\n' !in Join(CSV_HEADERS, ",") && SplitAll(Join(CSV_HEADERS, ","), ",") == CSV_HEADERS
  {
    CleanFieldsSplit(CSV_HEADERS);
  }

  /** Joining cells free of ',' and newline with ',' gives a line that splits back into them. */
  lemma CleanFieldsSplit(fields: seq<string>)
    requires |fields| >= 1 && forall k :: 0 <= k < |fields| ==> ',' !in fields[k] && '\n' !in fields[k]
    ensures '\n' !in Join(fields, ",") && SplitAll(Join(fields, ","), ",") == fields
  {
    NotInJoin(fields, ",", '\n');
    SplitAllJoinChar(fields, ',');
  }

  // ------------------------------------------------- renderRateLimitRecords

  const USER_AGENT_MAX: nat := 50

  /** The user-agent cell: absent or empty gives "unknown", over 50 chars is cut with "...". */
  function UserAgentCell(userAgent: Option<string>): (r: string)
    ensures Falsy(userAgent) ==> r == "unknown"
    ensures !Falsy(userAgent) && |userAgent.value| <= USER_AGENT_MAX ==> r == userAgent.value
    ensures !Falsy(userAgent) && |userAgent.value| > USER_AGENT_MAX ==>
      |r| == USER_AGENT_MAX + 3 && r[..USER_AGENT_MAX] == userAgent.value[..USER_AGENT_MAX] && EndsWith(r, "...")
    ensures |r| <= USER_AGENT_MAX + 3
  {
    if Falsy(userAgent) then "unknown"
    else if |userAgent.value| > USER_AGENT_MAX then
      var r := userAgent.value[..USER_AGENT_MAX] + "...";
      assert r[USER_AGENT_MAX..] == "...";
      r
    else userAgent.value
  }
}
