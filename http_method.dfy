/**
 * The HTTP method enum of the starter and its case-insensitive lookup.
 */
module HttpMethods {
  import opened Text

  datatype HttpMethod = GET | POST | PUT | DELETE | PATCH | HEAD | OPTIONS | TRACE

  /** The method text each constant carries. */
  function MethodName(m: HttpMethod): string
  {
    match m
    case GET => "GET"
    case POST => "POST"
    case PUT => "PUT"
    case DELETE => "DELETE"
    case PATCH => "PATCH"
    case HEAD => "HEAD"
    case OPTIONS => "OPTIONS"
    case TRACE => "TRACE"
  }

  /** values(), in declaration order. */
  const VALUES: seq<HttpMethod> := [GET, POST, PUT, DELETE, PATCH, HEAD, OPTIONS, TRACE]

  lemma ValuesComplete(m: HttpMethod)
    ensures m in VALUES
  {
  }

  /** The linear search of fromString over a list of constants. */
  function FirstMatching(ms: seq<HttpMethod>, s: string): (r: Option<HttpMethod>)
    ensures r.Some? ==> r.value in ms && EqualsIgnoreCase(MethodName(r.value), s)
    ensures r.None? ==> forall m :: m in ms ==> !EqualsIgnoreCase(MethodName(m), s)
  {
    if |ms| == 0 then None
    else if EqualsIgnoreCase(MethodName(ms[0]), s) then Some(ms[0])
    else FirstMatching(ms[1..], s)
  }

  /** fromString: null gives null; otherwise the constant whose text equals s ignoring case, if any. */
  function FromString(s: Option<string>): (r: Option<HttpMethod>)
    ensures s.None? ==> r.None?
    ensures s.Some? && r.Some? ==> EqualsIgnoreCase(MethodName(r.value), s.value)
    ensures s.Some? && r.None? ==> forall m: HttpMethod :: !EqualsIgnoreCase(MethodName(m), s.value)
  {
    if s.None? then None
    else
      var r := FirstMatching(VALUES, s.value);
      assert forall m: HttpMethod :: m in VALUES by {
        forall m: HttpMethod ensures m in VALUES { ValuesComplete(m); }
      }
      r
  }

  /** Every constant's text is already upper case. */
  lemma UpperName(m: HttpMethod)
    ensures ToUpper(MethodName(m)) == MethodName(m)
  {
    match m
    case GET => assert ToUpper("GET") == "GET";
    case POST => assert ToUpper("POST") == "POST";
    case PUT => assert ToUpper("PUT") == "PUT";
    case DELETE => assert ToUpper("DELETE") == "DELETE";
    case PATCH => assert ToUpper("PATCH") == "PATCH";
    case HEAD => assert ToUpper("HEAD") == "HEAD";
    case OPTIONS => assert ToUpper("OPTIONS") == "OPTIONS";
    case TRACE => assert ToUpper("TRACE") == "TRACE";
  }

  /** No two constants have texts equal ignoring case. */
  lemma NamesDistinct(a: HttpMethod, b: HttpMethod)
    requires a != b
    ensures !EqualsIgnoreCase(MethodName(a), MethodName(b))
  {
    UpperName(a);
    UpperName(b);
  }

  /** The lookup is a partial inverse of MethodName, whatever the case of the input. */
  lemma FromStringIgnoresCase(m: HttpMethod, s: string)
    ensures FromString(Some(s)) == Some(m) <==> EqualsIgnoreCase(MethodName(m), s)
  {
    var r := FromString(Some(s));
    if EqualsIgnoreCase(MethodName(m), s) {
      assert r.Some?;
      if r.value != m {
        NamesDistinct(r.value, m);
      }
    }
  }

  /** fromString(m.getMethod()) == m for every constant. */
  lemma FromStringRoundTrip(m: HttpMethod)
    ensures FromString(Some(MethodName(m))) == Some(m)
  {
    FromStringIgnoresCase(m, MethodName(m));
  }

  // The enum test: "GET", "post" and "Put" are found; "INVALID" and null are not.
  lemma FoundAs(m: HttpMethod, s: string)
    requires ToUpper(s) == MethodName(m)
    ensures FromString(Some(s)) == Some(m)
  {
    UpperName(m);
    FromStringIgnoresCase(m, s);
  }

  lemma EnumTestFound()
    ensures FromString(Some("GET")) == Some(GET)
    ensures FromString(Some("post")) == Some(POST)
    ensures FromString(Some("Put")) == Some(PUT)
  {
    assert ToUpper("GET") == "GET";
    FoundAs(GET, "GET");
    assert ToUpper("post") == "POST";
    FoundAs(POST, "post");
    assert ToUpper("Put") == "PUT";
    FoundAs(PUT, "Put");
  }

  lemma EnumTestMissing()
    ensures FromString(Some("INVALID")) == None
    ensures FromString(None) == None
  {
    assert ToUpper("INVALID") == "INVALID";
    forall m: HttpMethod ensures !EqualsIgnoreCase(MethodName(m), "INVALID") {
      UpperName(m);
    }
  }
}
