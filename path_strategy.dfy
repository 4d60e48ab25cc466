/**
 * PathRateLimitStrategy: the default strategy, which keys a rule's bucket
 * by the request path relative to the application's context path.
 */
module PathStrategy {
  import opened Text
  import opened Requests

  const KEY_PREFIX: string := "rate_limit:path:"

  /** The URI with a non-empty context path removed when it is a prefix. */
  function Relative(req: Request): (r: string)
    ensures EndsWith(req.uri, r)
  {
    match req.contextPath
    case Some(cp) =>
      if cp != "" && StartsWith(req.uri, cp) then req.uri[|cp|..] else req.uri
    case None => req.uri
  }

  /** extractIdentifier: the relative path, given a leading '/' when it lacks one. */
  function ExtractIdentifier(req: Request): (r: string)
    ensures StartsWith(r, "/")
    ensures r == Relative(req) || r == "/" + Relative(req)
    ensures StartsWith(Relative(req), "/") ==> r == Relative(req)
  {
    var path := Relative(req);
    if StartsWith(path, "/") then path else "/" + path
  }

  /** Extracting again from the extracted path, outside any context, changes nothing. */
  lemma ExtractIdempotent(req: Request)
    ensures ExtractIdentifier(req.(uri := ExtractIdentifier(req), contextPath := None)) == ExtractIdentifier(req)
  {
  }

  /** A context path is stripped off exactly once. */
  lemma ContextStripped(req: Request, cp: string, rest: string)
    requires cp != "" && req.contextPath == Some(cp) && req.uri == cp + rest
    requires StartsWith(rest, "/")
    ensures ExtractIdentifier(req) == rest
  {
    assert req.uri[..|cp|] == cp;
    assert req.uri[|cp|..] == rest;
  }

  /** generateKey: the prefix, the rule id and ':' followed by the identifier. */
  function GenerateKey(req: Request, rule: RateLimitRule): (r: string)
    ensures StartsWith(r, KEY_PREFIX + rule.id + ":")
    ensures r[|KEY_PREFIX + rule.id + ":"|..] == ExtractIdentifier(req)
  {
    var r := KEY_PREFIX + rule.id + ":" + ExtractIdentifier(req);
    assert r[..|KEY_PREFIX + rule.id + ":"|] == KEY_PREFIX + rule.id + ":";
    r
  }

  /** Under one rule, two requests share a bucket exactly when their identifiers agree. */
  lemma SameBucket(a: Request, b: Request, rule: RateLimitRule)
    ensures GenerateKey(a, rule) == GenerateKey(b, rule) <==> ExtractIdentifier(a) == ExtractIdentifier(b)
  {
  }

  /** supports: the path strategy applies to every rule. */
  function Supports(rule: RateLimitRule): (r: bool)
    ensures r
  {
    true
  }

  /** getRequestLimit: the rule's refill rate. */
  function RequestLimit(rule: RateLimitRule): (r: int)
    ensures r == rule.refillRate
  {
    rule.refillRate
  }
}
