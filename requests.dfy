/**
 * The parts of an HTTP servlet request and of a rate-limit rule that the
 * modelled code reads.
 */
module Requests {
  import opened Text
  import opened HttpMethods

  /** An HTTP session: its id and the string form of each attribute. */
  datatype Session = Session(id: string, attributes: map<string, string>)

  /**
   * A request as the servlet API presents it. Header and parameter maps
   * hold the first value under each name, keyed by the exact names the
   * code asks for.
   */
  datatype Request = Request(
    uri: string,
    contextPath: Option<string>,
    httpMethod: Option<string>,
    headers: map<string, string>,
    params: map<string, string>,
    session: Option<Session>,
    remoteAddr: string)

  /** getHeader: the value, or null when absent. */
  function Header(req: Request, name: string): (r: Option<string>)
    ensures r.Some? <==> name in req.headers
    ensures r.Some? ==> r.value == req.headers[name]
  {
    if name in req.headers then Some(req.headers[name]) else None
  }

  /** getParameter: the value, or null when absent. */
  function Param(req: Request, name: string): (r: Option<string>)
    ensures r.Some? <==> name in req.params
    ensures r.Some? ==> r.value == req.params[name]
  {
    if name in req.params then Some(req.params[name]) else None
  }

  /** A rate-limit rule (the fields the service reads). */
  datatype RateLimitRule = RateLimitRule(
    id: string,
    name: string,
    enabled: bool,
    pathPattern: Option<string>,
    httpMethods: Option<seq<HttpMethod>>,
    bucketCapacity: int,
    refillRate: int,
    timeWindow: int,
    enableIpLimit: bool,
    ipRequestLimit: Option<int>,
    ipBucketCapacity: Option<int>,
    enableUserLimit: bool,
    userRequestLimit: Option<int>,
    userBucketCapacity: Option<int>,
    priority: int)
}
