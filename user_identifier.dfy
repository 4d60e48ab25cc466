/**
 * DefaultUserIdentifierExtractor: the priority chain that names a caller
 * (bearer token, other Authorization value, netUserId parameter, session,
 * client address) and the client-address chain behind its last step.
 */
module UserIdentifier {
  import opened Text
  import opened Requests

  const AUTHORIZATION: string := "Authorization"
  const BEARER: string := "Bearer "
  const NET_USER_ID: string := "netUserId"
  const USERNAME: string := "username"
  const X_FORWARDED_FOR: string := "X-Forwarded-For"
  const X_REAL_IP: string := "X-Real-IP"
  const X_FORWARDED_PROTO: string := "X-Forwarded-Proto"
  const UNKNOWN: string := "unknown"

  predicate Int32(o: int) { -0x8000_0000 <= o < 0x8000_0000 }

  /** getOrder: the largest int, so every other extractor is consulted first. */
  function GetOrder(): (r: int)
    ensures Int32(r)
    ensures forall o :: Int32(o) ==> o <= r
  {
    0x7FFF_FFFF
  }

  /** A header the address chain accepts: present, non-empty and not "unknown" in any case. */
  predicate Usable(h: Option<string>)
  {
    h.Some? && h.value != "" && !EqualsIgnoreCase(UNKNOWN, h.value)
  }

  /** The X-Forwarded-For values that Java's split(",") turns into no pieces at all. */
  predicate OnlyCommas(s: string)
  {
    |s| > 0 && forall k :: 0 <= k < |s| ==> s[k] == ','
  }

  /** The address chain after X-Forwarded-For: X-Real-IP, then X-Forwarded-Proto, then the peer. */
  function AddressFallback(req: Request): (r: string)
    ensures Usable(Header(req, X_REAL_IP)) ==> r == req.headers[X_REAL_IP]
    ensures !Usable(Header(req, X_REAL_IP)) && Usable(Header(req, X_FORWARDED_PROTO)) ==>
              r == req.headers[X_FORWARDED_PROTO]
    ensures !Usable(Header(req, X_REAL_IP)) && !Usable(Header(req, X_FORWARDED_PROTO)) ==>
              r == req.remoteAddr
  {
    var realIp := Header(req, X_REAL_IP);
    var proto := Header(req, X_FORWARDED_PROTO);
    if Usable(realIp) then realIp.value
    else if Usable(proto) then proto.value
    else req.remoteAddr
  }

  /**
   * getClientIpAddress as written: the trimmed first comma-separated piece
   * of a usable X-Forwarded-For, else the fallback chain. None stands for the
   * ArrayIndexOutOfBoundsException raised when split returns no pieces.
   */
  function ClientIpAsWritten(req: Request): (r: Option<string>)
    ensures r.None? <==> Usable(Header(req, X_FORWARDED_FOR)) && OnlyCommas(req.headers[X_FORWARDED_FOR])
    ensures !Usable(Header(req, X_FORWARDED_FOR)) ==> r == Some(AddressFallback(req))
  {
    var xff := Header(req, X_FORWARDED_FOR);
    if Usable(xff) then
      var parts := Split(xff.value, ",");
      SplitEmptyIffOnlySeparators(xff.value, ',');
      if |parts| == 0 then None else Some(Trim(parts[0]))
    else Some(AddressFallback(req))
  }

  /**
   * getClientIpAddress with an X-Forwarded-For made only of commas treated
   * like an unusable one: the chain then always yields an address.
   */
  function ClientIp(req: Request): (r: string)
    ensures ClientIpAsWritten(req).Some? ==> r == ClientIpAsWritten(req).value
    ensures ClientIpAsWritten(req).None? ==> r == AddressFallback(req)
  {
    var xff := Header(req, X_FORWARDED_FOR);
    if Usable(xff) && !OnlyCommas(xff.value) then
      SplitEmptyIffOnlySeparators(xff.value, ',');
      Trim(Split(xff.value, ",")[0])
    else AddressFallback(req)
  }

  /** The first hop of a forwarded list is the client: "a, b, c" names a. */
  lemma ForwardedForFirstHop(req: Request, first: string, rest: string)
    requires ',' !in first && first != ""
    requires X_FORWARDED_FOR in req.headers && req.headers[X_FORWARDED_FOR] == first + "," + rest
    requires !EqualsIgnoreCase(UNKNOWN, first + "," + rest)
    ensures ClientIpAsWritten(req) == Some(Trim(first))
  {
    SplitFirst(first, rest, ',');
  }

  /** A forwarded value without a comma is the client address itself, trimmed. */
  lemma ForwardedForSingle(req: Request, addr: string)
    requires ',' !in addr && addr != "" && !EqualsIgnoreCase(UNKNOWN, addr)
    requires X_FORWARDED_FOR in req.headers && req.headers[X_FORWARDED_FOR] == addr
    ensures ClientIpAsWritten(req) == Some(Trim(addr))
  {
    SplitNone(addr, ',');
  }

  /**
   * The identification chain, given what the address chain produced for the
   * last step (None when it threw).
   */
  function IdentifyWith(req: Request, clientIp: Option<string>): (r: Option<string>)
    ensures Header(req, AUTHORIZATION).Some? && req.headers[AUTHORIZATION] != "" ==>
              var auth := req.headers[AUTHORIZATION];
              r == Some(if StartsWith(auth, BEARER) then "token:" + auth[|BEARER|..] else "auth:" + auth)
    ensures !(Header(req, AUTHORIZATION).Some? && req.headers[AUTHORIZATION] != "") &&
            Param(req, NET_USER_ID).Some? && req.params[NET_USER_ID] != "" ==>
              r == Some("user:" + req.params[NET_USER_ID])
    ensures r.None? <==>
              !(Header(req, AUTHORIZATION).Some? && req.headers[AUTHORIZATION] != "") &&
              !(Param(req, NET_USER_ID).Some? && req.params[NET_USER_ID] != "") &&
              req.session.None? && clientIp.None?
  {
    var auth := Header(req, AUTHORIZATION);
    var userId := Param(req, NET_USER_ID);
    if auth.Some? && auth.value != "" then
      if StartsWith(auth.value, BEARER) then Some("token:" + auth.value[|BEARER|..])
      else Some("auth:" + auth.value)
    else if userId.Some? && userId.value != "" then Some("user:" + userId.value)
    else if req.session.Some? then
      var attrs := req.session.value.attributes;
      if NET_USER_ID in attrs then Some("session:" + attrs[NET_USER_ID])
      else if USERNAME in attrs then Some("session:" + attrs[USERNAME])
      else Some("session:" + req.session.value.id)
    else
      match clientIp
      case None => None
      case Some(ip) => Some("ip:" + ip)
  }

  /** extractUserIdentifier as written; None is the exception escaping from the address chain. */
  function ExtractUserIdentifierAsWritten(req: Request): (r: Option<string>)
    ensures r.None? <==>
              !(Header(req, AUTHORIZATION).Some? && req.headers[AUTHORIZATION] != "") &&
              !(Param(req, NET_USER_ID).Some? && req.params[NET_USER_ID] != "") &&
              req.session.None? && ClientIpAsWritten(req).None?
  {
    IdentifyWith(req, ClientIpAsWritten(req))
  }

  /** extractUserIdentifier over the corrected address chain: never null. */
  function ExtractUserIdentifier(req: Request): (r: string)
    ensures StartsWith(r, "token:") || StartsWith(r, "auth:") || StartsWith(r, "user:") ||
            StartsWith(r, "session:") || StartsWith(r, "ip:")
  {
    IdentifyWith(req, Some(ClientIp(req))).value
  }

  /** A session identifies the caller by netUserId, else username, else the session id. */
  lemma SessionStep(req: Request)
    requires !(Header(req, AUTHORIZATION).Some? && req.headers[AUTHORIZATION] != "")
    requires !(Param(req, NET_USER_ID).Some? && req.params[NET_USER_ID] != "")
    requires req.session.Some?
    ensures var attrs := req.session.value.attributes;
            ExtractUserIdentifier(req) ==
              "session:" + (if NET_USER_ID in attrs then attrs[NET_USER_ID]
                            else if USERNAME in attrs then attrs[USERNAME]
                            else req.session.value.id)
  {
  }

  /** With nothing else to go on, the caller is named by its address. */
  lemma AddressStep(req: Request)
    requires !(Header(req, AUTHORIZATION).Some? && req.headers[AUTHORIZATION] != "")
    requires !(Param(req, NET_USER_ID).Some? && req.params[NET_USER_ID] != "")
    requires req.session.None?
    ensures ExtractUserIdentifier(req) == "ip:" + ClientIp(req)
    ensures ExtractUserIdentifierAsWritten(req) == (match ClientIpAsWritten(req)
                                                    case None => None
                                                    case Some(ip) => Some("ip:" + ip))
  {
  }

  /** A bearer token is handed back without its scheme. */
  lemma BearerToken(req: Request, token: string)
    requires AUTHORIZATION in req.headers && req.headers[AUTHORIZATION] == BEARER + token
    ensures ExtractUserIdentifier(req) == "token:" + token
    ensures ExtractUserIdentifierAsWritten(req) == Some("token:" + token)
  {
    assert (BEARER + token)[|BEARER|..] == token;
  }

  /** An anonymous request forwarded as "X-Forwarded-For: ," makes the written chain throw. */
  lemma CommaOnlyForwardedForThrows(req: Request)
    requires AUTHORIZATION !in req.headers && NET_USER_ID !in req.params && req.session.None?
    requires X_FORWARDED_FOR in req.headers && req.headers[X_FORWARDED_FOR] == ","
    ensures ExtractUserIdentifierAsWritten(req) == None
    ensures ExtractUserIdentifier(req) == "ip:" + AddressFallback(req)
  {
    assert ToUpper(UNKNOWN) != ToUpper(",");
  }
}
