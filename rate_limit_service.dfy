/**
 * RedisRateLimitService of the 1.3 starter: the token-bucket script run on
 * Redis, rule matching, the path/IP/user short-circuit and the loop over
 * the enabled rules.
 */
module RateLimitService {
  import opened Text
  import opened HttpMethods
  import opened Requests
  import AntPathMatcher
  import PathStrategy

  // ------------------------------------------------------------ the bucket

  /** The Redis hash of one bucket: its 'tokens' and 'last_refill' fields, either possibly absent. */
  datatype BucketHash = BucketHash(tokens: Option<int>, lastRefill: Option<int>)

  const EMPTY_BUCKET: BucketHash := BucketHash(None, None)

  /** HMGET on a key that may not exist: a missing key reads as two nils. */
  function Lookup(buckets: map<string, BucketHash>, key: string): BucketHash
  {
    if key in buckets then buckets[key] else EMPTY_BUCKET
  }

  /** What one run of the script decides and writes back. */
  datatype Admission = Admission(allowed: bool, tokens: int, lastRefill: int)

  function Max(a: int, b: int): int { if a >= b then a else b }
  function Min(a: int, b: int): int { if a <= b then a else b }

  /** tokens, or the capacity when the field is nil (a fresh bucket starts full). */
  function Stored(h: BucketHash, capacity: int): int
  {
    if h.tokens.Some? then h.tokens.value else capacity
  }

  /** last_refill, or the current time when the field is nil. */
  function LastRefill(h: BucketHash, now: int): int
  {
    if h.lastRefill.Some? then h.lastRefill.value else now
  }

  /** floor(max(0, now - last_refill) * refill_rate); every operand is an integer. */
  function TokensToAdd(h: BucketHash, refillRate: int, now: int): int
  {
    Max(0, now - LastRefill(h, now)) * refillRate
  }

  /** The token count after the refill and before the request takes one. */
  function Refilled(h: BucketHash, capacity: int, refillRate: int, now: int): int
  {
    if TokensToAdd(h, refillRate, now) > 0
    then Min(capacity, Stored(h, capacity) + TokensToAdd(h, refillRate, now))
    else Stored(h, capacity)
  }

  /** The whole script on one bucket: refill, then admit when a token is left. */
  function Step(h: BucketHash, capacity: int, refillRate: int, now: int): Admission
  {
    var t := Refilled(h, capacity, refillRate, now);
    var last := if TokensToAdd(h, refillRate, now) > 0 then now else LastRefill(h, now);
    if t > 0 then Admission(true, t - 1, last) else Admission(false, t, last)
  }

  /** The hash HMSET leaves behind. */
  function Written(a: Admission): BucketHash
  {
    BucketHash(Some(a.tokens), Some(a.lastRefill))
  }

  /** A bucket with no state starts full, and its refill clock starts now. */
  lemma StartsFull(capacity: int, refillRate: int, now: int)
    ensures Refilled(EMPTY_BUCKET, capacity, refillRate, now) == capacity
    ensures Step(EMPTY_BUCKET, capacity, refillRate, now).lastRefill == now
    ensures Step(EMPTY_BUCKET, capacity, refillRate, now).allowed <==> capacity > 0
  {
  }

  /** The refill adds elapsed seconds times the rate, never beyond the capacity. */
  lemma RefillAmount(h: BucketHash, capacity: int, refillRate: int, now: int)
    requires h.tokens.Some? && h.lastRefill.Some? && refillRate >= 0
    requires h.tokens.value <= capacity
    ensures var added := Max(0, now - h.lastRefill.value) * refillRate;
            Refilled(h, capacity, refillRate, now) == Min(capacity, h.tokens.value + added)
  {
  }

  /** last_refill moves, and then to now, only when tokens were actually added. */
  lemma LastRefillMovesOnlyOnAdd(h: BucketHash, capacity: int, refillRate: int, now: int)
    ensures var a := Step(h, capacity, refillRate, now);
            if TokensToAdd(h, refillRate, now) > 0 then a.lastRefill == now
            else a.lastRefill == LastRefill(h, now)
  {
  }

  /** A request is admitted exactly when a token is left after the refill, and then it takes one. */
  lemma AdmitsIffTokenLeft(h: BucketHash, capacity: int, refillRate: int, now: int)
    ensures var a := Step(h, capacity, refillRate, now);
            var t := Refilled(h, capacity, refillRate, now);
            (a.allowed <==> t > 0) && a.tokens == (if a.allowed then t - 1 else t)
  {
  }

  /** A bucket whose stored count lies within the capacity (or is absent) keeps it there. */
  predicate InRange(h: BucketHash, capacity: int)
  {
    0 <= Stored(h, capacity) <= capacity
  }

  lemma StepKeepsRange(h: BucketHash, capacity: int, refillRate: int, now: int)
    requires InRange(h, capacity)
    ensures InRange(Written(Step(h, capacity, refillRate, now)), capacity)
  {
  }

  /**
   * The fix for repeated refills: a second run at the same instant finds
   * nothing more to add.
   */
  lemma NoSecondRefillAtOneInstant(h: BucketHash, capacity: int, refillRate: int, now: int)
    ensures var w := Written(Step(h, capacity, refillRate, now));
            Refilled(w, capacity, refillRate, now) == w.tokens.value
  {
    var a := Step(h, capacity, refillRate, now);
    var w := Written(a);
    if TokensToAdd(h, refillRate, now) > 0 {
      assert TokensToAdd(w, refillRate, now) == 0;
    } else {
      assert TokensToAdd(w, refillRate, now) == TokensToAdd(h, refillRate, now);
    }
  }

  /** Waiting longer never turns an admitted request into a rejected one. */
  lemma LaterIsNoWorse(h: BucketHash, capacity: int, refillRate: int, now1: int, now2: int)
    requires h.lastRefill.Some? && refillRate >= 0 && now1 <= now2
    requires Stored(h, capacity) <= capacity
    ensures Refilled(h, capacity, refillRate, now1) <= Refilled(h, capacity, refillRate, now2)
    ensures Step(h, capacity, refillRate, now1).allowed ==> Step(h, capacity, refillRate, now2).allowed
  {
    var l := h.lastRefill.value;
    assert TokensToAdd(h, refillRate, now1) == Max(0, now1 - l) * refillRate;
    assert TokensToAdd(h, refillRate, now2) == Max(0, now2 - l) * refillRate;
    assert Max(0, now1 - l) <= Max(0, now2 - l);
    assert Max(0, now1 - l) * refillRate <= Max(0, now2 - l) * refillRate;
  }

  /** Admissions among n runs of the script at one instant. */
  function AdmittedAtInstant(h: BucketHash, capacity: int, refillRate: int, now: int, n: nat): nat
    decreases n
  {
    if n == 0 then 0
    else
      var a := Step(h, capacity, refillRate, now);
      (if a.allowed then 1 else 0) + AdmittedAtInstant(Written(a), capacity, refillRate, now, n - 1)
  }

  /** At one instant no more requests are admitted than there were tokens after the refill. */
  lemma {:induction false} BurstBound(h: BucketHash, capacity: int, refillRate: int, now: int, n: nat)
    ensures AdmittedAtInstant(h, capacity, refillRate, now, n) <= Max(0, Refilled(h, capacity, refillRate, now))
    decreases n
  {
    if n > 0 {
      var a := Step(h, capacity, refillRate, now);
      var w := Written(a);
      NoSecondRefillAtOneInstant(h, capacity, refillRate, now);
      BurstBound(w, capacity, refillRate, now, n - 1);
    }
  }

  // ------------------------------------------------------------- dimensions

  /** One token-bucket check: key, capacity, refill rate and time window. */
  datatype BucketCall = BucketCall(key: string, capacity: int, refillRate: int, timeWindow: int)

  /**
   * What the IP or user strategy chosen for a rule reports about the
   * request: the identifier it extracted (maybe null) and the key it builds.
   */
  datatype Dimension = Dimension(identifier: Option<string>, key: string)

  function OrElse(v: Option<int>, d: int): int
  {
    if v.Some? then v.value else d
  }

  function PathCall(req: Request, rule: RateLimitRule): (c: BucketCall)
    ensures c.key == PathStrategy.GenerateKey(req, rule)
    ensures c.capacity == rule.bucketCapacity && c.refillRate == rule.refillRate && c.timeWindow == rule.timeWindow
  {
    BucketCall(PathStrategy.GenerateKey(req, rule), rule.bucketCapacity, rule.refillRate, rule.timeWindow)
  }

  /** checkIpRateLimit's bucket, if any: none without a strategy or an address. */
  function IpCall(rule: RateLimitRule, dim: Option<Dimension>): Option<BucketCall>
  {
    if dim.None? || dim.value.identifier.None? then None
    else Some(BucketCall(dim.value.key, OrElse(rule.ipBucketCapacity, rule.bucketCapacity),
                         OrElse(rule.ipRequestLimit, rule.refillRate), rule.timeWindow))
  }

  /** checkUserRateLimit's bucket, if any: none without a strategy or a user id. */
  function UserCall(rule: RateLimitRule, dim: Option<Dimension>): Option<BucketCall>
  {
    if dim.None? || dim.value.identifier.None? then None
    else Some(BucketCall(dim.value.key, OrElse(rule.userBucketCapacity, rule.bucketCapacity),
                         OrElse(rule.userRequestLimit, rule.refillRate), rule.timeWindow))
  }

  function OptionalCall(enabled: bool, c: Option<BucketCall>): seq<BucketCall>
  {
    if enabled && c.Some? then [c.value] else []
  }

  /** The buckets checkMultiDimensionRateLimit consults, in order: path, then IP, then user. */
  function Calls(req: Request, rule: RateLimitRule, ip: Option<Dimension>, user: Option<Dimension>): (r: seq<BucketCall>)
    ensures 1 <= |r| <= 3 && r[0] == PathCall(req, rule)
  {
    [PathCall(req, rule)] + OptionalCall(rule.enableIpLimit, IpCall(rule, ip))
      + OptionalCall(rule.enableUserLimit, UserCall(rule, user))
  }

  /** An IP bucket without its own capacity or rate borrows the rule's. */
  lemma IpFallsBack(req: Request, rule: RateLimitRule, key: string, addr: string, user: Option<Dimension>)
    requires rule.enableIpLimit
    ensures var c := Calls(req, rule, Some(Dimension(Some(addr), key)), user)[1];
            c.key == key
            && c.capacity == (if rule.ipBucketCapacity.Some? then rule.ipBucketCapacity.value else rule.bucketCapacity)
            && c.refillRate == (if rule.ipRequestLimit.Some? then rule.ipRequestLimit.value else rule.refillRate)
  {
  }

  /** A user bucket without its own capacity or rate borrows the rule's. */
  lemma UserFallsBack(req: Request, rule: RateLimitRule, ip: Option<Dimension>, key: string, userId: string)
    requires rule.enableUserLimit
    ensures var cs := Calls(req, rule, ip, Some(Dimension(Some(userId), key)));
            var c := cs[|cs| - 1];
            c.key == key
            && c.capacity == (if rule.userBucketCapacity.Some? then rule.userBucketCapacity.value else rule.bucketCapacity)
            && c.refillRate == (if rule.userRequestLimit.Some? then rule.userRequestLimit.value else rule.refillRate)
  {
  }

  /** A request without a user id is checked exactly as if user limiting were off. */
  lemma MissingUserPasses(req: Request, rule: RateLimitRule, ip: Option<Dimension>, key: string)
    ensures Calls(req, rule, ip, Some(Dimension(None, key))) == Calls(req, rule.(enableUserLimit := false), ip, None)
  {
  }

  /** Likewise a request whose address is unknown skips the IP bucket. */
  lemma MissingAddressPasses(req: Request, rule: RateLimitRule, key: string, user: Option<Dimension>)
    ensures Calls(req, rule, Some(Dimension(None, key)), user) == Calls(req, rule.(enableIpLimit := false), None, user)
  {
  }

  /** The outcome of a sequence of bucket checks that stops at the first rejection. */
  datatype Checked = Checked(allowed: bool, buckets: map<string, BucketHash>)

  function RunChecks(buckets: map<string, BucketHash>, down: bool, calls: seq<BucketCall>, now: int): (r: Checked)
    decreases |calls|
  {
    if |calls| == 0 then Checked(true, buckets)
    else if down then Checked(false, buckets)
    else
      var c := calls[0];
      var a := Step(Lookup(buckets, c.key), c.capacity, c.refillRate, now);
      var next := buckets[c.key := Written(a)];
      if !a.allowed then Checked(false, next) else RunChecks(next, down, calls[1..], now)
  }

  /** Running two lists of checks is running the first, then the second if the first passed. */
  lemma {:induction false} RunChecksAppend(buckets: map<string, BucketHash>, down: bool, xs: seq<BucketCall>, ys: seq<BucketCall>, now: int)
    ensures var r := RunChecks(buckets, down, xs, now);
            RunChecks(buckets, down, xs + ys, now) == (if r.allowed then RunChecks(r.buckets, down, ys, now) else r)
    decreases |xs|
  {
    if |xs| == 0 {
      assert xs + ys == ys;
    } else if !down {
      var c := xs[0];
      var next := buckets[c.key := Written(Step(Lookup(buckets, c.key), c.capacity, c.refillRate, now))];
      assert (xs + ys)[0] == c && (xs + ys)[1..] == xs[1..] + ys;
      RunChecksAppend(next, down, xs[1..], ys, now);
    }
  }

  /** Only the consulted buckets change. */
  lemma {:induction false} RunChecksFrame(buckets: map<string, BucketHash>, down: bool, calls: seq<BucketCall>, now: int, k: string)
    requires forall i :: 0 <= i < |calls| ==> calls[i].key != k
    ensures Lookup(RunChecks(buckets, down, calls, now).buckets, k) == Lookup(buckets, k)
    decreases |calls|
  {
    if |calls| > 0 && !down {
      var c := calls[0];
      var next := buckets[c.key := Written(Step(Lookup(buckets, c.key), c.capacity, c.refillRate, now))];
      assert Lookup(next, k) == Lookup(buckets, k);
      RunChecksFrame(next, down, calls[1..], now, k);
    }
  }

  /** An unreachable store rejects and writes nothing. */
  lemma RunChecksDown(buckets: map<string, BucketHash>, calls: seq<BucketCall>, now: int)
    requires |calls| > 0
    ensures RunChecks(buckets, true, calls, now) == Checked(false, buckets)
  {
  }

  /** A failed path bucket rejects before the IP and user buckets are touched. */
  lemma PathRejectionShortCircuits(buckets: map<string, BucketHash>, req: Request, rule: RateLimitRule,
                                   ip: Option<Dimension>, user: Option<Dimension>, now: int)
    requires !Step(Lookup(buckets, PathCall(req, rule).key), rule.bucketCapacity, rule.refillRate, now).allowed
    ensures var c := PathCall(req, rule);
            RunChecks(buckets, false, Calls(req, rule, ip, user), now)
              == Checked(false, buckets[c.key := Written(Step(Lookup(buckets, c.key), c.capacity, c.refillRate, now))])
  {
  }

  /** Passing every check means passing the first one and every later one in turn. */
  lemma {:induction false} RunChecksAllowed(buckets: map<string, BucketHash>, calls: seq<BucketCall>, now: int)
    requires |calls| > 0
    ensures var c := calls[0];
            var a := Step(Lookup(buckets, c.key), c.capacity, c.refillRate, now);
            var rest := RunChecks(buckets[c.key := Written(a)], false, calls[1..], now);
            RunChecks(buckets, false, calls, now).allowed <==> a.allowed && rest.allowed
  {
  }

  // ------------------------------------------------------------------ rules

  /** matchesRule: the pattern matches the URI, and the method is listed when the list is non-empty. */
  predicate RuleMatches(req: Request, rule: RateLimitRule)
  {
    rule.pathPattern.Some? && AntPathMatcher.AntMatch(rule.pathPattern.value, req.uri)
    && (rule.httpMethods.None? || |rule.httpMethods.value| == 0
        || (FromString(req.httpMethod).Some? && FromString(req.httpMethod).value in rule.httpMethods.value))
  }

  /** A rule without a pattern matches nothing. */
  lemma NoPatternNoMatch(req: Request, rule: RateLimitRule)
    requires rule.pathPattern.None?
    ensures !RuleMatches(req, rule)
  {
  }

  /** A listed method is recognised whatever its case; an unlisted or unknown one is refused. */
  lemma MethodListed(req: Request, rule: RateLimitRule, m: HttpMethod)
    requires rule.pathPattern.Some? && AntPathMatcher.AntMatch(rule.pathPattern.value, req.uri)
    requires rule.httpMethods.Some? && |rule.httpMethods.value| > 0
    requires req.httpMethod.Some? && EqualsIgnoreCase(MethodName(m), req.httpMethod.value)
    ensures RuleMatches(req, rule) <==> m in rule.httpMethods.value
  {
    FromStringIgnoresCase(m, req.httpMethod.value);
  }

  /** One record handed to the stats service: the rule and whether the request passed it. */
  datatype Record = Record(ruleId: string, allowed: bool)

  /** The outcome of the loop over rules: verdict, buckets afterwards and the records made. */
  datatype Decision = Decision(allowed: bool, buckets: map<string, BucketHash>, records: seq<Record>)

  /** isAllowed's loop, on values: each matching rule is checked and recorded; the first block stops it. */
  function Decide(buckets: map<string, BucketHash>, down: bool, rules: seq<RateLimitRule>, req: Request,
                  ip: RateLimitRule -> Option<Dimension>, user: RateLimitRule -> Option<Dimension>, now: int): Decision
    decreases |rules|
  {
    if |rules| == 0 then Decision(true, buckets, [])
    else if !RuleMatches(req, rules[0]) then Decide(buckets, down, rules[1..], req, ip, user, now)
    else
      var c := RunChecks(buckets, down, Calls(req, rules[0], ip(rules[0]), user(rules[0])), now);
      if !c.allowed then Decision(false, c.buckets, [Record(rules[0].id, false)])
      else
        var d := Decide(c.buckets, down, rules[1..], req, ip, user, now);
        Decision(d.allowed, d.buckets, [Record(rules[0].id, true)] + d.records)
  }

  /** The rules that match the request, in their configured order. */
  function Matching(rules: seq<RateLimitRule>, req: Request): (r: seq<RateLimitRule>)
    ensures |r| <= |rules|
    ensures forall i :: 0 <= i < |r| ==> r[i] in rules && RuleMatches(req, r[i])
  {
    if |rules| == 0 then []
    else if RuleMatches(req, rules[0]) then [rules[0]] + Matching(rules[1..], req)
    else Matching(rules[1..], req)
  }

  function RuleIds(rules: seq<RateLimitRule>): seq<string>
  {
    if |rules| == 0 then [] else [rules[0].id] + RuleIds(rules[1..])
  }

  function RecordIds(records: seq<Record>): seq<string>
  {
    if |records| == 0 then [] else [records[0].ruleId] + RecordIds(records[1..])
  }

  /**
   * The records name the first matching rules in order; all but the last
   * passed; the request is admitted exactly when every matching rule was
   * checked and passed, and is rejected at the first rule that blocks it.
   */
  predicate Shaped(d: Decision, m: seq<RateLimitRule>)
  {
    |d.records| <= |m| && RecordIds(d.records) == RuleIds(m[..|d.records|])
    && (forall i :: 0 <= i < |d.records| - 1 ==> d.records[i].allowed)
    && (d.allowed <==> |d.records| == |m| && forall i :: 0 <= i < |d.records| ==> d.records[i].allowed)
    && (!d.allowed ==> |d.records| > 0 && !d.records[|d.records| - 1].allowed)
  }

  lemma {:induction false} DecideShape(buckets: map<string, BucketHash>, down: bool, rules: seq<RateLimitRule>, req: Request,
                                       ip: RateLimitRule -> Option<Dimension>, user: RateLimitRule -> Option<Dimension>, now: int)
    ensures Shaped(Decide(buckets, down, rules, req, ip, user, now), Matching(rules, req))
    decreases |rules|
  {
    if |rules| > 0 {
      if !RuleMatches(req, rules[0]) {
        DecideShape(buckets, down, rules[1..], req, ip, user, now);
      } else {
        var m := Matching(rules[1..], req);
        assert Matching(rules, req) == [rules[0]] + m;
        var c := RunChecks(buckets, down, Calls(req, rules[0], ip(rules[0]), user(rules[0])), now);
        if c.allowed {
          DecideShape(c.buckets, down, rules[1..], req, ip, user, now);
          ShapedCons(Decide(c.buckets, down, rules[1..], req, ip, user, now), rules[0], m);
        } else {
          ShapedBlock(c.buckets, rules[0], m);
        }
      }
    }
  }

  lemma RuleIdsCons(r: RateLimitRule, m: seq<RateLimitRule>)
    ensures RuleIds([r] + m) == [r.id] + RuleIds(m)
  {
    assert ([r] + m)[1..] == m;
  }

  /** A rule that blocks ends the decision with its own record. */
  lemma ShapedBlock(buckets: map<string, BucketHash>, r: RateLimitRule, m: seq<RateLimitRule>)
    ensures Shaped(Decision(false, buckets, [Record(r.id, false)]), [r] + m)
  {
    assert ([r] + m)[..1] == [r];
    RuleIdsCons(r, []);
  }

  /** A rule that passes puts its record in front of the rest of the decision. */
  lemma ShapedCons(d: Decision, r: RateLimitRule, m: seq<RateLimitRule>)
    requires Shaped(d, m)
    ensures Shaped(Decision(d.allowed, d.buckets, [Record(r.id, true)] + d.records), [r] + m)
  {
    var recs := [Record(r.id, true)] + d.records;
    var k := |d.records|;
    assert recs[1..] == d.records;
    assert ([r] + m)[..k + 1] == [r] + m[..k];
    RuleIdsCons(r, m[..k]);
    assert forall i :: 0 < i < |recs| ==> recs[i] == d.records[i - 1];
  }

  /** With the store unreachable, the first matching rule blocks the request. */
  lemma {:induction false} DecideStoreDown(buckets: map<string, BucketHash>, rules: seq<RateLimitRule>, req: Request,
                                           ip: RateLimitRule -> Option<Dimension>, user: RateLimitRule -> Option<Dimension>, now: int)
    ensures var d := Decide(buckets, true, rules, req, ip, user, now);
            d.buckets == buckets && (d.allowed <==> |Matching(rules, req)| == 0)
    decreases |rules|
  {
    if |rules| > 0 {
      if RuleMatches(req, rules[0]) {
        RunChecksDown(buckets, Calls(req, rules[0], ip(rules[0]), user(rules[0])), now);
      } else {
        DecideStoreDown(buckets, rules[1..], req, ip, user, now);
      }
    }
  }

  // ------------------------------------------------------------ the service

  /** The service with the Redis-held buckets and the records sent to the stats service. */
  class RedisRateLimitService {
    var buckets: map<string, BucketHash>
    /** When set, every Redis call raises. */
    var down: bool
    var recorded: seq<Record>

    constructor(down: bool)
      ensures this.buckets == map[] && this.down == down && this.recorded == []
    {
      this.buckets := map[];
      this.down := down;
      this.recorded := [];
    }

    /**
     * TOKEN_BUCKET_SCRIPT on one key; None when the call raises. The
     * EXPIRE of time_window * 2 seconds is not modelled.
     */
    method RunScript(key: string, capacity: int, refillRate: int, timeWindow: int, now: int) returns (reply: Option<seq<int>>)
      modifies this
      ensures down == old(down) && recorded == old(recorded)
      ensures old(down) ==> reply.None? && buckets == old(buckets)
      ensures !old(down) ==>
                var a := Step(Lookup(old(buckets), key), capacity, refillRate, now);
                reply == Some([if a.allowed then 1 else 0, a.tokens]) && buckets == old(buckets)[key := Written(a)]
    {
      if down {
        return None;
      }
      var bucket := Lookup(buckets, key);
      var tokens := if bucket.tokens.Some? then bucket.tokens.value else capacity;
      var lastRefill := if bucket.lastRefill.Some? then bucket.lastRefill.value else now;
      var elapsed := Max(0, now - lastRefill);
      var tokensToAdd := elapsed * refillRate;
      var newLastRefill := lastRefill;
      if tokensToAdd > 0 {
        tokens := Min(capacity, tokens + tokensToAdd);
        newLastRefill := now;
      }
      var allowed := 0;
      if tokens > 0 {
        tokens := tokens - 1;
        allowed := 1;
      }
      buckets := buckets[key := BucketHash(Some(tokens), Some(newLastRefill))];
      reply := Some([allowed, tokens]);
    }

    /** checkTokenBucket: a well-formed reply whose first element is 1 admits; an error or odd reply rejects. */
    method CheckTokenBucket(c: BucketCall, now: int) returns (allowed: bool)
      modifies this
      ensures down == old(down) && recorded == old(recorded)
      ensures Checked(allowed, buckets) == RunChecks(old(buckets), down, [c], now)
    {
      var reply := RunScript(c.key, c.capacity, c.refillRate, c.timeWindow, now);
      allowed := reply.Some? && |reply.value| >= 2 && reply.value[0] == 1;
    }

    /** checkIpRateLimit: no strategy or no address passes; otherwise the IP bucket decides. */
    method CheckIpRateLimit(rule: RateLimitRule, ip: Option<Dimension>, now: int) returns (allowed: bool)
      modifies this
      ensures down == old(down) && recorded == old(recorded)
      ensures Checked(allowed, buckets) == RunChecks(old(buckets), down, OptionalCall(true, IpCall(rule, ip)), now)
    {
      if ip.None? || ip.value.identifier.None? {
        return true;
      }
      var capacity := if rule.ipBucketCapacity.Some? then rule.ipBucketCapacity.value else rule.bucketCapacity;
      var rate := if rule.ipRequestLimit.Some? then rule.ipRequestLimit.value else rule.refillRate;
      allowed := CheckTokenBucket(BucketCall(ip.value.key, capacity, rate, rule.timeWindow), now);
    }

    /** checkUserRateLimit: no strategy or no user id passes; otherwise the user bucket decides. */
    method CheckUserRateLimit(rule: RateLimitRule, user: Option<Dimension>, now: int) returns (allowed: bool)
      modifies this
      ensures down == old(down) && recorded == old(recorded)
      ensures Checked(allowed, buckets) == RunChecks(old(buckets), down, OptionalCall(true, UserCall(rule, user)), now)
    {
      if user.None? || user.value.identifier.None? {
        return true;
      }
      var capacity := if rule.userBucketCapacity.Some? then rule.userBucketCapacity.value else rule.bucketCapacity;
      var rate := if rule.userRequestLimit.Some? then rule.userRequestLimit.value else rule.refillRate;
      allowed := CheckTokenBucket(BucketCall(user.value.key, capacity, rate, rule.timeWindow), now);
    }

    /** checkMultiDimensionRateLimit: path, then IP if enabled, then user if enabled; the first failure rejects. */
    method CheckMultiDimension(req: Request, rule: RateLimitRule, ip: Option<Dimension>, user: Option<Dimension>, now: int)
      returns (allowed: bool)
      modifies this
      ensures down == old(down) && recorded == old(recorded)
      ensures Checked(allowed, buckets) == RunChecks(old(buckets), down, Calls(req, rule, ip, user), now)
    {
      var pathCalls := [PathCall(req, rule)];
      var ipCalls := OptionalCall(rule.enableIpLimit, IpCall(rule, ip));
      var userCalls := OptionalCall(rule.enableUserLimit, UserCall(rule, user));
      RunChecksAppend(old(buckets), down, pathCalls + ipCalls, userCalls, now);
      RunChecksAppend(old(buckets), down, pathCalls, ipCalls, now);
      assert Calls(req, rule, ip, user) == (pathCalls + ipCalls) + userCalls;
      allowed := CheckTokenBucket(PathCall(req, rule), now);
      if !allowed {
        return false;
      }
      ghost var afterPath := buckets;
      if rule.enableIpLimit {
        allowed := CheckIpRateLimit(rule, ip, now);
        if !allowed {
          return false;
        }
      } else {
        assert RunChecks(afterPath, down, ipCalls, now) == Checked(true, afterPath);
      }
      ghost var afterIp := buckets;
      if rule.enableUserLimit {
        allowed := CheckUserRateLimit(rule, user, now);
        if !allowed {
          return false;
        }
      } else {
        assert RunChecks(afterIp, down, userCalls, now) == Checked(true, afterIp);
      }
      return true;
    }

    /** matchesRule, through the segment matcher. */
    method MatchesRule(req: Request, rule: RateLimitRule) returns (r: bool)
      ensures r == RuleMatches(req, rule)
    {
      var pathOk := AntPathMatcher.Match(rule.pathPattern, Some(req.uri));
      if !pathOk {
        return false;
      }
      if rule.httpMethods.Some? && |rule.httpMethods.value| > 0 {
        var m := FromString(req.httpMethod);
        if m.None? || m.value !in rule.httpMethods.value {
          return false;
        }
      }
      return true;
    }

    /**
     * isAllowed(request): the loop over the enabled rules. None for the
     * rules stands for the configuration service raising, which admits.
     */
    method IsAllowed(req: Request, rules: Option<seq<RateLimitRule>>,
                     ip: RateLimitRule -> Option<Dimension>, user: RateLimitRule -> Option<Dimension>, now: int)
      returns (allowed: bool)
      modifies this
      ensures down == old(down)
      ensures rules.None? ==> allowed && buckets == old(buckets) && recorded == old(recorded)
      ensures rules.Some? ==>
                var d := Decide(old(buckets), down, rules.value, req, ip, user, now);
                allowed == d.allowed && buckets == d.buckets && recorded == old(recorded) + d.records
    {
      if rules.None? {
        return true;
      }
      var rs := rules.value;
      var i := 0;
      while i < |rs|
        invariant 0 <= i <= |rs| && down == old(down)
        invariant var d0 := Decide(old(buckets), down, rs, req, ip, user, now);
                  var d := Decide(buckets, down, rs[i..], req, ip, user, now);
                  d0.allowed == d.allowed && d0.buckets == d.buckets && old(recorded) + d0.records == recorded + d.records
      {
        assert rs[i..] == [rs[i]] + rs[i + 1..];
        var blocked := CheckRule(req, rs[i], rs[i + 1..], ip, user, now);
        if blocked {
          return false;
        }
        i := i + 1;
      }
      return true;
    }

    /**
     * One turn of isAllowed's loop: a rule that matches is checked and
     * recorded. It blocks exactly when the decision over it and the rules
     * after it ends here; otherwise that decision is the one over the rest.
     */
    method CheckRule(req: Request, rule: RateLimitRule, ghost rest: seq<RateLimitRule>,
                     ip: RateLimitRule -> Option<Dimension>, user: RateLimitRule -> Option<Dimension>, now: int)
      returns (blocked: bool)
      modifies this
      ensures down == old(down)
      ensures var d := Decide(old(buckets), down, [rule] + rest, req, ip, user, now);
              blocked ==> !d.allowed && buckets == d.buckets && recorded == old(recorded) + d.records
      ensures var d := Decide(old(buckets), down, [rule] + rest, req, ip, user, now);
              var e := Decide(buckets, down, rest, req, ip, user, now);
              !blocked ==> d.allowed == e.allowed && d.buckets == e.buckets && old(recorded) + d.records == recorded + e.records
    {
      assert ([rule] + rest)[0] == rule && ([rule] + rest)[1..] == rest;
      var matches := MatchesRule(req, rule);
      if matches {
        var ok := CheckMultiDimension(req, rule, ip(rule), user(rule), now);
        ghost var e := Decide(buckets, down, rest, req, ip, user, now);
        AppendAssoc(old(recorded), [Record(rule.id, ok)], e.records);
        recorded := recorded + [Record(rule.id, ok)];
        return !ok;
      }
      return false;
    }

    /** isAllowed(request, rule): an absent or disabled rule admits; otherwise only the path bucket counts. */
    method IsAllowedForRule(req: Request, rule: Option<RateLimitRule>, now: int) returns (allowed: bool)
      modifies this
      ensures down == old(down) && recorded == old(recorded)
      ensures (rule.None? || !rule.value.enabled) ==> allowed && buckets == old(buckets)
      ensures rule.Some? && rule.value.enabled ==>
                Checked(allowed, buckets) == RunChecks(old(buckets), down, [PathCall(req, rule.value)], now)
    {
      if rule.None? || !rule.value.enabled {
        return true;
      }
      allowed := CheckTokenBucket(PathCall(req, rule.value), now);
    }
  }
}
