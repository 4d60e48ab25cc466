/**
 * The dashboard controller's endpoints that compute something: the
 * validation of a rule before it is saved, the overview of the IP and user
 * dimensions, and the generation of test statistics. The configuration
 * service and the detailed statistics are parameters; the statistics
 * service is the object its endpoints update.
 */
module RateLimitControllers {
  import opened Text
  import opened Requests
  import StatsService
  import RedisKeys
  import Values

  // ------------------------------------------------------------ saveRule

  /** The fields of a submitted rule that saveRule checks before handing it to the configuration service. */
  datatype SubmittedRule = SubmittedRule(name: Option<string>, pathPattern: Option<string>, bucketCapacity: int, refillRate: int, timeWindow: int)

  /** The response: 200 or 400, the success flag and message, and whether the configuration service was asked to save. */
  datatype SaveResponse = SaveResponse(ok: bool, success: bool, message: string, saveCalled: bool)

  const NameRequired: string := "规则名称不能为空"
  const PathRequired: string := "路径模式不能为空"
  const BucketInvalid: string := "令牌桶参数必须大于0"
  const SaveSucceeded: string := "保存成功"
  const SaveFailedPrefix: string := "保存失败: "

  /** A string that is neither null nor blank after trim(). */
  predicate Present(s: Option<string>)
  {
    s.Some? && !IsBlank(s.value)
  }

  predicate BucketValid(rule: SubmittedRule)
  {
    rule.bucketCapacity > 0 && rule.refillRate > 0 && rule.timeWindow > 0
  }

  predicate Valid(rule: SubmittedRule)
  {
    Present(rule.name) && Present(rule.pathPattern) && BucketValid(rule)
  }

  /**
   * saveRule. saveError is the message of the exception the configuration
   * service throws while saving, if it throws (Java's text for a null message
   * is "null").
   */
  function SaveRule(rule: SubmittedRule, saveError: Option<string>): (r: SaveResponse)
    ensures r.saveCalled <==> Valid(rule)
    ensures r.success <==> Valid(rule) && saveError.None?
    ensures r.ok <==> r.success
    ensures !Present(rule.name) ==> r.message == NameRequired
    ensures Present(rule.name) && !Present(rule.pathPattern) ==> r.message == PathRequired
    ensures Present(rule.name) && Present(rule.pathPattern) && !BucketValid(rule) ==> r.message == BucketInvalid
    ensures Valid(rule) && saveError.Some? ==> r.message == SaveFailedPrefix + saveError.value
    ensures r.success ==> r.message == SaveSucceeded
  {
    if rule.name.None? || IsBlank(rule.name.value) then SaveResponse(false, false, NameRequired, false)
    else if rule.pathPattern.None? || IsBlank(rule.pathPattern.value) then SaveResponse(false, false, PathRequired, false)
    else if rule.bucketCapacity <= 0 || rule.refillRate <= 0 || rule.timeWindow <= 0 then SaveResponse(false, false, BucketInvalid, false)
    else match saveError
      case None => SaveResponse(true, true, SaveSucceeded, true)
      case Some(e) => SaveResponse(false, false, SaveFailedPrefix + e, true)
  }

  /** The message tells the outcome apart: the three rejections, success and a failed save have distinct messages. */
  lemma SaveMessagesDistinct(e: string)
    ensures NameRequired != PathRequired && NameRequired != BucketInvalid && PathRequired != BucketInvalid
    ensures SaveSucceeded !in {NameRequired, PathRequired, BucketInvalid, SaveFailedPrefix + e}
    ensures SaveFailedPrefix + e !in {NameRequired, PathRequired, BucketInvalid}
  {
    var f := SaveFailedPrefix + e;
    assert f[0] == '保' && f[3] == '败';
    assert SaveSucceeded[3] == '功';
    assert NameRequired[0] == '规' && PathRequired[0] == '路' && BucketInvalid[0] == '令';
  }

  /** Two submissions get the same response when they fail at the same first check, whatever their later fields. */
  lemma FirstFailureDecides(a: SubmittedRule, b: SubmittedRule, ea: Option<string>, eb: Option<string>)
    requires !Valid(a) && !Valid(b)
    requires Present(a.name) == Present(b.name)
    requires Present(a.name) ==> Present(a.pathPattern) == Present(b.pathPattern)
    ensures SaveRule(a, ea) == SaveRule(b, eb)
  {
  }

  // ------------------------------------------------------------ getDimensionOverview

  /** The number of stats, out of the blocked counts of a dimension's values, with any blocked request. */
  function CountBlocked(blocked: seq<int>): (r: nat)
    ensures r <= |blocked|
    ensures r == |blocked| <==> forall i :: 0 <= i < |blocked| ==> blocked[i] > 0
    ensures r == 0 <==> forall i :: 0 <= i < |blocked| ==> blocked[i] <= 0
  {
    if |blocked| == 0 then 0
    else CountBlocked(blocked[..|blocked| - 1]) + (if blocked[|blocked| - 1] > 0 then 1 else 0)
  }

  /** The counters of one dimension: the number of stats and of those with blocked requests. */
  datatype Tally = Tally(total: int, blocked: int)

  predicate LimitsDimension(rule: RateLimitRule, ip: bool)
  {
    if ip then rule.enableIpLimit else rule.enableUserLimit
  }

  /**
   * The tally over the rules limiting the dimension (IP when ip, else user);
   * stats gives the blocked counts of the listed stats of a rule's dimension values.
   */
  function TallyOf(rules: seq<RateLimitRule>, ip: bool, stats: string -> seq<int>): (r: Tally)
    ensures 0 <= r.blocked <= r.total
  {
    if |rules| == 0 then Tally(0, 0)
    else
      var t := TallyOf(rules[..|rules| - 1], ip, stats);
      var rule := rules[|rules| - 1];
      if LimitsDimension(rule, ip) then
        var b := stats(rule.id);
        Tally(t.total + |b|, t.blocked + CountBlocked(b))
      else t
  }

  /** Rules that do not limit the dimension add nothing to its tally. */
  lemma {:induction false} TallyIgnoresOtherRules(rules: seq<RateLimitRule>, ip: bool, stats: string -> seq<int>)
    requires forall i :: 0 <= i < |rules| ==> !LimitsDimension(rules[i], ip)
    ensures TallyOf(rules, ip, stats) == Tally(0, 0)
  {
    if |rules| > 0 {
      TallyIgnoresOtherRules(rules[..|rules| - 1], ip, stats);
    }
  }

  datatype Overview = Overview(totalCount: int, blockedCount: int, activeCount: int)

  /** The overview of one dimension: its tally and the stats without blocked requests. */
  function OverviewOf(t: Tally): (r: Overview)
    ensures r.totalCount == t.total && r.blockedCount == t.blocked
    ensures r.activeCount == r.totalCount - r.blockedCount
  {
    Overview(t.total, t.blocked, t.total - t.blocked)
  }

  /** getDimensionOverview over the configured rules; ipStats and userStats list the blocked counts of a rule's IP and user stats. */
  method GetDimensionOverview(rules: seq<RateLimitRule>, ipStats: string -> seq<int>, userStats: string -> seq<int>)
    returns (ip: Overview, user: Overview)
    ensures ip == OverviewOf(TallyOf(rules, true, ipStats)) && user == OverviewOf(TallyOf(rules, false, userStats))
    ensures 0 <= ip.activeCount <= ip.totalCount && 0 <= ip.blockedCount <= ip.totalCount
    ensures 0 <= user.activeCount <= user.totalCount && 0 <= user.blockedCount <= user.totalCount
  {
    var totalIpCount, blockedIpCount, totalUserCount, blockedUserCount := 0, 0, 0, 0;
    var k := 0;
    while k < |rules|
      invariant 0 <= k <= |rules|
      invariant TallyOf(rules[..k], true, ipStats) == Tally(totalIpCount, blockedIpCount)
      invariant TallyOf(rules[..k], false, userStats) == Tally(totalUserCount, blockedUserCount)
    {
      assert rules[..k + 1][..k] == rules[..k];
      var rule := rules[k];
      if rule.enableIpLimit {
        var s := ipStats(rule.id);
        totalIpCount := totalIpCount + |s|;
        blockedIpCount := blockedIpCount + CountBlocked(s);
      }
      if rule.enableUserLimit {
        var s := userStats(rule.id);
        totalUserCount := totalUserCount + |s|;
        blockedUserCount := blockedUserCount + CountBlocked(s);
      }
      k := k + 1;
    }
    assert rules[..k] == rules;
    ip := Overview(totalIpCount, blockedIpCount, totalIpCount - blockedIpCount);
    user := Overview(totalUserCount, blockedUserCount, totalUserCount - blockedUserCount);
  }

  // ------------------------------------------------------------ generateTestData

  const RecordsPerRule: nat := 50
  const NoRules: string := "没有找到限流规则，请先创建规则"
  const Generated: string := "测试数据生成成功"

  datatype GenerateResponse = GenerateResponse(ok: bool, success: bool, message: string, rulesCount: Option<int>)

  /** n steps of f from s, the step's index as its second argument. */
  function Iterate<S>(f: (S, nat) -> S, s: S, n: nat): S
  {
    if n == 0 then s else f(Iterate(f, s, n - 1), n - 1)
  }

  /** A property q(t, i) that each step carries from i to i + 1 holds after n steps. */
  lemma {:induction false} IterateKeeps<S>(f: (S, nat) -> S, s: S, n: nat, q: (S, nat) -> bool)
    requires q(s, 0)
    requires forall t, i: nat :: i < n && q(t, i) ==> q(f(t, i), i + 1)
    ensures q(Iterate(f, s, n), n)
  {
    if n > 0 {
      IterateKeeps(f, s, n - 1, q);
    }
  }

  /** Request i of the rule at index k; coin(k, i) stands for the random draw that makes it allowed. */
  function RecordStep(prefix: string, ruleId: string, k: nat, coin: (nat, nat) -> bool, now: int): (StatsService.Hashes, nat) -> StatsService.Hashes
  {
    (t: StatsService.Hashes, i: nat) => StatsService.Recorded(t, prefix, ruleId, coin(k, i), now)
  }

  /** The store after the 50 requests of the rule at index k. */
  function RecordMany(s: StatsService.Hashes, prefix: string, ruleId: string, k: nat, coin: (nat, nat) -> bool, now: int): StatsService.Hashes
  {
    Iterate(RecordStep(prefix, ruleId, k, coin, now), s, RecordsPerRule)
  }

  /** The store after 50 requests for each rule, rule by rule. */
  function GeneratedStore(s: StatsService.Hashes, prefix: string, rules: seq<RateLimitRule>, coin: (nat, nat) -> bool, now: int): StatsService.Hashes
  {
    if |rules| == 0 then s
    else RecordMany(GeneratedStore(s, prefix, rules[..|rules| - 1], coin, now), prefix, rules[|rules| - 1].id, |rules| - 1, coin, now)
  }

  /** The 50 requests generateTestData records for the rule at index k. */
  method RecordRule(stats: StatsService.RedisRateLimitStatsService, ruleId: string, k: nat, coin: (nat, nat) -> bool, now: int)
    modifies stats
    ensures stats.hashes == if stats.down then old(stats.hashes) else RecordMany(old(stats.hashes), stats.prefix, ruleId, k, coin, now)
  {
    ghost var base := stats.hashes;
    ghost var f := RecordStep(stats.prefix, ruleId, k, coin, now);
    var i := 0;
    while i < RecordsPerRule
      invariant 0 <= i <= RecordsPerRule
      invariant stats.hashes == if stats.down then base else Iterate(f, base, i)
    {
      RecordOne(stats, ruleId, k, coin, now, base, i);
      i := i + 1;
    }
  }

  /** Request i of the rule at index k: one step of the loop in RecordRule. */
  method RecordOne(stats: StatsService.RedisRateLimitStatsService, ruleId: string, k: nat, coin: (nat, nat) -> bool, now: int,
                   ghost base: StatsService.Hashes, i: nat)
    requires stats.hashes == if stats.down then base else Iterate(RecordStep(stats.prefix, ruleId, k, coin, now), base, i)
    modifies stats
    ensures stats.hashes == if stats.down then base else Iterate(RecordStep(stats.prefix, ruleId, k, coin, now), base, i + 1)
  {
    ghost var before := stats.hashes;
    stats.RecordRequest(ruleId, coin(k, i), now);
    StepRecords(before, stats.hashes, base, stats.down, stats.prefix, ruleId, k, coin, now, i);
  }

  /** One more step of the loop in RecordRule: nothing when Redis is down, one more recorded request when it is up. */
  lemma StepRecords(before: StatsService.Hashes, after: StatsService.Hashes, base: StatsService.Hashes, down: bool,
                    prefix: string, ruleId: string, k: nat, coin: (nat, nat) -> bool, now: int, i: nat)
    requires down ==> after == before && before == base
    requires !down ==> after == StatsService.Recorded(before, prefix, ruleId, coin(k, i), now)
    requires !down ==> before == Iterate(RecordStep(prefix, ruleId, k, coin, now), base, i)
    ensures down ==> after == base
    ensures !down ==> after == Iterate(RecordStep(prefix, ruleId, k, coin, now), base, i + 1)
  {
  }

  /** generateTestData, at clock reading now: nothing is recorded when there is no rule. */
  method GenerateTestData(rules: seq<RateLimitRule>, stats: StatsService.RedisRateLimitStatsService, coin: (nat, nat) -> bool, now: int)
    returns (r: GenerateResponse)
    modifies stats
    ensures r.success <==> |rules| > 0
    ensures r.ok <==> r.success
    ensures |rules| == 0 ==> r.message == NoRules && stats.hashes == old(stats.hashes)
    ensures |rules| > 0 ==> r.message == Generated && r.rulesCount == Some(|rules|)
    ensures stats.hashes == if stats.down then old(stats.hashes) else GeneratedStore(old(stats.hashes), stats.prefix, rules, coin, now)
  {
    if |rules| == 0 {
      return GenerateResponse(false, false, NoRules, None);
    }
    ghost var s0 := stats.hashes;
    var k := 0;
    while k < |rules|
      invariant 0 <= k <= |rules|
      invariant stats.hashes == if stats.down then s0 else GeneratedStore(s0, stats.prefix, rules[..k], coin, now)
    {
      assert rules[..k + 1][..k] == rules[..k];
      RecordRule(stats, rules[k].id, k, coin, now);
      k := k + 1;
    }
    assert rules[..k] == rules;
    r := GenerateResponse(true, true, Generated, Some(|rules|));
  }

  // ------------------------------------------------------------ what the generated data satisfies

  /** Recording for one rule leaves every other rule's counters as they were. */
  lemma RecordLeavesOtherRules(s: StatsService.Hashes, prefix: string, ruleId: string, x: string, allowed: bool, now: int)
    requires x != ruleId
    ensures StatsService.HashAt(StatsService.Recorded(s, prefix, ruleId, allowed, now), RedisKeys.StatsKey(prefix, x)) ==
            StatsService.HashAt(s, RedisKeys.StatsKey(prefix, x))
  {
    var key := RedisKeys.StatsKey(prefix, ruleId);
    var kx := RedisKeys.StatsKey(prefix, x);
    if kx == key {
      RedisKeys.StatsKeyInjective(prefix, x, ruleId);
    }
    var rt := RedisKeys.RealtimeKey(prefix, ruleId, StatsService.MinuteOf(now));
    StatsService.StatsNotRealtime(prefix, x, ruleId, StatsService.MinuteOf(now));
    var st := StatsService.CountOne(s, key, StatsService.TotalField, StatsService.AllowedField, StatsService.BlockedField, allowed);
    if st.ok {
      var s2 := st.store[key := StatsService.HashAt(st.store, key)[StatsService.LastTimeField := Values.Num(now)]];
      StatsService.RealtimeLeavesOthers(s2, rt, kx, allowed);
    }
  }

  function TotalOf(s: StatsService.Hashes, prefix: string, x: string): int
  {
    StatsService.GetLongValue(StatsService.HashAt(s, RedisKeys.StatsKey(prefix, x)), StatsService.TotalField)
  }

  /** The 50 requests add 50 to the rule's total and keep its counters adding up, unless that passes the 64-bit range. */
  lemma RecordManyCounts(s: StatsService.Hashes, prefix: string, ruleId: string, k: nat, coin: (nat, nat) -> bool, now: int)
    requires StatsService.Consistent(StatsService.HashAt(s, RedisKeys.StatsKey(prefix, ruleId)))
    requires TotalOf(s, prefix, ruleId) + RecordsPerRule <= LONG_MAX
    ensures var s' := RecordMany(s, prefix, ruleId, k, coin, now);
      StatsService.Consistent(StatsService.HashAt(s', RedisKeys.StatsKey(prefix, ruleId))) &&
      TotalOf(s', prefix, ruleId) == TotalOf(s, prefix, ruleId) + RecordsPerRule
  {
    var f := RecordStep(prefix, ruleId, k, coin, now);
    var base := TotalOf(s, prefix, ruleId);
    var q := (t, i: nat) => StatsService.Consistent(StatsService.HashAt(t, RedisKeys.StatsKey(prefix, ruleId))) && TotalOf(t, prefix, ruleId) == base + i;
    forall t, i: nat | i < RecordsPerRule && q(t, i)
      ensures q(f(t, i), i + 1)
    {
      StatsService.RecordKeepsConsistent(t, prefix, ruleId, coin(k, i), now);
    }
    IterateKeeps(f, s, RecordsPerRule, q);
  }

  /** The 50 requests of one rule leave every other rule's counters as they were. */
  lemma RecordManyLeavesOtherRules(s: StatsService.Hashes, prefix: string, ruleId: string, x: string, k: nat, coin: (nat, nat) -> bool, now: int)
    requires x != ruleId
    ensures StatsService.HashAt(RecordMany(s, prefix, ruleId, k, coin, now), RedisKeys.StatsKey(prefix, x)) ==
            StatsService.HashAt(s, RedisKeys.StatsKey(prefix, x))
  {
    var f := RecordStep(prefix, ruleId, k, coin, now);
    var h := StatsService.HashAt(s, RedisKeys.StatsKey(prefix, x));
    var q := (t, i: nat) => StatsService.HashAt(t, RedisKeys.StatsKey(prefix, x)) == h;
    forall t, i: nat | i < RecordsPerRule && q(t, i)
      ensures q(f(t, i), i + 1)
    {
      RecordLeavesOtherRules(t, prefix, ruleId, x, coin(k, i), now);
    }
    IterateKeeps(f, s, RecordsPerRule, q);
  }

  /** How many rules have the id. */
  function Occurrences(rules: seq<RateLimitRule>, x: string): (r: nat)
    ensures r <= |rules|
  {
    if |rules| == 0 then 0
    else Occurrences(rules[..|rules| - 1], x) + (if rules[|rules| - 1].id == x then 1 else 0)
  }

  /** generateTestData adds 50 requests to a rule's total for each rule with its id, keeping the counters adding up. */
  lemma {:induction false} GeneratedCounts(s: StatsService.Hashes, prefix: string, rules: seq<RateLimitRule>, coin: (nat, nat) -> bool, now: int, x: string)
    requires StatsService.Consistent(StatsService.HashAt(s, RedisKeys.StatsKey(prefix, x)))
    requires TotalOf(s, prefix, x) + RecordsPerRule * Occurrences(rules, x) <= LONG_MAX
    ensures var s' := GeneratedStore(s, prefix, rules, coin, now);
      StatsService.Consistent(StatsService.HashAt(s', RedisKeys.StatsKey(prefix, x))) &&
      TotalOf(s', prefix, x) == TotalOf(s, prefix, x) + RecordsPerRule * Occurrences(rules, x)
  {
    if |rules| > 0 {
      var init := rules[..|rules| - 1];
      var last := rules[|rules| - 1];
      GeneratedCounts(s, prefix, init, coin, now, x);
      var mid := GeneratedStore(s, prefix, init, coin, now);
      if last.id == x {
        RecordManyCounts(mid, prefix, x, |rules| - 1, coin, now);
      } else {
        RecordManyLeavesOtherRules(mid, prefix, last.id, x, |rules| - 1, coin, now);
      }
    }
  }
}
