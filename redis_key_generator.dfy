/**
 * The Redis key builders of the rate limiter: every key is the
 * configured prefix, a colon, and a fixed namespace followed by the
 * rule id and further parts. The prefix lives in a generator object whose
 * constructor and setter change it; the builders are string concatenation
 * over the prefix's text.
 */
module RedisKeys {
  import opened Text

  const DefaultPrefix: string := "xports"
  const RuleConfigPrefix: string := "rate_limit:config:rule:"
  const RuleListKey: string := "rate_limit:config:rules"
  const StatsPrefix: string := "rate_limit:stats:"
  const BucketPrefix: string := "rate_limit:bucket:"

  /** The text Java's string concatenation gives a possibly-null prefix. */
  function PrefixText(p: Option<string>): string
  {
    if p.Some? then p.value else "null"
  }

  class RedisKeyGenerator {
    var redisKeyPrefix: Option<string>

    /** The constructor as written: the argument replaces "xports" only when it is a non-null BLANK string. */
    constructor (redisKeyPrefix: Option<string>)
      ensures redisKeyPrefix.Some? && IsBlank(redisKeyPrefix.value) ==> this.redisKeyPrefix == redisKeyPrefix
      ensures !(redisKeyPrefix.Some? && IsBlank(redisKeyPrefix.value)) ==> this.redisKeyPrefix == Some(DefaultPrefix)
    {
      if redisKeyPrefix.Some? && IsBlank(redisKeyPrefix.value) {
        this.redisKeyPrefix := redisKeyPrefix;
      } else {
        this.redisKeyPrefix := Some(DefaultPrefix);
      }
    }

    /** The constructor as evidently intended: a non-blank argument replaces "xports". */
    constructor Corrected(redisKeyPrefix: Option<string>)
      ensures redisKeyPrefix.Some? && !IsBlank(redisKeyPrefix.value) ==> this.redisKeyPrefix == redisKeyPrefix
      ensures !(redisKeyPrefix.Some? && !IsBlank(redisKeyPrefix.value)) ==> this.redisKeyPrefix == Some(DefaultPrefix)
    {
      if redisKeyPrefix.Some? && !IsBlank(redisKeyPrefix.value) {
        this.redisKeyPrefix := redisKeyPrefix;
      } else {
        this.redisKeyPrefix := Some(DefaultPrefix);
      }
    }

    method SetRedisKeyPrefix(redisKeyPrefix: Option<string>)
      modifies this
      ensures this.redisKeyPrefix == redisKeyPrefix
    {
      this.redisKeyPrefix := redisKeyPrefix;
    }

    /** getRedisKeyPrefix, as the builders concatenate it. */
    function Prefix(): string
      reads this
    {
      PrefixText(redisKeyPrefix)
    }
  }

  /** The constructor as written keeps "xports" for the prefix "myapp"; the corrected one takes it. */
  method ConstructorIgnoresPrefixAsWritten() returns (asWritten: string, corrected: string)
    ensures asWritten == DefaultPrefix && corrected == "myapp"
  {
    NotBlankFirst("myapp");
    var g := new RedisKeyGenerator(Some("myapp"));
    var h := new RedisKeyGenerator.Corrected(Some("myapp"));
    asWritten := g.Prefix();
    corrected := h.Prefix();
  }

  /** The corrected constructor yields a prefix that is never blank; the one as written yields a blank prefix whenever it takes the argument. */
  method ConstructorPrefixes(p: Option<string>) returns (asWritten: string, corrected: string)
    ensures p.Some? && !IsBlank(p.value) ==> asWritten == DefaultPrefix && corrected == p.value
    ensures !IsBlank(corrected)
    ensures p.Some? && IsBlank(p.value) ==> IsBlank(asWritten)
  {
    NotBlankFirst(DefaultPrefix);
    var g := new RedisKeyGenerator(p);
    var h := new RedisKeyGenerator.Corrected(p);
    asWritten := g.Prefix();
    corrected := h.Prefix();
  }

  lemma NotBlankFirst(s: string)
    requires |s| > 0 && s[0] > ' '
    ensures !IsBlank(s)
  {
    BlankIffAllTrimmed(s);
  }

  // ------------------------------------------------------------ the builders

  /** A key: the prefix, a colon, and the rest. */
  predicate Under(key: string, p: string, rest: string)
  {
    key == p + ":" + rest
  }

  function RuleConfigKey(p: string, ruleId: string): (r: string)
    ensures StartsWith(r, p + ":") && Under(r, p, RuleConfigPrefix + ruleId)
  {
    PrefixLemma(p, RuleConfigPrefix + ruleId);
    p + ":" + RuleConfigPrefix + ruleId
  }

  function StatsKey(p: string, ruleId: string): (r: string)
    ensures StartsWith(r, p + ":") && Under(r, p, StatsPrefix + ruleId)
  {
    PrefixLemma(p, StatsPrefix + ruleId);
    p + ":" + StatsPrefix + ruleId
  }

  function BucketKey(p: string, ruleId: string, identifier: string): (r: string)
    ensures StartsWith(r, p + ":") && Under(r, p, BucketPrefix + ruleId + ":" + identifier)
  {
    PrefixLemma(p, BucketPrefix + ruleId + ":" + identifier);
    p + ":" + BucketPrefix + ruleId + ":" + identifier
  }

  /** The window of a clock reading: now / (timeWindow * 1000) in Java's long division; a zero window throws. */
  function Window(timeWindow: int, nowMillis: int): (r: Option<int>)
    ensures r.None? <==> timeWindow == 0
    ensures nowMillis >= 0 && timeWindow > 0 ==> r == Some(nowMillis / (timeWindow * 1000))
  {
    if timeWindow == 0 then None else Some(JavaDiv(nowMillis, timeWindow * 1000))
  }

  /** generateBucketKeyWithWindow, with the clock as a parameter; None is the division by zero. */
  function BucketKeyWithWindow(p: string, ruleId: string, identifier: string, timeWindow: int, nowMillis: int): (r: Option<string>)
    ensures r.None? <==> timeWindow == 0
    ensures r.Some? ==> StartsWith(r.value, BucketKey(p, ruleId, identifier) + ":")
  {
    match Window(timeWindow, nowMillis)
    case None => None
    case Some(w) =>
      var k := BucketKey(p, ruleId, identifier);
      PrefixLemma(k, IntToString(w));
      Some(k + ":" + IntToString(w))
  }

  function GlobalStatsKey(p: string): (r: string)
    ensures StartsWith(r, p + ":") && Under(r, p, "stats:global")
  {
    PrefixLemma(p, "stats:global");
    p + ":stats:global"
  }

  function RuleEnabledKey(p: string, ruleId: string): (r: string)
    ensures StartsWith(r, p + ":") && Under(r, p, "enabled:" + ruleId)
  {
    PrefixLemma(p, "enabled:" + ruleId);
    p + ":enabled:" + ruleId
  }

  function DetailedStatsKey(p: string, ruleId: string, dimension: string, dimensionValue: string): (r: string)
    ensures StartsWith(r, p + ":") && Under(r, p, "detailed_stats:" + ruleId + ":" + dimension + ":" + dimensionValue)
  {
    PrefixLemma(p, "detailed_stats:" + ruleId + ":" + dimension + ":" + dimensionValue);
    p + ":detailed_stats:" + ruleId + ":" + dimension + ":" + dimensionValue
  }

  function DimensionListKey(p: string, ruleId: string, dimension: string): (r: string)
    ensures StartsWith(r, p + ":") && Under(r, p, "rate_limit:dimension_list:" + ruleId + ":" + dimension)
  {
    PrefixLemma(p, "rate_limit:dimension_list:" + ruleId + ":" + dimension);
    p + ":" + "rate_limit:dimension_list:" + ruleId + ":" + dimension
  }

  function GenerateKey(p: string, key: string): (r: string)
    ensures StartsWith(r, p + ":") && Under(r, p, key)
  {
    PrefixLemma(p, key);
    p + ":" + key
  }

  function RecordKey(p: string, ruleId: string, id: string): (r: string)
    ensures StartsWith(r, p + ":") && Under(r, p, "rate_limit:records:" + ruleId + ":" + id)
  {
    PrefixLemma(p, "rate_limit:records:" + ruleId + ":" + id);
    p + ":" + "rate_limit:records:" + ruleId + ":" + id
  }

  function TimeIndexKey(p: string, ruleId: string): (r: string)
    ensures StartsWith(r, p + ":") && Under(r, p, "rate_limit:time_index:" + ruleId)
  {
    PrefixLemma(p, "rate_limit:time_index:" + ruleId);
    p + ":" + "rate_limit:time_index:" + ruleId
  }

  function GlobalTimeIndexKey(p: string): (r: string)
    ensures StartsWith(r, p + ":") && Under(r, p, "rate_limit:global_time_index")
  {
    PrefixLemma(p, "rate_limit:global_time_index");
    p + ":" + "rate_limit:global_time_index"
  }

  function RealtimeKey(p: string, ruleId: string, currentMinute: int): (r: string)
    ensures StartsWith(r, p + ":") && Under(r, p, "rate_limit:realtime:" + ruleId + ":" + IntToString(currentMinute))
  {
    PrefixLemma(p, "rate_limit:realtime:" + ruleId + ":" + IntToString(currentMinute));
    p + ":" + "rate_limit:realtime:" + ruleId + ":" + IntToString(currentMinute)
  }

  lemma PrefixLemma(p: string, rest: string)
    ensures StartsWith(p + ":" + rest, p + ":")
  {
    assert (p + ":" + rest)[..|p + ":"|] == p + ":";
  }

  // ------------------------------------------------------------ properties

  /** Two keys under one prefix are equal only when what follows the prefix is. */
  lemma UnderInjective(p: string, a: string, b: string)
    requires p + ":" + a == p + ":" + b
    ensures a == b
  {
    assert a == (p + ":" + a)[|p| + 1..];
    assert b == (p + ":" + b)[|p| + 1..];
  }

  /** Distinct rules have distinct statistics keys. */
  lemma StatsKeyInjective(p: string, a: string, b: string)
    requires StatsKey(p, a) == StatsKey(p, b)
    ensures a == b
  {
    UnderInjective(p, StatsPrefix + a, StatsPrefix + b);
    assert a == (StatsPrefix + a)[|StatsPrefix|..];
    assert b == (StatsPrefix + b)[|StatsPrefix|..];
  }

  /** The dimension-list key has "rate_limit:" after the prefix and the detailed-statistics key does not. */
  lemma DetailedAndDimensionNamespaces(p: string, ruleId: string, dimension: string, value: string)
    ensures StartsWith(DimensionListKey(p, ruleId, dimension), p + ":rate_limit:")
    ensures !StartsWith(DetailedStatsKey(p, ruleId, dimension, value), p + ":rate_limit:")
  {
    var d := DimensionListKey(p, ruleId, dimension);
    assert d == (p + ":rate_limit:") + ("dimension_list:" + ruleId + ":" + dimension);
    assert d[..|p| + 12] == p + ":rate_limit:";
    var e := DetailedStatsKey(p, ruleId, dimension, value);
    assert e[|p| + 1] == 'd';
    assert (p + ":rate_limit:")[|p| + 1] == 'r';
  }

  /** Two clock readings in one window give one bucket key; readings in different windows give different keys. */
  lemma WindowKeys(p: string, ruleId: string, identifier: string, timeWindow: int, t1: int, t2: int)
    requires timeWindow != 0
    ensures (BucketKeyWithWindow(p, ruleId, identifier, timeWindow, t1) == BucketKeyWithWindow(p, ruleId, identifier, timeWindow, t2))
            <==> (Window(timeWindow, t1) == Window(timeWindow, t2))
  {
    var k := BucketKey(p, ruleId, identifier) + ":";
    var w1 := Window(timeWindow, t1).value;
    var w2 := Window(timeWindow, t2).value;
    if k + IntToString(w1) == k + IntToString(w2) {
      assert IntToString(w1) == (k + IntToString(w1))[|k|..];
      assert IntToString(w2) == (k + IntToString(w2))[|k|..];
      IntToStringInjective(w1, w2);
    }
  }
}
