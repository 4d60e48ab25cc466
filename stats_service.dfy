/**
 * The request statistics kept in Redis hashes: per rule, counters of
 * total, allowed and blocked requests; per rule and minute, counters of
 * requests, allowed and blocked; the trend series built from the
 * per-minute counters; and the global sums over all rules. Redis is a map
 * from key to hash; a hash maps a field to a value; `down` says every
 * Redis call throws. Clock readings are parameters.
 */
module StatsService {
  import opened Text
  import opened Values
  import RedisKeys

  type Hash = map<string, Value>
  type Hashes = map<string, Hash>

  const TotalField: string := "totalRequests"
  const AllowedField: string := "allowedRequests"
  const BlockedField: string := "blockedRequests"
  const LastTimeField: string := "lastRequestTime"
  const MinuteRequests: string := "requests"
  const MinuteAllowed: string := "allowed"
  const MinuteBlocked: string := "blocked"
  const MinuteMillis: int := 60 * 1000

  /** getLongValue: 0 for a missing or null field, a number as it is, a string by Long.parseLong, 0 when that fails. */
  function GetLongValue(h: Hash, key: string): (r: int)
    ensures key !in h || h[key].Null? ==> r == 0
    ensures key in h && h[key].Num? ==> r == h[key].n
    ensures key in h && h[key].Str? && ParseLong(h[key].s).Some? ==> r == ParseLong(h[key].s).value
    ensures key in h && h[key].Str? && ParseLong(h[key].s).None? ==> r == 0
  {
    if key !in h then 0
    else match h[key]
      case Null => 0
      case Num(n) => n
      case _ => match ParseLong(ToString(h[key])) case Some(n) => n case None => 0
  }

  /** The integer Redis sees in a hash field, if it holds one. */
  function Stored(h: Hash, field: string): Option<int>
  {
    if field !in h then Some(0)
    else match h[field]
      case Num(n) => if LONG_MIN <= n <= LONG_MAX then Some(n) else None
      case Str(s) => ParseLong(s)
      case _ => None
  }

  /** HINCRBY field 1: None is the error Redis answers for a field that is not an integer or would leave the 64-bit range. */
  function Incr(h: Hash, field: string): (r: Option<Hash>)
    ensures r.Some? <==> Stored(h, field).Some? && Stored(h, field).value < LONG_MAX
    ensures r.Some? ==> r.value == h[field := Num(GetLongValue(h, field) + 1)]
  {
    match Stored(h, field)
    case None => None
    case Some(n) => if n < LONG_MAX then Some(h[field := Num(n + 1)]) else None
  }

  /** Reading a counter after HINCRBY gives one more than before. */
  lemma IncrThenRead(h: Hash, field: string)
    requires Incr(h, field).Some?
    ensures GetLongValue(Incr(h, field).value, field) == GetLongValue(h, field) + 1
    ensures forall f :: f != field ==> GetLongValue(Incr(h, field).value, f) == GetLongValue(h, f)
  {
  }

  /** The hash under a key; Redis answers an empty one for a missing key. */
  function HashAt(s: Hashes, key: string): Hash
  {
    if key in s then s[key] else map[]
  }

  function IncrAt(s: Hashes, key: string, field: string): (r: Option<Hashes>)
    ensures r.Some? <==> Incr(HashAt(s, key), field).Some?
    ensures r.Some? ==> r.value == s[key := Incr(HashAt(s, key), field).value]
  {
    match Incr(HashAt(s, key), field)
    case None => None
    case Some(h) => Some(s[key := h])
  }

  /** The minute bucket of a clock reading: now / 60000 * 60000 in Java's long arithmetic. */
  function MinuteOf(t: int): int
  {
    JavaDiv(t, MinuteMillis) * MinuteMillis
  }

  /** The realtime key recordRealtimeStats writes, as written: WITHOUT the key prefix. */
  function RealtimeKeyAsWritten(ruleId: string, minute: int): string
  {
    "rate_limit:realtime:" + ruleId + ":" + IntToString(minute)
  }

  /** The state of the store after a try block: the writes done so far, and whether it ran to the end. */
  datatype Step = Step(store: Hashes, ok: bool)

  /** The first counter, then one of the other two: what recordRequest and recordRealtimeStats do to one hash. */
  function CountOne(s: Hashes, key: string, totalF: string, allowedF: string, blockedF: string, allowed: bool): (r: Step)
  {
    match IncrAt(s, key, totalF)
    case None => Step(s, false)
    case Some(s1) =>
      match IncrAt(s1, key, if allowed then allowedF else blockedF)
      case None => Step(s1, false)
      case Some(s2) => Step(s2, true)
  }

  /** recordRequest given the realtime key it writes: the rule's counters and last request time, then the minute's counters. */
  function RecordedWith(s: Hashes, statsKey: string, realtimeKey: string, allowed: bool, now: int): Hashes
  {
    var st := CountOne(s, statsKey, TotalField, AllowedField, BlockedField, allowed);
    if !st.ok then st.store
    else
      var s2 := st.store[statsKey := HashAt(st.store, statsKey)[LastTimeField := Num(now)]];
      CountOne(s2, realtimeKey, MinuteRequests, MinuteAllowed, MinuteBlocked, allowed).store
  }

  /** recordRequest as written: the minute's counters go to a key without the prefix. */
  function RecordedAsWritten(s: Hashes, prefix: string, ruleId: string, allowed: bool, now: int): Hashes
  {
    RecordedWith(s, RedisKeys.StatsKey(prefix, ruleId), RealtimeKeyAsWritten(ruleId, MinuteOf(now)), allowed, now)
  }

  /** recordRequest corrected: the minute's counters go to the prefixed key the trend reads. */
  function Recorded(s: Hashes, prefix: string, ruleId: string, allowed: bool, now: int): Hashes
  {
    RecordedWith(s, RedisKeys.StatsKey(prefix, ruleId), RedisKeys.RealtimeKey(prefix, ruleId, MinuteOf(now)), allowed, now)
  }

  // ------------------------------------------------------------ counters

  predicate Counter(h: Hash, f: string)
  {
    f !in h || (h[f].Num? && 0 <= h[f].n <= LONG_MAX)
  }

  /** A rule's counters: numbers, with total = allowed + blocked. */
  predicate Consistent(h: Hash)
  {
    Counter(h, TotalField) && Counter(h, AllowedField) && Counter(h, BlockedField) &&
    GetLongValue(h, TotalField) == GetLongValue(h, AllowedField) + GetLongValue(h, BlockedField)
  }

  /** The rule's hash after its counters are counted, when both increments succeed. */
  lemma CountOneCounters(s: Hashes, key: string, allowed: bool)
    requires Consistent(HashAt(s, key))
    ensures var st := CountOne(s, key, TotalField, AllowedField, BlockedField, allowed);
      var h := HashAt(s, key);
      var h2 := HashAt(st.store, key);
      Consistent(h2) &&
      (st.ok <==> GetLongValue(h, TotalField) < LONG_MAX) &&
      (st.ok ==> GetLongValue(h2, TotalField) == GetLongValue(h, TotalField) + 1 &&
                 GetLongValue(h2, AllowedField) == GetLongValue(h, AllowedField) + (if allowed then 1 else 0) &&
                 GetLongValue(h2, BlockedField) == GetLongValue(h, BlockedField) + (if allowed then 0 else 1)) &&
      (!st.ok ==> st.store == s)
  {
    var h := HashAt(s, key);
    var other := if allowed then AllowedField else BlockedField;
    if GetLongValue(h, TotalField) < LONG_MAX {
      var h1 := Incr(h, TotalField).value;
      assert HashAt(IncrAt(s, key, TotalField).value, key) == h1;
      assert Incr(h1, other).Some?;
    }
  }

  /** The stats key and a realtime key never coincide: "stats" and "realtime" part at the first letter. */
  lemma StatsNotRealtime(prefix: string, ruleId: string, otherRule: string, minute: int)
    ensures RedisKeys.StatsKey(prefix, ruleId) != RedisKeys.RealtimeKey(prefix, otherRule, minute)
  {
    var a := RedisKeys.StatsKey(prefix, ruleId);
    var b := RedisKeys.RealtimeKey(prefix, otherRule, minute);
    assert a[|prefix| + 12] == 's';
    assert b[|prefix| + 12] == 'r';
  }

  /** recordRequest keeps total = allowed + blocked for the rule, counting exactly one more request unless the total is at the 64-bit limit. */
  lemma RecordKeepsConsistent(s: Hashes, prefix: string, ruleId: string, allowed: bool, now: int)
    requires Consistent(HashAt(s, RedisKeys.StatsKey(prefix, ruleId)))
    ensures var key := RedisKeys.StatsKey(prefix, ruleId);
      var h := HashAt(s, key);
      var h2 := HashAt(Recorded(s, prefix, ruleId, allowed, now), key);
      Consistent(h2) &&
      (GetLongValue(h, TotalField) < LONG_MAX ==> GetLongValue(h2, TotalField) == GetLongValue(h, TotalField) + 1) &&
      (GetLongValue(h, TotalField) == LONG_MAX ==> h2 == h)
  {
    var key := RedisKeys.StatsKey(prefix, ruleId);
    var rt := RedisKeys.RealtimeKey(prefix, ruleId, MinuteOf(now));
    CountOneCounters(s, key, allowed);
    var st := CountOne(s, key, TotalField, AllowedField, BlockedField, allowed);
    if st.ok {
      var s2 := st.store[key := HashAt(st.store, key)[LastTimeField := Num(now)]];
      assert HashAt(s2, key) == HashAt(st.store, key)[LastTimeField := Num(now)];
      StatsNotRealtime(prefix, ruleId, ruleId, MinuteOf(now));
      RealtimeLeavesOthers(s2, rt, key, allowed);
    }
  }

  /** Counting a minute touches no other key. */
  lemma RealtimeLeavesOthers(s: Hashes, rt: string, key: string, allowed: bool)
    requires rt != key
    ensures HashAt(CountOne(s, rt, MinuteRequests, MinuteAllowed, MinuteBlocked, allowed).store, key) == HashAt(s, key)
  {
  }

  /** Every rule's counters add up. */
  ghost predicate AllConsistent(s: Hashes, prefix: string)
  {
    forall x :: Consistent(HashAt(s, RedisKeys.StatsKey(prefix, x)))
  }

  /** recordRequest for one rule leaves every rule's counters adding up. */
  lemma RecordKeepsAllConsistent(s: Hashes, prefix: string, ruleId: string, allowed: bool, now: int)
    requires AllConsistent(s, prefix)
    ensures AllConsistent(Recorded(s, prefix, ruleId, allowed, now), prefix)
  {
    var key := RedisKeys.StatsKey(prefix, ruleId);
    var rt := RedisKeys.RealtimeKey(prefix, ruleId, MinuteOf(now));
    var s' := Recorded(s, prefix, ruleId, allowed, now);
    forall x
      ensures Consistent(HashAt(s', RedisKeys.StatsKey(prefix, x)))
    {
      var kx := RedisKeys.StatsKey(prefix, x);
      if kx == key {
        RecordKeepsConsistent(s, prefix, ruleId, allowed, now);
      } else {
        StatsNotRealtime(prefix, x, ruleId, MinuteOf(now));
        var st := CountOne(s, key, TotalField, AllowedField, BlockedField, allowed);
        assert HashAt(st.store, kx) == HashAt(s, kx);
        if st.ok {
          var s2 := st.store[key := HashAt(st.store, key)[LastTimeField := Num(now)]];
          RealtimeLeavesOthers(s2, rt, kx, allowed);
        }
      }
    }
  }

  // ------------------------------------------------------------ trend

  /** The interval of the trend: its width in minutes, and the number of points. */
  datatype Interval = Interval(width: int, points: int)

  /** getTrendData's choice: 1, 5, 15 or 60 minutes, and minutes / width points, 0 points bumped to 1. */
  function ChooseInterval(minutes: int): (r: Interval)
    ensures r.width in {1, 5, 15, 60}
    ensures r.points != 0
    ensures minutes <= 15 ==> r == Interval(1, if minutes == 0 then 1 else minutes)
    ensures 15 < minutes <= 60 ==> r == Interval(5, minutes / 5)
    ensures 60 < minutes <= 360 ==> r == Interval(15, minutes / 15)
    ensures 360 < minutes ==> r == Interval(60, minutes / 60)
  {
    var iv :=
      if minutes <= 15 then Interval(1, minutes)
      else if minutes <= 60 then Interval(5, minutes / 5)
      else if minutes <= 360 then Interval(15, minutes / 15)
      else Interval(60, minutes / 60);
    if iv.points == 0 then Interval(iv.width, 1) else iv
  }

  /** For a positive span the points cover it in whole intervals, short of it by less than one interval; no span gives one point; a negative span a negative count. */
  lemma IntervalCovers(minutes: int)
    ensures var r := ChooseInterval(minutes);
      (minutes > 0 ==> r.points > 0 && r.points * r.width <= minutes < (r.points + 1) * r.width) &&
      (minutes == 0 ==> r == Interval(1, 1)) &&
      (minutes < 0 ==> r == Interval(1, minutes))
  {
  }

  /** The trend's data after an exception: empty series, interval 1, no points. */
  datatype Trend = Trend(times: seq<int>, totalData: seq<int>, blockedData: seq<int>, intervalMinutes: int, dataPoints: int)

  function ErrorTrend(): Trend
  {
    Trend([], [], [], 1, 0)
  }

  /** One minute counter of one rule, read from the prefixed realtime key. */
  function Cell(s: Hashes, prefix: string, ruleId: string, t: int, field: string): int
  {
    GetLongValue(HashAt(s, RedisKeys.RealtimeKey(prefix, ruleId, MinuteOf(t))), field)
  }

  /** A rule's counter summed over the first j minutes from t. */
  function WindowSum(s: Hashes, prefix: string, ruleId: string, t: int, j: nat, field: string): int
  {
    if j == 0 then 0 else WindowSum(s, prefix, ruleId, t, j - 1, field) + Cell(s, prefix, ruleId, t + (j - 1) * MinuteMillis, field)
  }

  /** The counter over one interval, summed over the rules. */
  function RulesSum(s: Hashes, prefix: string, rules: seq<string>, t: int, width: nat, field: string): int
  {
    if |rules| == 0 then 0
    else RulesSum(s, prefix, rules[..|rules| - 1], t, width, field) + WindowSum(s, prefix, rules[|rules| - 1], t, width, field)
  }

  /** Point i of a series: the interval from start + i * width minutes. */
  function Series(s: Hashes, prefix: string, rules: seq<string>, start: int, width: nat, n: nat, field: string): (r: seq<int>)
    ensures |r| == n
    ensures forall i :: 0 <= i < n ==> r[i] == RulesSum(s, prefix, rules, start + i * (width * MinuteMillis), width, field)
  {
    seq(n, i requires 0 <= i < n => RulesSum(s, prefix, rules, start + i * (width * MinuteMillis), width, field))
  }

  /** Appending a point to a series. */
  lemma SeriesSnoc(s: Hashes, prefix: string, rules: seq<string>, start: int, width: nat, n: nat, field: string)
    ensures Series(s, prefix, rules, start, width, n + 1, field) ==
            Series(s, prefix, rules, start, width, n, field) + [RulesSum(s, prefix, rules, start + n * (width * MinuteMillis), width, field)]
  {
  }

  /** The clock readings of the points. */
  function TimePoints(start: int, step: int, n: nat): (r: seq<int>)
    ensures |r| == n && forall i :: 0 <= i < n ==> r[i] == start + i * step
  {
    seq(n, i requires 0 <= i < n => start + i * step)
  }

  lemma TimePointsSnoc(start: int, step: int, n: nat)
    ensures TimePoints(start, step, n + 1) == TimePoints(start, step, n) + [start + n * step]
  {
  }

  /** getTrendData makes a Redis read only inside its two loops: at least one point and at least one rule. */
  predicate TrendReadsStore(rules: seq<string>, minutes: int)
  {
    ChooseInterval(minutes).points > 0 && |rules| > 0
  }

  /** getTrendData over the given rules: the minutes before now, cut into the chosen intervals; the first read of a store that is down throws. */
  function TrendOf(s: Hashes, down: bool, prefix: string, rules: seq<string>, minutes: int, now: int): (r: Trend)
    ensures down && TrendReadsStore(rules, minutes) ==> r == ErrorTrend()
    ensures !(down && TrendReadsStore(rules, minutes)) ==>
      r.intervalMinutes == ChooseInterval(minutes).width && r.dataPoints == ChooseInterval(minutes).points &&
      |r.times| == |r.totalData| == |r.blockedData| == (if r.dataPoints > 0 then r.dataPoints else 0)
    ensures !(down && TrendReadsStore(rules, minutes)) && rules == [] ==>
      forall i :: 0 <= i < |r.totalData| ==> r.totalData[i] == 0 && r.blockedData[i] == 0
  {
    if down && TrendReadsStore(rules, minutes) then ErrorTrend()
    else
      var iv := ChooseInterval(minutes);
      var n: nat := if iv.points > 0 then iv.points else 0;
      var start := now - minutes * MinuteMillis;
      var w: nat := iv.width;
      Trend(TimePoints(start, w * MinuteMillis, n),
            Series(s, prefix, rules, start, w, n, MinuteRequests),
            Series(s, prefix, rules, start, w, n, MinuteBlocked),
            iv.width, iv.points)
  }

  /** Without a read, a store that is down gives the same trend as one that is up. */
  lemma TrendWithoutReads(s: Hashes, prefix: string, rules: seq<string>, minutes: int, now: int)
    requires !TrendReadsStore(rules, minutes)
    ensures TrendOf(s, true, prefix, rules, minutes, now) == TrendOf(s, false, prefix, rules, minutes, now)
  {
  }

  /** Blocked never exceeds total in a point of the trend when it does not in any minute hash. */
  predicate MinutesSane(s: Hashes)
  {
    forall k :: k in s ==> GetLongValue(s[k], MinuteBlocked) <= GetLongValue(s[k], MinuteRequests)
  }

  lemma {:induction false} WindowBlockedAtMostTotal(s: Hashes, prefix: string, ruleId: string, t: int, j: nat)
    requires MinutesSane(s)
    ensures WindowSum(s, prefix, ruleId, t, j, MinuteBlocked) <= WindowSum(s, prefix, ruleId, t, j, MinuteRequests)
  {
    if j > 0 {
      WindowBlockedAtMostTotal(s, prefix, ruleId, t, j - 1);
    }
  }

  lemma {:induction false} RulesBlockedAtMostTotal(s: Hashes, prefix: string, rules: seq<string>, t: int, width: nat)
    requires MinutesSane(s)
    ensures RulesSum(s, prefix, rules, t, width, MinuteBlocked) <= RulesSum(s, prefix, rules, t, width, MinuteRequests)
  {
    if |rules| > 0 {
      RulesBlockedAtMostTotal(s, prefix, rules[..|rules| - 1], t, width);
      WindowBlockedAtMostTotal(s, prefix, rules[|rules| - 1], t, width);
    }
  }

  lemma TrendBlockedAtMostTotal(s: Hashes, prefix: string, rules: seq<string>, minutes: int, now: int)
    requires MinutesSane(s)
    ensures var r := TrendOf(s, false, prefix, rules, minutes, now);
      forall i :: 0 <= i < |r.totalData| ==> r.blockedData[i] <= r.totalData[i]
  {
    var iv := ChooseInterval(minutes);
    var start := now - minutes * MinuteMillis;
    var w: nat := iv.width;
    forall i: int | 0 <= i
      ensures RulesSum(s, prefix, rules, start + i * (w * MinuteMillis), w, MinuteBlocked) <=
              RulesSum(s, prefix, rules, start + i * (w * MinuteMillis), w, MinuteRequests)
    {
      RulesBlockedAtMostTotal(s, prefix, rules, start + i * (w * MinuteMillis), w);
    }
  }

  // ------------------------------------------------------------ the trend finding

  /** The trend of the last minute for one rule is that rule's counter in the minute bucket one minute before now. */
  lemma TrendOfLastMinute(s: Hashes, prefix: string, ruleId: string, t: int)
    ensures TrendOf(s, false, prefix, [ruleId], 1, t + MinuteMillis).totalData == [Cell(s, prefix, ruleId, t, MinuteRequests)]
  {
    var c := Cell(s, prefix, ruleId, t, MinuteRequests);
    assert ChooseInterval(1) == Interval(1, 1);
    SingleRule(s, prefix, ruleId, t, MinuteRequests);
    var ser := Series(s, prefix, [ruleId], t, 1, 1, MinuteRequests);
    assert ser[0] == c;
    assert ser == [c];
  }

  lemma SingleRule(s: Hashes, prefix: string, ruleId: string, t: int, field: string)
    ensures RulesSum(s, prefix, [ruleId], t, 1, field) == Cell(s, prefix, ruleId, t, field)
  {
    assert [ruleId][..0] == [];
    assert WindowSum(s, prefix, ruleId, t, 1, field) == Cell(s, prefix, ruleId, t + 0 * MinuteMillis, field);
  }

  /** Counting into a hash adds at most that hash's key to the store. */
  lemma CountOneKeys(s: Hashes, key: string, totalF: string, allowedF: string, blockedF: string, allowed: bool)
    ensures CountOne(s, key, totalF, allowedF, blockedF, allowed).store.Keys <= s.Keys + {key}
  {
  }

  /** A minute counted from nothing holds one request. */
  lemma FreshMinute(s: Hashes, rt: string, allowed: bool)
    requires HashAt(s, rt) == map[]
    ensures var st := CountOne(s, rt, MinuteRequests, MinuteAllowed, MinuteBlocked, allowed);
      st.ok && GetLongValue(HashAt(st.store, rt), MinuteRequests) == 1
  {
    var h1 := map[MinuteRequests := Num(1)];
    assert Incr(map[], MinuteRequests) == Some(h1);
    var f := if allowed then MinuteAllowed else MinuteBlocked;
    assert Incr(h1, f) == Some(h1[f := Num(1)]);
  }

  /** A rule recorded once at t and asked for the trend of the last minute at t + 1 min shows no request, as written. */
  lemma TrendMissesRecordedAsWritten(prefix: string, ruleId: string, allowed: bool, t: int)
    ensures TrendOf(RecordedAsWritten(map[], prefix, ruleId, allowed, t), false, prefix, [ruleId], 1, t + MinuteMillis).totalData == [0]
  {
    var s := RecordedAsWritten(map[], prefix, ruleId, allowed, t);
    var read := RedisKeys.RealtimeKey(prefix, ruleId, MinuteOf(t));
    var written := RealtimeKeyAsWritten(ruleId, MinuteOf(t));
    var statsKey := RedisKeys.StatsKey(prefix, ruleId);
    assert |read| == |prefix| + 1 + |written|;
    StatsNotRealtime(prefix, ruleId, ruleId, MinuteOf(t));
    var st := CountOne(map[], statsKey, TotalField, AllowedField, BlockedField, allowed);
    CountOneKeys(map[], statsKey, TotalField, AllowedField, BlockedField, allowed);
    if st.ok {
      var s2 := st.store[statsKey := HashAt(st.store, statsKey)[LastTimeField := Num(t)]];
      CountOneKeys(s2, written, MinuteRequests, MinuteAllowed, MinuteBlocked, allowed);
    }
    assert s.Keys <= {statsKey, written};
    assert HashAt(s, read) == map[];
    TrendOfLastMinute(s, prefix, ruleId, t);
  }

  /** The same request, recorded under the prefixed key, shows in the trend. */
  lemma TrendCountsRecorded(prefix: string, ruleId: string, allowed: bool, t: int)
    ensures TrendOf(Recorded(map[], prefix, ruleId, allowed, t), false, prefix, [ruleId], 1, t + MinuteMillis).totalData == [1]
  {
    var s := Recorded(map[], prefix, ruleId, allowed, t);
    var rt := RedisKeys.RealtimeKey(prefix, ruleId, MinuteOf(t));
    var statsKey := RedisKeys.StatsKey(prefix, ruleId);
    StatsNotRealtime(prefix, ruleId, ruleId, MinuteOf(t));
    CountOneCounters(map[], statsKey, allowed);
    var st := CountOne(map[], statsKey, TotalField, AllowedField, BlockedField, allowed);
    assert st.ok;
    CountOneKeys(map[], statsKey, TotalField, AllowedField, BlockedField, allowed);
    var s2 := st.store[statsKey := HashAt(st.store, statsKey)[LastTimeField := Num(t)]];
    assert s2.Keys <= {statsKey};
    FreshMinute(s2, rt, allowed);
    assert s == CountOne(s2, rt, MinuteRequests, MinuteAllowed, MinuteBlocked, allowed).store;
    TrendOfLastMinute(s, prefix, ruleId, t);
  }

  // ------------------------------------------------------------ global statistics

  datatype RuleStats = RuleStats(totalRequests: int, allowedRequests: int, blockedRequests: int)

  /** getStats: the rule's counters; zeros for a rule never counted, or when Redis throws. */
  function GetStats(s: Hashes, down: bool, prefix: string, ruleId: string): (r: RuleStats)
    ensures down ==> r == RuleStats(0, 0, 0)
    ensures !down && Consistent(HashAt(s, RedisKeys.StatsKey(prefix, ruleId))) ==> r.totalRequests == r.allowedRequests + r.blockedRequests
  {
    var h := HashAt(s, RedisKeys.StatsKey(prefix, ruleId));
    if down || h == map[] then RuleStats(0, 0, 0)
    else RuleStats(GetLongValue(h, TotalField), GetLongValue(h, AllowedField), GetLongValue(h, BlockedField))
  }

  datatype GlobalStats = GlobalStats(totalRequests: int, totalAllowed: int, totalBlocked: int, totalRules: int, activeRules: int)

  /** getGlobalStats' sums over the rules' statistics in their order. */
  function Global(ss: seq<RuleStats>): (g: GlobalStats)
    ensures g.totalRules == |ss| && 0 <= g.activeRules <= g.totalRules
  {
    if |ss| == 0 then GlobalStats(0, 0, 0, 0, 0)
    else
      var g := Global(ss[..|ss| - 1]);
      var x := ss[|ss| - 1];
      GlobalStats(g.totalRequests + x.totalRequests, g.totalAllowed + x.allowedRequests, g.totalBlocked + x.blockedRequests,
                  g.totalRules + 1, g.activeRules + (if x.totalRequests > 0 then 1 else 0))
  }

  /** Adding one rule's statistics to the totals. */
  lemma GlobalSnoc(ss: seq<RuleStats>, i: nat)
    requires i < |ss|
    ensures var g := Global(ss[..i]);
            Global(ss[..i + 1]) == GlobalStats(g.totalRequests + ss[i].totalRequests, g.totalAllowed + ss[i].allowedRequests,
                                               g.totalBlocked + ss[i].blockedRequests, g.totalRules + 1,
                                               g.activeRules + (if ss[i].totalRequests > 0 then 1 else 0))
  {
    assert ss[..i + 1][..i] == ss[..i];
  }

  function AllStats(s: Hashes, down: bool, prefix: string, ruleIds: seq<string>): (r: seq<RuleStats>)
    ensures |r| == |ruleIds| && forall i :: 0 <= i < |ruleIds| ==> r[i] == GetStats(s, down, prefix, ruleIds[i])
  {
    seq(|ruleIds|, i requires 0 <= i < |ruleIds| => GetStats(s, down, prefix, ruleIds[i]))
  }

  /** When every rule's counters add up, so do the global ones. */
  lemma {:induction false} GlobalAddsUp(ss: seq<RuleStats>)
    requires forall i :: 0 <= i < |ss| ==> ss[i].totalRequests == ss[i].allowedRequests + ss[i].blockedRequests
    ensures Global(ss).totalRequests == Global(ss).totalAllowed + Global(ss).totalBlocked
  {
    if |ss| > 0 {
      GlobalAddsUp(ss[..|ss| - 1]);
    }
  }

  /** A rule counts as active exactly when it has had a request: with no active rule every total is zero (for non-negative counters). */
  lemma {:induction false} NoActiveNoRequests(ss: seq<RuleStats>)
    requires forall i :: 0 <= i < |ss| ==> ss[i].totalRequests >= 0
    ensures Global(ss).totalRequests >= 0
    ensures Global(ss).activeRules == 0 <==> Global(ss).totalRequests == 0
  {
    if |ss| > 0 {
      NoActiveNoRequests(ss[..|ss| - 1]);
    }
  }

  /** determineBlockReason: the dimensions the rule limits, since the check cannot be repeated here. */
  function DetermineBlockReason(enableIpLimit: bool, enableUserLimit: bool): (r: string)
  {
    if enableIpLimit && enableUserLimit then "多维度限流"
    else if enableIpLimit then "IP限流"
    else if enableUserLimit then "用户限流"
    else "路径限流"
  }

  /** The four reasons are distinct, so a reason tells which dimensions the rule limits. */
  lemma BlockReasonDetermines(ip1: bool, user1: bool, ip2: bool, user2: bool)
    requires DetermineBlockReason(ip1, user1) == DetermineBlockReason(ip2, user2)
    ensures ip1 == ip2 && user1 == user2
  {
    var r := DetermineBlockReason(ip1, user1);
    assert r[0] == DetermineBlockReason(ip2, user2)[0];
    assert |r| == |DetermineBlockReason(ip2, user2)|;
  }

  // ------------------------------------------------------------ the service

  class RedisRateLimitStatsService {
    var hashes: Hashes
    /** Whether every Redis call throws. */
    const down: bool
    const prefix: string

    constructor (prefix: string, down: bool)
      ensures hashes == map[] && this.down == down && this.prefix == prefix
    {
      hashes := map[];
      this.down := down;
      this.prefix := prefix;
    }

    /** Increments one counter of one hash; false when Redis answers an error. */
    method Increment(key: string, field: string) returns (ok: bool)
      modifies this
      ensures IncrAt(old(hashes), key, field).Some? <==> ok
      ensures hashes == if ok then IncrAt(old(hashes), key, field).value else old(hashes)
    {
      var h := HashAt(hashes, key);
      var cur := Stored(h, field);
      if cur.None? || cur.value == LONG_MAX {
        return false;
      }
      hashes := hashes[key := h[field := Num(cur.value + 1)]];
      ok := true;
    }

    method CountInto(key: string, totalF: string, allowedF: string, blockedF: string, allowed: bool) returns (ok: bool)
      modifies this
      ensures Step(hashes, ok) == CountOne(old(hashes), key, totalF, allowedF, blockedF, allowed)
    {
      ok := Increment(key, totalF);
      if !ok {
        return;
      }
      ok := Increment(key, if allowed then allowedF else blockedF);
    }

    /** recordRequest (corrected), at clock reading now; a failing Redis call skips the rest of the block. */
    method RecordRequest(ruleId: string, allowed: bool, now: int)
      modifies this
      ensures hashes == if down then old(hashes) else Recorded(old(hashes), prefix, ruleId, allowed, now)
    {
      if down {
        return;
      }
      var statsKey := RedisKeys.StatsKey(prefix, ruleId);
      var ok := CountInto(statsKey, TotalField, AllowedField, BlockedField, allowed);
      if !ok {
        return;
      }
      hashes := hashes[statsKey := HashAt(hashes, statsKey)[LastTimeField := Num(now)]];
      var minute := JavaDiv(now, MinuteMillis) * MinuteMillis;
      ok := CountInto(RedisKeys.RealtimeKey(prefix, ruleId, minute), MinuteRequests, MinuteAllowed, MinuteBlocked, allowed);
    }

    /** One rule's counter over one interval, minute by minute. */
    method ReadWindow(ruleId: string, t: int, width: nat, field: string) returns (sum: int)
      ensures sum == WindowSum(hashes, prefix, ruleId, t, width, field)
    {
      sum := 0;
      var j := 0;
      while j < width
        invariant 0 <= j <= width && sum == WindowSum(hashes, prefix, ruleId, t, j, field)
      {
        var minuteTime := t + j * MinuteMillis;
        var timeMinute := JavaDiv(minuteTime, MinuteMillis) * MinuteMillis;
        sum := sum + GetLongValue(HashAt(hashes, RedisKeys.RealtimeKey(prefix, ruleId, timeMinute)), field);
        j := j + 1;
      }
    }

    /** One point of the trend: the interval's counter summed over the rules. */
    method ReadPoint(rules: seq<string>, t: int, width: nat, field: string) returns (sum: int)
      ensures sum == RulesSum(hashes, prefix, rules, t, width, field)
    {
      sum := 0;
      var k := 0;
      while k < |rules|
        invariant 0 <= k <= |rules| && sum == RulesSum(hashes, prefix, rules[..k], t, width, field)
      {
        assert rules[..k + 1][..k] == rules[..k];
        var part := ReadWindow(rules[k], t, width, field);
        sum := sum + part;
        k := k + 1;
      }
      assert rules[..k] == rules;
    }

    /** The loop of getTrendData: n points of width minutes from start. */
    method ReadSeries(rules: seq<string>, startTime: int, intervalMinutes: nat, n: nat)
      returns (times: seq<int>, totalData: seq<int>, blockedData: seq<int>)
      ensures times == TimePoints(startTime, intervalMinutes * MinuteMillis, n)
      ensures totalData == Series(hashes, prefix, rules, startTime, intervalMinutes, n, MinuteRequests)
      ensures blockedData == Series(hashes, prefix, rules, startTime, intervalMinutes, n, MinuteBlocked)
    {
      var intervalMs := intervalMinutes * MinuteMillis;
      times, totalData, blockedData := [], [], [];
      var i: nat := 0;
      while i < n
        invariant i <= n
        invariant times == TimePoints(startTime, intervalMs, i)
        invariant totalData == Series(hashes, prefix, rules, startTime, intervalMinutes, i, MinuteRequests)
        invariant blockedData == Series(hashes, prefix, rules, startTime, intervalMinutes, i, MinuteBlocked)
      {
        TimePointsSnoc(startTime, intervalMs, i);
        var timePoint, total, blocked := ReadStep(rules, startTime, intervalMinutes, i, totalData, blockedData);
        times := times + [timePoint];
        totalData := totalData + [total];
        blockedData := blockedData + [blocked];
        i := i + 1;
      }
    }

    /** One pass of that loop: the next point's clock reading and both counters. */
    method ReadStep(rules: seq<string>, startTime: int, intervalMinutes: nat, i: nat, ghost totalData: seq<int>, ghost blockedData: seq<int>)
      returns (timePoint: int, total: int, blocked: int)
      requires totalData == Series(hashes, prefix, rules, startTime, intervalMinutes, i, MinuteRequests)
      requires blockedData == Series(hashes, prefix, rules, startTime, intervalMinutes, i, MinuteBlocked)
      ensures timePoint == startTime + i * (intervalMinutes * MinuteMillis)
      ensures totalData + [total] == Series(hashes, prefix, rules, startTime, intervalMinutes, i + 1, MinuteRequests)
      ensures blockedData + [blocked] == Series(hashes, prefix, rules, startTime, intervalMinutes, i + 1, MinuteBlocked)
    {
      timePoint := startTime + i * (intervalMinutes * MinuteMillis);
      total := ReadPoint(rules, timePoint, intervalMinutes, MinuteRequests);
      blocked := ReadPoint(rules, timePoint, intervalMinutes, MinuteBlocked);
      SeriesSnoc(hashes, prefix, rules, startTime, intervalMinutes, i, MinuteRequests);
      SeriesSnoc(hashes, prefix, rules, startTime, intervalMinutes, i, MinuteBlocked);
    }

    /** getTrendData over the given rules at clock reading now. */
    method GetTrendData(rules: seq<string>, minutes: int, now: int) returns (r: Trend)
      ensures r == TrendOf(hashes, down, prefix, rules, minutes, now)
    {
      var startTime := now - minutes * MinuteMillis;
      var iv := ChooseInterval(minutes);
      var maxDataPoints := iv.points;
      // the first read, of the first rule at the first point, throws
      if down && maxDataPoints > 0 && |rules| > 0 {
        return ErrorTrend();
      }
      // a negative point count runs the loop no time
      var n: nat := if maxDataPoints > 0 then maxDataPoints else 0;
      var times, totalData, blockedData := ReadSeries(rules, startTime, iv.width, n);
      r := Trend(times, totalData, blockedData, iv.width, maxDataPoints);
    }

    /** getTrendData for one rule: the same series over that rule alone. */
    method GetRuleTrendData(ruleId: string, minutes: int, now: int) returns (r: Trend)
      ensures r == TrendOf(hashes, down, prefix, [ruleId], minutes, now)
      ensures down && minutes >= 0 ==> r == ErrorTrend()
      ensures down && minutes < 0 ==> r == Trend([], [], [], 1, minutes)
    {
      r := GetTrendData([ruleId], minutes, now);
    }

    /** getGlobalStats over the configured rules. */
    method GetGlobalStats(ruleIds: seq<string>) returns (g: GlobalStats)
      ensures g == Global(AllStats(hashes, down, prefix, ruleIds))
    {
      ghost var all := AllStats(hashes, down, prefix, ruleIds);
      var totalRequests, totalAllowed, totalBlocked, activeRules := 0, 0, 0, 0;
      var i := 0;
      while i < |ruleIds|
        invariant 0 <= i <= |ruleIds|
        invariant Global(all[..i]) == GlobalStats(totalRequests, totalAllowed, totalBlocked, i, activeRules)
      {
        var stats := GetStats(hashes, down, prefix, ruleIds[i]);
        GlobalSnoc(all, i);
        totalRequests := totalRequests + stats.totalRequests;
        totalAllowed := totalAllowed + stats.allowedRequests;
        totalBlocked := totalBlocked + stats.blockedRequests;
        if stats.totalRequests > 0 {
          activeRules := activeRules + 1;
        }
        i := i + 1;
      }
      assert all[..i] == all;
      g := GlobalStats(totalRequests, totalAllowed, totalBlocked, |ruleIds|, activeRules);
    }
  }
}
