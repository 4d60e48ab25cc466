/**
 * RedisDuplicateSubmitService: the lock key of a submission, which method
 * parameters take part in it, the group filter, and the service object that
 * takes the group locks in the lock store, rolls them back on a duplicate,
 * combines their values and releases them again.
 *
 * The extractor chain's answer for the user, the parameters' hash, MD5 and
 * the UUID lock values are inputs: `user`, `paramsHash`, `md5` and `uuid`.
 */
module DuplicateSubmit {
  import opened Text
  import opened LockStores
  import opened LockProtocol
  import opened ParamGroups

  const KeyHead := "duplicate_submit:"
  const DefaultGroupName := "default"
  const TraditionalKeyParam := "traditional_key"

  datatype ParamStrategy = IncludeAll | IncludeAnnotated | ExcludeAnnotated | ExcludeAll

  datatype GroupStrategy = AllGroups | SpecifiedGroups | ExceptGroups

  /** The attributes of a @DuplicateSubmitParam annotation that the service reads. */
  datatype ParamAnnotation = ParamAnnotation(isIncluded: bool, alias: string, group: string, groupWeight: int)

  /** ParameterAnnotationInfo: the parameter's @DuplicateSubmitParam, if any, and whether it carries @DuplicateSubmitIgnore. */
  datatype AnnotationInfo = AnnotationInfo(param: Option<ParamAnnotation>, hasIgnore: bool)

  /** The attributes of @PreventDuplicateSubmit that the service reads; the interval is already in milliseconds. */
  datatype Settings = Settings(
    keyPrefix: string, includeUser: bool, paramStrategy: ParamStrategy,
    groupStrategy: GroupStrategy, groups: seq<string>, orderByWeight: bool, intervalMillis: int)

  /** The intercepted method: its class's simple name, its declaring type's full name, and its own name. */
  datatype Target = Target(simpleClassName: string, declaringTypeName: string, methodName: string)

  // ------------------------------------------------------------ keys

  /** The key's method part: the prefix and a ':' when there is a prefix, else the method's own name. */
  function MethodPart(keyPrefix: string, methodId: string): string
  {
    if keyPrefix != "" then keyPrefix + ":" else methodId
  }

  /** ":user:" and the user, when users are part of the key and one was found. */
  function UserPart(includeUser: bool, user: Option<string>): string
  {
    if includeUser && user.Some? then ":user:" + user.value else ""
  }

  /** ":params:" and the hash, unless parameters are excluded or there were none. */
  function ParamsPart(strategy: ParamStrategy, paramsHash: Option<string>): string
  {
    if strategy != ExcludeAll && paramsHash.Some? then ":params:" + paramsHash.value else ""
  }

  /** generateKey: duplicate_submit:, the method part, the user part, the params part. */
  function GenerateKey(s: Settings, t: Target, user: Option<string>, paramsHash: Option<string>): (r: string)
    ensures StartsWith(r, KeyHead)
    ensures s.keyPrefix != "" ==> StartsWith(r, KeyHead + s.keyPrefix + ":")
    ensures s.keyPrefix == "" ==> StartsWith(r, KeyHead + t.simpleClassName + "." + t.methodName)
  {
    var a := KeyHead + MethodPart(s.keyPrefix, t.simpleClassName + "." + t.methodName);
    var r := a + UserPart(s.includeUser, user) + ParamsPart(s.paramStrategy, paramsHash);
    assert r[..|a|] == a;
    assert r[..|KeyHead|] == a[..|KeyHead|];
    r
  }

  lemma AppendCancel(a: string, x: string, y: string)
    requires a + x == a + y
    ensures x == y
  {
    assert x == (a + x)[|a|..];
    assert y == (a + y)[|a|..];
  }

  /** With parameters excluded, the parameter hash has no say in the key; nor has the user when users are excluded. */
  lemma KeyIgnores(s: Settings, t: Target, u1: Option<string>, u2: Option<string>, h1: Option<string>, h2: Option<string>)
    requires s.paramStrategy == ExcludeAll && !s.includeUser
    ensures GenerateKey(s, t, u1, h1) == GenerateKey(s, t, u2, h2) == KeyHead + MethodPart(s.keyPrefix, t.simpleClassName + "." + t.methodName)
  {
  }

  /** Otherwise two parameter hashes give the same key only when they are the same. */
  lemma KeySeparatesParams(s: Settings, t: Target, user: Option<string>, h1: string, h2: string)
    requires s.paramStrategy != ExcludeAll
    requires GenerateKey(s, t, user, Some(h1)) == GenerateKey(s, t, user, Some(h2))
    ensures h1 == h2
  {
    var a := KeyHead + MethodPart(s.keyPrefix, t.simpleClassName + "." + t.methodName) + UserPart(s.includeUser, user) + ":params:";
    assert GenerateKey(s, t, user, Some(h1)) == a + h1;
    assert GenerateKey(s, t, user, Some(h2)) == a + h2;
    AppendCancel(a, h1, h2);
  }

  /** A prefixed key with no user and no params ends in ':'. */
  lemma PrefixedKeyShape(s: Settings, t: Target, user: Option<string>, paramsHash: Option<string>)
    requires s.keyPrefix != ""
    requires !s.includeUser || user.None?
    requires s.paramStrategy == ExcludeAll || paramsHash.None?
    ensures GenerateKey(s, t, user, paramsHash) == KeyHead + s.keyPrefix + ":"
  {
  }

  /** extractUserIdentifier, on the extractors' answers in their order: the first non-empty one. */
  predicate FirstUser(answers: seq<Option<string>>, r: Option<string>)
  {
    && (r.Some? ==> exists i :: (0 <= i < |answers| && answers[i] == r && r.value != ""
          && forall j :: 0 <= j < i ==> answers[j].None? || answers[j].value == ""))
    && (r.None? ==> forall j :: 0 <= j < |answers| ==> answers[j].None? || answers[j].value == "")
  }

  /** The loop over the extractors; an absent answer is a null value or an extractor that threw. */
  method ExtractUserIdentifier(answers: seq<Option<string>>) returns (r: Option<string>)
    ensures FirstUser(answers, r)
  {
    var i := 0;
    while i < |answers|
      invariant 0 <= i <= |answers|
      invariant forall j :: 0 <= j < i ==> answers[j].None? || answers[j].value == ""
    {
      if answers[i].Some? && answers[i].value != "" {
        return answers[i];
      }
      i := i + 1;
    }
    return None;
  }

  /** Only one answer satisfies FirstUser, so the loop's result is determined. */
  lemma FirstUserUnique(answers: seq<Option<string>>, r1: Option<string>, r2: Option<string>)
    requires FirstUser(answers, r1) && FirstUser(answers, r2)
    ensures r1 == r2
  {
    if r1.Some? && r2.Some? {
      var i1 :| 0 <= i1 < |answers| && answers[i1] == r1 && r1.value != ""
        && forall j :: 0 <= j < i1 ==> answers[j].None? || answers[j].value == "";
      var i2 :| 0 <= i2 < |answers| && answers[i2] == r2 && r2.value != ""
        && forall j :: 0 <= j < i2 ==> answers[j].None? || answers[j].value == "";
      assert !(i1 < i2) && !(i2 < i1);
    }
  }

  // ------------------------------------------------------------ parameters

  /** shouldIncludeParameterWithInfo. */
  function ShouldInclude(info: AnnotationInfo, strategy: ParamStrategy): (r: bool)
  {
    match strategy
    case IncludeAll => !info.hasIgnore
    case IncludeAnnotated => info.param.Some? && info.param.value.isIncluded
    case ExcludeAnnotated => !info.hasIgnore
    case ExcludeAll => false
  }

  /** INCLUDE_ALL and EXCLUDE_ANNOTATED admit the same parameters; EXCLUDE_ALL admits none; INCLUDE_ANNOTATED needs include=true. */
  lemma ShouldIncludeCases(info: AnnotationInfo)
    ensures ShouldInclude(info, IncludeAll) == ShouldInclude(info, ExcludeAnnotated) == !info.hasIgnore
    ensures !ShouldInclude(info, ExcludeAll)
    ensures ShouldInclude(info, IncludeAnnotated) <==> info.param.Some? && info.param.value.isIncluded
    ensures ShouldInclude(info, IncludeAnnotated) ==> info.param.Some?
  {
  }

  /**
   * getParameterNameWithInfo: a non-empty alias, else the name the
   * signature reports, else the reflected name, which is "param" and the
   * index when it looks like a compiler-made "argN".
   */
  function ParameterName(info: AnnotationInfo, index: nat, signatureName: Option<string>, reflectedName: string): (r: string)
    ensures info.param.Some? && info.param.value.alias != "" ==> r == info.param.value.alias
    ensures !(info.param.Some? && info.param.value.alias != "") && signatureName.Some? && signatureName.value != ""
      ==> r == signatureName.value
  {
    if info.param.Some? && info.param.value.alias != "" then info.param.value.alias
    else if signatureName.Some? && signatureName.value != "" then signatureName.value
    else if StartsWith(reflectedName, "arg") then "param" + IntToString(index)
    else reflectedName
  }

  /** Without alias or signature name, the result never looks like "argN", and it is empty only for an empty reflected name. */
  lemma ParameterNameFallback(info: AnnotationInfo, index: nat, signatureName: Option<string>, reflectedName: string)
    requires !(info.param.Some? && info.param.value.alias != "")
    requires signatureName.None? || signatureName.value == ""
    ensures var r := ParameterName(info, index, signatureName, reflectedName);
      !StartsWith(r, "arg") && (r == "" <==> reflectedName == "")
  {
    var r := ParameterName(info, index, signatureName, reflectedName);
    if StartsWith(reflectedName, "arg") {
      assert r[..3] == "par";
    }
  }

  // ------------------------------------------------------------ groups

  /** Whether filterGroups keeps a group: by its base name, absent names never being listed. */
  predicate Kept(strategy: GroupStrategy, names: seq<string>, g: ParamGroupInfo)
  {
    match strategy
    case AllGroups => true
    case SpecifiedGroups => |names| == 0 || (g.groupName.Some? && g.groupName.value in names)
    case ExceptGroups => |names| == 0 || !(g.groupName.Some? && g.groupName.value in names)
  }

  function KeepWhere(gs: seq<ParamGroupInfo>, strategy: GroupStrategy, names: seq<string>): (r: seq<ParamGroupInfo>)
    ensures forall g :: g in r ==> g in gs && Kept(strategy, names, g)
    ensures forall g :: g in gs && Kept(strategy, names, g) ==> g in r
    ensures |r| <= |gs|
  {
    if |gs| == 0 then []
    else
      var last := gs[|gs| - 1];
      var front := KeepWhere(gs[..|gs| - 1], strategy, names);
      assert gs == gs[..|gs| - 1] + [last];
      front + (if Kept(strategy, names, last) then [last] else [])
  }

  /**
   * filterGroups: ALL_GROUPS and an empty list hand back the same list;
   * otherwise the groups whose base name is listed (SPECIFIED_GROUPS) or
   * not listed (EXCEPT_GROUPS), in their order.
   */
  function FilterGroups(gs: seq<ParamGroupInfo>, strategy: GroupStrategy, names: seq<string>): (r: seq<ParamGroupInfo>)
    ensures strategy == AllGroups || |names| == 0 ==> r == gs
    ensures forall g :: g in r ==> g in gs && Kept(strategy, names, g)
    ensures forall g :: g in gs && Kept(strategy, names, g) ==> g in r
  {
    if strategy == AllGroups || |names| == 0 then gs else KeepWhere(gs, strategy, names)
  }

  /** A group listed under SPECIFIED_GROUPS is never dropped, and one listed under EXCEPT_GROUPS never kept. */
  lemma FilterGroupsByName(gs: seq<ParamGroupInfo>, names: seq<string>, g: ParamGroupInfo)
    requires g in gs && g.groupName.Some? && g.groupName.value in names
    ensures g in FilterGroups(gs, SpecifiedGroups, names)
    ensures g !in FilterGroups(gs, ExceptGroups, names)
  {
  }

  /** Java's string concatenation of a possibly null name. */
  function NameText(name: Option<string>): string
  {
    if name.None? then "null" else name.value
  }

  /** generateGroupKey: the method part with the declaring type's full name, the user part, ":group:" and the base name, and the MD5 of the params when there are any. */
  function GenerateGroupKey(s: Settings, t: Target, user: Option<string>, g: ParamGroupInfo, md5: string -> string): (r: string)
    reads g
    ensures StartsWith(r, KeyHead)
  {
    var a := KeyHead + MethodPart(s.keyPrefix, t.declaringTypeName + "." + t.methodName);
    var r := a + UserPart(s.includeUser, user) + ":group:" + NameText(g.groupName)
      + (if !g.IsEmpty() then ":params:" + md5(g.ParamsHash()) else "");
    assert r[..|KeyHead|] == a[..|KeyHead|];
    r
  }

  /** The group key depends on the group's name and params only, not on the order the params were added in. */
  lemma GroupKeyOfParams(s: Settings, t: Target, user: Option<string>, g1: ParamGroupInfo, g2: ParamGroupInfo, md5: string -> string)
    requires g1.Valid() && g2.Valid() && g1.groupName == g2.groupName && g1.Params() == g2.Params()
    ensures GenerateGroupKey(s, t, user, g1, md5) == GenerateGroupKey(s, t, user, g2, md5)
  {
    ParamsHashOfParams(g1, g2);
  }

  /** Which key a group locks: a "default" group carrying a traditional key locks that key, any other its group key. */
  function GroupKeyFor(s: Settings, t: Target, user: Option<string>, g: ParamGroupInfo, md5: string -> string): (r: string)
    reads g
    ensures g.groupName == Some(DefaultGroupName) && TraditionalKeyParam in g.Params() ==> r == g.Params()[TraditionalKeyParam]
    ensures !(g.groupName == Some(DefaultGroupName) && TraditionalKeyParam in g.Params()) ==> StartsWith(r, KeyHead) && r == GenerateGroupKey(s, t, user, g, md5)
  {
    if g.groupName == Some(DefaultGroupName) && TraditionalKeyParam in g.Params() then g.Params()[TraditionalKeyParam]
    else GenerateGroupKey(s, t, user, g, md5)
  }

  /** The lock request of the i-th sorted group in call c: its actual name, its key, and the UUIDs the call draws for it. */
  function RequestFor(s: Settings, t: Target, user: Option<string>, g: ParamGroupInfo, md5: string -> string,
                      uuid: (nat, nat) -> string, c: nat, i: nat): LockRequest
    reads g
  {
    LockRequest(NameText(g.actualGroupName), GroupKeyFor(s, t, user, g, md5), uuid(c, 2 * i), uuid(c, 2 * i + 1))
  }

  function Requests(s: Settings, t: Target, user: Option<string>, gs: seq<ParamGroupInfo>, md5: string -> string,
                    uuid: (nat, nat) -> string, c: nat): (r: seq<LockRequest>)
    reads set g | g in gs
    ensures |r| == |gs|
    ensures forall i :: 0 <= i < |gs| ==> r[i] == RequestFor(s, t, user, gs[i], md5, uuid, c, i)
  {
    if |gs| == 0 then []
    else Requests(s, t, user, gs[..|gs| - 1], md5, uuid, c) + [RequestFor(s, t, user, gs[|gs| - 1], md5, uuid, c, |gs| - 1)]
  }

  /**
   * The plan of tryAcquireGroupLocks for call c: the groups the filter keeps
   * that hold params, sorted by the comparator, and one lock request each.
   */
  predicate Planned(s: Settings, t: Target, user: Option<string>, groups: seq<ParamGroupInfo>, md5: string -> string,
                    uuid: (nat, nat) -> string, c: nat, sorted: seq<ParamGroupInfo>, reqs: seq<LockRequest>)
    reads set g | g in groups
  {
    && (forall g :: g in sorted ==> g in groups)
    && SortedBy(s.orderByWeight, sorted)
    && multiset(sorted) == multiset(NonEmpty(FilterGroups(groups, s.groupStrategy, s.groups)))
    && reqs == Requests(s, t, user, sorted, md5, uuid, c)
  }

  /** Whether tryAcquireLock replaces the groups by one default group with the traditional key. */
  predicate NeedsDefaultGroup(groups: seq<ParamGroupInfo>, strategy: GroupStrategy)
  {
    |groups| == 0 || ((forall g :: g in groups ==> g.IsDefaultGroup()) && strategy == AllGroups)
  }

  // ------------------------------------------------------------ the service

  /** The combined value of one more lock: its entry after a '|', or alone for the first. */
  lemma SerializeSnoc(locks: seq<GroupLock>, i: nat)
    requires i < |locks|
    ensures var e := EntryOf(locks[i]);
            Join(Entries(locks[..i + 1]), "|") == if i == 0 then e else Join(Entries(locks[..i]), "|") + "|" + e
    ensures |EntryOf(locks[i])| >= 2
  {
    var e := EntryOf(locks[i]);
    assert locks[..i + 1] == locks[..i] + [locks[i]];
    assert Entries(locks[..i] + [locks[i]]) == Entries(locks[..i]) + [e];
    JoinSnoc(Entries(locks[..i]), e, "|");
  }

  class DuplicateSubmitService {
    const redis: LockStore
    const md5: string -> string
    /** The UUIDs the service draws: the n-th of call c is uuid(c, n). */
    const uuid: (nat, nat) -> string
    /** How many lock calls the service has made. */
    var calls: nat

    constructor (redis: LockStore, md5: string -> string, uuid: (nat, nat) -> string)
      ensures this.redis == redis && this.md5 == md5 && this.uuid == uuid && calls == 0
    {
      this.redis := redis;
      this.md5 := md5;
      this.uuid := uuid;
      calls := 0;
    }

    /** tryAcquireSingleLock: a duplicate gives None; a store that is down fails open with the fallback value. */
    method TryAcquireSingleLock(key: string, intervalMillis: int, value: string, fallback: string) returns (r: Option<string>)
      modifies redis
      ensures redis.down == old(redis.down)
      ensures old(redis.down) ==> r == Some(fallback) && redis.contents == old(redis.contents)
      ensures !old(redis.down) ==> r == (if key in old(redis.contents) then None else Some(value))
      ensures !old(redis.down) ==> redis.contents == CasStore(old(redis.contents), key, value, intervalMillis)
    {
      var reply := redis.CheckAndSet(key, value, intervalMillis, 0);
      if reply.None? {
        return Some(fallback);
      }
      if reply.value != 0 {
        return None;
      }
      return Some(value);
    }

    /** releaseLockWithKey: false for a missing key or value and for a store that is down; else whether the safe delete removed the lock. */
    method ReleaseLockWithKey(key: Option<string>, value: Option<string>) returns (r: bool)
      modifies redis
      ensures redis.down == old(redis.down)
      ensures key.None? || value.None? ==> !r && redis.contents == old(redis.contents)
      ensures key.Some? && value.Some? ==> (r, redis.contents) == ReleaseOne(old(redis.contents), old(redis.down), key.value, value.value)
    {
      if key.None? || value.None? {
        return false;
      }
      var reply := redis.SafeDelete(key.value, value.value);
      r := reply.Some? && reply.value == 1;
    }

    /** rollbackAcquiredLocks: a safe delete of each lock in order, whatever each returns. */
    method RollbackAcquiredLocks(locks: seq<GroupLock>)
      modifies redis
      ensures redis.down == old(redis.down)
      ensures old(redis.down) ==> redis.contents == old(redis.contents)
      ensures !old(redis.down) ==> redis.contents == Rollback(old(redis.contents), locks)
    {
      var i := 0;
      while i < |locks|
        invariant 0 <= i <= |locks|
        invariant redis.down == old(redis.down)
        invariant old(redis.down) ==> redis.contents == old(redis.contents)
        invariant !old(redis.down) ==> Rollback(old(redis.contents), locks) == Rollback(redis.contents, locks[i..])
      {
        assert locks[i..][1..] == locks[i + 1..];
        var _ := ReleaseLockWithKey(Some(locks[i].key), Some(locks[i].value));
        i := i + 1;
      }
    }

    /** tryAcquireGroupLocks: filter, sort, lock each group in turn, roll back on the first duplicate, combine the values. */
    method TryAcquireGroupLocks(groups: seq<ParamGroupInfo>, s: Settings, t: Target, user: Option<string>)
      returns (r: Option<string>, ghost sorted: seq<ParamGroupInfo>, ghost reqs: seq<LockRequest>)
      modifies this, redis
      ensures calls == old(calls) + 1 && redis.down == old(redis.down)
      ensures Planned(s, t, user, groups, md5, uuid, old(calls), sorted, reqs)
      ensures var o := Acquire(old(redis.contents), old(redis.down), s.intervalMillis, reqs, []);
        && redis.contents == o.store
        && r == (if o.locks.Some? then Some(Serialize(o.locks.value)) else None)
    {
      var c := calls;
      calls := c + 1;
      var plan;
      plan, sorted := PlanLocks(groups, s, t, user, c);
      reqs := plan;
      r := LockAll(plan, s.intervalMillis);
    }

    /** The groups tryAcquireGroupLocks locks, filtered and sorted, and the lock request of each. */
    method PlanLocks(groups: seq<ParamGroupInfo>, s: Settings, t: Target, user: Option<string>, c: nat)
      returns (reqs: seq<LockRequest>, ghost sorted: seq<ParamGroupInfo>)
      ensures Planned(s, t, user, groups, md5, uuid, c, sorted, reqs)
    {
      var filtered := FilterGroups(groups, s.groupStrategy, s.groups);
      var list := CreateSortedList(filtered, s.orderByWeight);
      sorted := list;
      reqs := Requests(s, t, user, list, md5, uuid, c);
    }

    /** Every lock of the requests, or none; on success the combined lock value. */
    method LockAll(reqs: seq<LockRequest>, intervalMillis: int) returns (r: Option<string>)
      modifies redis
      ensures redis.down == old(redis.down)
      ensures var o := Acquire(old(redis.contents), old(redis.down), intervalMillis, reqs, []);
        && redis.contents == o.store
        && r == (if o.locks.Some? then Some(Serialize(o.locks.value)) else None)
    {
      var locks := AcquireEach(reqs, intervalMillis);
      if locks.None? {
        r := None;
      } else {
        var combined := CombineLockValues(locks.value);
        r := Some(combined);
      }
    }

    /**
     * The loop of tryAcquireGroupLocks over the groups' lock requests: each
     * lock in turn, and on the first duplicate the rollback of every lock
     * taken so far.
     */
    method AcquireEach(reqs: seq<LockRequest>, intervalMillis: int) returns (locks: Option<seq<GroupLock>>)
      modifies redis
      ensures redis.down == old(redis.down)
      ensures var o := Acquire(old(redis.contents), old(redis.down), intervalMillis, reqs, []);
        redis.contents == o.store && locks == o.locks
    {
      ghost var goal := Acquire(redis.contents, redis.down, intervalMillis, reqs, []);
      var acquired: seq<GroupLock> := [];
      var i := 0;
      while i < |reqs|
        invariant 0 <= i <= |reqs|
        invariant redis.down == old(redis.down)
        invariant goal == Acquire(redis.contents, redis.down, intervalMillis, reqs[i..], acquired)
      {
        var q := reqs[i];
        assert reqs[i..][0] == q && reqs[i..][1..] == reqs[i + 1..];
        var value := TryAcquireSingleLock(q.key, intervalMillis, q.value, q.fallback);
        if value.None? {
          RollbackAcquiredLocks(acquired);
          return None;
        }
        acquired := acquired + [GroupLock(q.name, q.key, value.value)];
        i := i + 1;
      }
      return Some(acquired);
    }

    /** tryAcquireLock: no groups, or only default groups under ALL_GROUPS, lock one "default" group holding the traditional key. */
    method TryAcquireLock(groups: seq<ParamGroupInfo>, s: Settings, t: Target, user: Option<string>, paramsHash: Option<string>)
      returns (r: Option<string>, ghost effective: seq<ParamGroupInfo>, ghost sorted: seq<ParamGroupInfo>, ghost reqs: seq<LockRequest>)
      modifies this, redis
      ensures !NeedsDefaultGroup(groups, s.groupStrategy) ==> effective == groups
      ensures NeedsDefaultGroup(groups, s.groupStrategy) ==>
        && |effective| == 1 && fresh(effective[0])
        && effective[0].groupName == Some(DefaultGroupName) && effective[0].actualGroupName == Some(DefaultGroupName)
        && effective[0].weight == 0 && effective[0].Valid()
        && effective[0].Params() == map[TraditionalKeyParam := GenerateKey(s, t, user, paramsHash)]
      ensures calls == old(calls) + 1 && redis.down == old(redis.down)
      ensures Planned(s, t, user, effective, md5, uuid, old(calls), sorted, reqs)
      ensures var o := Acquire(old(redis.contents), old(redis.down), s.intervalMillis, reqs, []);
        && redis.contents == o.store
        && r == (if o.locks.Some? then Some(Serialize(o.locks.value)) else None)
    {
      var gs := groups;
      var allDefault := true;
      var i := 0;
      while i < |groups|
        invariant 0 <= i <= |groups|
        invariant allDefault <==> forall j :: 0 <= j < i ==> groups[j].IsDefaultGroup()
      {
        if !groups[i].IsDefaultGroup() {
          allDefault := false;
        }
        i := i + 1;
      }
      assert allDefault <==> forall g :: g in groups ==> g.IsDefaultGroup();
      if |groups| == 0 || (allDefault && s.groupStrategy == AllGroups) {
        var d := new ParamGroupInfo(Some(DefaultGroupName), 0);
        d.AddParam(TraditionalKeyParam, GenerateKey(s, t, user, paramsHash));
        gs := [d];
      }
      effective := gs;
      r, sorted, reqs := TryAcquireGroupLocks(gs, s, t, user);
    }

    /** The loop that builds the combined lock value: entries joined by '|'. */
    method CombineLockValues(locks: seq<GroupLock>) returns (combined: string)
      ensures combined == Serialize(locks)
    {
      combined := "";
      var i := 0;
      while i < |locks|
        invariant 0 <= i <= |locks|
        invariant combined == Join(Entries(locks[..i]), "|")
        invariant |combined| > 0 <==> i > 0
      {
        var e := EntryOf(locks[i]);
        SerializeSnoc(locks, i);
        if |combined| > 0 {
          combined := combined + "|";
        }
        combined := combined + e;
        i := i + 1;
      }
      assert locks[..i] == locks;
    }

    /**
     * releaseGroupLocks: a value with neither ':' nor '|' is released on the
     * traditional key; otherwise every '|'-separated entry that parses is
     * released, and the result is whether all of them were. Each entry is
     * parsed with the corrected parse (ParseCorrected).
     */
    method ReleaseGroupLocks(combined: string, traditionalKey: string) returns (r: bool)
      modifies redis
      ensures redis.down == old(redis.down)
      ensures (r, redis.contents) == ReleaseCombined(old(redis.contents), old(redis.down), combined, traditionalKey)
    {
      if !Contains(combined, ":") && !Contains(combined, "|") {
        r := ReleaseLockWithKey(Some(traditionalKey), Some(combined));
        return;
      }
      r := ReleaseEach(Split(combined, "|"));
    }

    /** The loop of releaseGroupLocks: release every entry that parses, and report whether all were released. */
    method ReleaseEach(entries: seq<string>) returns (r: bool)
      modifies redis
      ensures redis.down == old(redis.down)
      ensures (r, redis.contents) == ReleaseAll(old(redis.contents), old(redis.down), ParsedCorrected(entries))
    {
      ghost var parsed := ParsedCorrected(entries);
      ghost var goal := ReleaseAll(redis.contents, redis.down, parsed);
      r := true;
      var i := 0;
      while i < |entries|
        invariant 0 <= i <= |entries|
        invariant redis.down == old(redis.down)
        invariant goal == (r && ReleaseAll(redis.contents, redis.down, parsed[i..]).0, ReleaseAll(redis.contents, redis.down, parsed[i..]).1)
      {
        assert parsed[i..][0] == ParseCorrected(entries[i]) && parsed[i..][1..] == parsed[i + 1..];
        var entry := ParseCorrected(entries[i]);
        if entry.Some? {
          var released := ReleaseLockWithKey(Some(entry.value.0), Some(entry.value.1));
          if !released {
            r := false;
          }
        }
        i := i + 1;
      }
    }

    /** releaseLock: false without a lock value or a request; else the group release. */
    method ReleaseLock(lockValue: Option<string>, hasRequest: bool, traditionalKey: string) returns (r: bool)
      modifies redis
      ensures redis.down == old(redis.down)
      ensures lockValue.None? || !hasRequest ==> !r && redis.contents == old(redis.contents)
      ensures lockValue.Some? && hasRequest ==>
        (r, redis.contents) == ReleaseCombined(old(redis.contents), old(redis.down), lockValue.value, traditionalKey)
    {
      if lockValue.None? || !hasRequest {
        return false;
      }
      r := ReleaseGroupLocks(lockValue.value, traditionalKey);
    }

    /**
     * tryAcquireLockWithKey: None for a missing key; an empty key or value
     * or an interval that is not positive throws, and the exception, like a
     * store that is down, fails open with a second UUID.
     */
    method TryAcquireLockWithKey(key: Option<string>, intervalMillis: int) returns (r: Option<string>)
      modifies this, redis
      ensures key.None? ==> r.None? && calls == old(calls) && redis.contents == old(redis.contents)
      ensures redis.down == old(redis.down)
      ensures key.Some? ==> calls == old(calls) + 1
      ensures key.Some? ==>
        var value := uuid(old(calls), 0);
        var rejected := key.value == "" || value == "" || intervalMillis <= 0 || old(redis.down);
        && (rejected ==> r == Some(uuid(old(calls), 1)) && redis.contents == old(redis.contents))
        && (!rejected ==> r == (if key.value in old(redis.contents) then None else Some(value)))
        && (!rejected ==> redis.contents == CasStore(old(redis.contents), key.value, value, intervalMillis))
    {
      if key.None? {
        return None;
      }
      var c := calls;
      calls := calls + 1;
      var value := uuid(c, 0);
      if key.value == "" || value == "" || intervalMillis <= 0 {
        return Some(uuid(c, 1));
      }
      r := TryAcquireSingleLock(key.value, intervalMillis, value, uuid(c, 1));
    }
  }

  // ------------------------------------------------------------ the release parse

  /**
   * With a key prefix such as "order", no user and no params, the
   * traditional key ends in ':' and its entry reads
   * "default::duplicate_submit:order:::v". The parse as written splits it
   * into "duplicate_submit:order" and ":v", so the release misses the lock,
   * reports false and leaves the key in the store until it expires.
   */
  lemma PrefixedLockNotReleasedAsWritten(base: map<string, string>, s: Settings, t: Target, user: Option<string>,
                                         paramsHash: Option<string>, v: string, fallback: string)
    requires s.keyPrefix != "" && ':' !in s.keyPrefix && '|' !in s.keyPrefix
    requires !s.includeUser && s.paramStrategy == ExcludeAll && s.intervalMillis > 0
    requires ':' !in v && '|' !in v
    requires var key := GenerateKey(s, t, user, paramsHash); key !in base && key[..|key| - 1] !in base
    ensures var key := GenerateKey(s, t, user, paramsHash);
      var o := Acquire(base, false, s.intervalMillis, [LockRequest(DefaultGroupName, key, v, fallback)], []);
      && o.locks == Some([GroupLock(DefaultGroupName, key, v)])
      && o.store == base[key := v]
      && ReleaseCombinedAsWritten(o.store, false, Serialize(o.locks.value), key) == (false, base[key := v])
  {
    var key := GenerateKey(s, t, user, paramsHash);
    PrefixedKeyShape(s, t, user, paramsHash);
    var stem := KeyHead + s.keyPrefix;
    assert key == stem + ":";
    assert key[..|key| - 1] == stem;
    AcquireOne(base, s.intervalMillis, DefaultGroupName, key, v, fallback);
    PrefixedRelease(base[key := v], s.keyPrefix, v);
  }

  /** The release, as written, of the one lock on a prefixed key whose stem is not locked. */
  lemma PrefixedRelease(store: map<string, string>, prefix: string, v: string)
    requires prefix != "" && ':' !in prefix && '|' !in prefix && ':' !in v && '|' !in v
    requires KeyHead + prefix !in store
    ensures var key := KeyHead + prefix + ":";
      ReleaseCombinedAsWritten(store, false, Serialize([GroupLock(DefaultGroupName, key, v)]), key) == (false, store)
  {
    var stem := KeyHead + prefix;
    var key := stem + ":";
    var l := GroupLock(DefaultGroupName, key, v);
    var e := EntryOf(l);
    PrefixedEntryAsWritten(prefix, v);
    SerializeOne(l);
    SerializeHasColon([l]);
    KeyHeadFreeOfBar();
    assert '|' !in key;
    EntryFreeOfBar(l);
    ReleaseMisparsed(store, e, stem, ":" + v, key);
  }

  lemma KeyHeadFreeOfBar()
    ensures '|' !in KeyHead
  {
    forall i | 0 <= i < |KeyHead| ensures KeyHead[i] != '|' {
    }
  }

  /** Locking one free key with a positive interval takes it with the caller's value. */
  lemma AcquireOne(base: map<string, string>, ttl: int, name: string, key: string, v: string, fallback: string)
    requires key !in base && ttl > 0
    ensures Acquire(base, false, ttl, [LockRequest(name, key, v, fallback)], [])
      == Outcome(Some([GroupLock(name, key, v)]), base[key := v])
  {
    var reqs := [LockRequest(name, key, v, fallback)];
    assert reqs[1..] == [];
    assert [] + [GroupLock(name, key, v)] == [GroupLock(name, key, v)];
  }

  /** The as-written parse of the entry of a prefixed key: the key loses its trailing ':' to the value. */
  lemma PrefixedEntryAsWritten(prefix: string, v: string)
    requires prefix != "" && ':' !in prefix && '|' !in prefix && ':' !in v && '|' !in v
    ensures var stem := KeyHead + prefix;
      ParseAsWritten(EntryOf(GroupLock(DefaultGroupName, stem + ":", v))) == Some((stem, ":" + v))
  {
    var stem := KeyHead + prefix;
    SeparableFirstChar(DefaultGroupName, "::");
    StemSeparable(prefix);
    var misread := GroupLock(DefaultGroupName, stem, ":" + v);
    ParseAsWrittenEntry(misread);
    ColonMoves(DefaultGroupName, stem, v);
  }

  /** In "a::b:::v" the middle ':' may be read as the key's last char or as the value's first. */
  lemma ColonMoves(a: string, b: string, v: string)
    ensures a + "::" + b + "::" + (":" + v) == a + "::" + (b + ":") + "::" + v
  {
    var x := a + "::" + b;
    assert x + "::" + (":" + v) == x + ":::" + v;
    assert x + ":" + "::" + v == x + ":::" + v;
  }

  /** An entry free of '|' that parses to a key not in the store releases nothing and reports false. */
  lemma ReleaseMisparsed(store: map<string, string>, e: string, k: string, w: string, traditionalKey: string)
    requires '|' !in e && Contains(e, ":") && ParseAsWritten(e) == Some((k, w)) && k !in store
    ensures ReleaseCombinedAsWritten(store, false, e, traditionalKey) == (false, store)
  {
    NoCharNoOccurrence(e, '|');
    assert Split(e, "|") == [e];
    var parsed := ParsedAsWritten([e]);
    assert parsed == [Some((k, w))];
    assert parsed[1..] == [];
    assert ReleaseOne(store, false, k, w) == (false, store);
    assert ReleaseAll(store, false, parsed[1..]) == (true, store);
    assert ReleaseAll(store, false, parsed) == (false, store);
  }

  /** "duplicate_submit:" and a prefix free of ':' hold no "::" and do not end in ':'. */
  lemma StemSeparable(prefix: string)
    requires prefix != "" && ':' !in prefix
    ensures Separable(KeyHead + prefix, "::")
  {
    var a := KeyHead + prefix;
    forall j | 0 <= j < |a| - 1 ensures !(a[j] == ':' && a[j + 1] == ':') {
      if j + 1 < |KeyHead| {
        assert a[j] == KeyHead[j] && a[j + 1] == KeyHead[j + 1];
      } else {
        assert a[j + 1] == prefix[j + 1 - |KeyHead|];
      }
    }
    assert a[|a| - 1] == prefix[|prefix| - 1];
    SeparableDoubled(a, ':');
  }
}
