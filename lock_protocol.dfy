/**
 * The all-or-nothing group locking protocol of the duplicate-submit
 * service, on values: acquiring every group lock in order with rollback on
 * the first duplicate, the combined lock value "name::key::value|...", and
 * the release that parses it back.
 */
module LockProtocol {
  import opened Text
  import opened LockStores

  /** GroupLockInfo: the actual group name, the lock key and the lock value taken. */
  datatype GroupLock = GroupLock(name: string, key: string, value: string)

  /** One group to lock: its name and key, the fresh lock value, and the value handed out should the store fail. */
  datatype LockRequest = LockRequest(name: string, key: string, value: string, fallback: string)

  /** The locks' keys mapped to their values. */
  function Held(locks: seq<GroupLock>): map<string, string>
  {
    if |locks| == 0 then map[] else Held(locks[1..])[locks[0].key := locks[0].value]
  }

  function Keys(locks: seq<GroupLock>): set<string>
  {
    set i | 0 <= i < |locks| :: locks[i].key
  }

  /** What the acquisition leaves in the store: the held locks, or nothing when PEXPIRE deleted each at once. */
  function Added(locks: seq<GroupLock>, ttl: int): map<string, string>
  {
    if ttl > 0 then Held(locks) else map[]
  }

  /**
   * Locks none of whose keys the acquisition found in its starting store,
   * on distinct keys when they actually stay in the store (ttl > 0).
   */
  predicate Fresh(base: map<string, string>, locks: seq<GroupLock>, ttl: int)
  {
    (forall i :: 0 <= i < |locks| ==> locks[i].key !in base)
    && (ttl > 0 ==> forall i, j :: 0 <= i < j < |locks| ==> locks[i].key != locks[j].key)
  }

  lemma {:induction false} HeldKeys(locks: seq<GroupLock>)
    ensures Held(locks).Keys == Keys(locks)
  {
    if |locks| > 0 {
      HeldKeys(locks[1..]);
      assert Keys(locks) == Keys(locks[1..]) + {locks[0].key} by {
        forall k | k in Keys(locks) ensures k in Keys(locks[1..]) + {locks[0].key} {
          var i :| 0 <= i < |locks| && locks[i].key == k;
          if i > 0 { assert locks[1..][i - 1].key == k; }
        }
        forall k | k in Keys(locks[1..]) ensures k in Keys(locks) {
          var i :| 0 <= i < |locks[1..]| && locks[1..][i].key == k;
          assert locks[i + 1].key == k;
        }
      }
    }
  }

  lemma FreshTail(base: map<string, string>, locks: seq<GroupLock>, ttl: int)
    requires Fresh(base, locks, ttl) && |locks| > 0
    ensures Fresh(base, locks[1..], ttl)
    ensures ttl > 0 ==> locks[0].key !in Keys(locks[1..])
  {
  }

  /** Appending a lock on a new key adds exactly that key. */
  lemma {:induction false} HeldSnoc(locks: seq<GroupLock>, l: GroupLock)
    requires l.key !in Keys(locks)
    ensures Held(locks + [l]) == Held(locks)[l.key := l.value]
  {
    if |locks| > 0 {
      assert (locks + [l])[1..] == locks[1..] + [l];
      assert l.key !in Keys(locks[1..]);
      HeldSnoc(locks[1..], l);
      assert l.key != locks[0].key;
    }
  }

  /** rollbackAcquiredLocks: a safe delete of each lock, first to last. */
  function Rollback(store: map<string, string>, locks: seq<GroupLock>): map<string, string>
  {
    if |locks| == 0 then store
    else Rollback(DelStore(store, locks[0].key, locks[0].value), locks[1..])
  }

  lemma ReleaseFirst(base: map<string, string>, locks: seq<GroupLock>, ttl: int)
    requires Fresh(base, locks, ttl) && |locks| > 0
    ensures DelStore(base + Added(locks, ttl), locks[0].key, locks[0].value) == base + Added(locks[1..], ttl)
    ensures ttl > 0 ==> DelReply(base + Added(locks, ttl), locks[0].key, locks[0].value) == 1
  {
    var l := locks[0];
    FreshTail(base, locks, ttl);
    if ttl > 0 {
      HeldKeys(locks[1..]);
      var m := base + Held(locks[1..]);
      assert base + Added(locks, ttl) == m[l.key := l.value];
      assert l.key !in m;
      RemoveAdded(m, l.key, l.value);
    }
  }

  lemma RemoveAdded(m: map<string, string>, k: string, v: string)
    requires k !in m
    ensures m[k := v] - {k} == m
  {
  }

  /** Rolling back what was acquired returns the store to where it started. */
  lemma {:induction false} RollbackRestores(base: map<string, string>, locks: seq<GroupLock>, ttl: int)
    requires Fresh(base, locks, ttl)
    ensures Rollback(base + Added(locks, ttl), locks) == base
  {
    if |locks| > 0 {
      ReleaseFirst(base, locks, ttl);
      FreshTail(base, locks, ttl);
      RollbackRestores(base, locks[1..], ttl);
    } else {
      assert base + Added(locks, ttl) == base;
    }
  }

  datatype Outcome = Outcome(locks: Option<seq<GroupLock>>, store: map<string, string>)

  /**
   * The loop of tryAcquireGroupLocks from one point on, with `held` the
   * locks taken so far: a store that is down fails open with the fallback
   * value, a key already present is a duplicate that rolls back every held
   * lock, a free key is set.
   */
  function Acquire(store: map<string, string>, down: bool, ttl: int, reqs: seq<LockRequest>, held: seq<GroupLock>): Outcome
    decreases |reqs|
  {
    if |reqs| == 0 then Outcome(Some(held), store)
    else
      var q := reqs[0];
      if down then Acquire(store, down, ttl, reqs[1..], held + [GroupLock(q.name, q.key, q.fallback)])
      else if q.key in store then Outcome(None, Rollback(store, held))
      else Acquire(CasStore(store, q.key, q.value, ttl), down, ttl, reqs[1..], held + [GroupLock(q.name, q.key, q.value)])
  }

  /** The lock each request takes on success. */
  function Taken(reqs: seq<LockRequest>): (r: seq<GroupLock>)
    ensures |r| == |reqs|
    ensures forall i :: 0 <= i < |reqs| ==> r[i] == GroupLock(reqs[i].name, reqs[i].key, reqs[i].value)
  {
    if |reqs| == 0 then [] else [GroupLock(reqs[0].name, reqs[0].key, reqs[0].value)] + Taken(reqs[1..])
  }

  function FallenBack(reqs: seq<LockRequest>): (r: seq<GroupLock>)
    ensures |r| == |reqs|
    ensures forall i :: 0 <= i < |reqs| ==> r[i] == GroupLock(reqs[i].name, reqs[i].key, reqs[i].fallback)
  {
    if |reqs| == 0 then [] else [GroupLock(reqs[0].name, reqs[0].key, reqs[0].fallback)] + FallenBack(reqs[1..])
  }

  /** A store that is down hands out the fallback values and changes nothing. */
  lemma {:induction false} AcquireDown(store: map<string, string>, ttl: int, reqs: seq<LockRequest>, held: seq<GroupLock>)
    ensures Acquire(store, true, ttl, reqs, held) == Outcome(Some(held + FallenBack(reqs)), store)
    decreases |reqs|
  {
    if |reqs| > 0 {
      var q := reqs[0];
      var x := GroupLock(q.name, q.key, q.fallback);
      AcquireDown(store, ttl, reqs[1..], held + [x]);
      assert FallenBack(reqs) == [x] + FallenBack(reqs[1..]);
      assert (held + [x]) + FallenBack(reqs[1..]) == held + FallenBack(reqs);
    } else {
      assert held + FallenBack(reqs) == held;
    }
  }

  /** Setting a key the store does not hold extends the acquired locks by one. */
  lemma AcquireStep(base: map<string, string>, held: seq<GroupLock>, l: GroupLock, ttl: int)
    requires Fresh(base, held, ttl) && l.key !in base + Added(held, ttl)
    ensures Fresh(base, held + [l], ttl)
    ensures CasStore(base + Added(held, ttl), l.key, l.value, ttl) == base + Added(held + [l], ttl)
  {
    if ttl > 0 {
      HeldKeys(held);
      HeldSnoc(held, l);
      FreshSnoc(base, held, l, ttl);
      AddedSnoc(base, held, l);
    }
  }

  lemma FreshSnoc(base: map<string, string>, held: seq<GroupLock>, l: GroupLock, ttl: int)
    requires Fresh(base, held, ttl) && l.key !in base && l.key !in Keys(held)
    ensures Fresh(base, held + [l], ttl)
  {
    var held' := held + [l];
    forall i | 0 <= i < |held| ensures held[i].key != l.key {
      assert held[i].key in Keys(held);
    }
    assert forall i :: 0 <= i < |held| ==> held'[i] == held[i];
  }

  lemma AddedSnoc(base: map<string, string>, held: seq<GroupLock>, l: GroupLock)
    requires Held(held + [l]) == Held(held)[l.key := l.value]
    ensures (base + Held(held))[l.key := l.value] == base + Held(held + [l])
  {
  }

  lemma TakenCons(held: seq<GroupLock>, reqs: seq<LockRequest>)
    requires |reqs| > 0
    ensures (held + [GroupLock(reqs[0].name, reqs[0].key, reqs[0].value)]) + Taken(reqs[1..]) == held + Taken(reqs)
  {
    var l := GroupLock(reqs[0].name, reqs[0].key, reqs[0].value);
    assert Taken(reqs) == [l] + Taken(reqs[1..]);
    AppendAssoc(held, [l], Taken(reqs[1..]));
  }


  /** The acquisition is all or nothing (store up). */
  lemma {:induction false} AcquireAllOrNothing(base: map<string, string>, ttl: int, reqs: seq<LockRequest>, held: seq<GroupLock>)
    requires Fresh(base, held, ttl)
    ensures var o := Acquire(base + Added(held, ttl), false, ttl, reqs, held);
      var locks := held + Taken(reqs);
      && (o.locks.None? ==> o.store == base)
      && (o.locks.Some? ==> o.locks.value == locks && Fresh(base, locks, ttl) && o.store == base + Added(locks, ttl))
    decreases |reqs|
  {
    var store := base + Added(held, ttl);
    if |reqs| == 0 {
      assert held + Taken(reqs) == held;
    } else {
      var q := reqs[0];
      var l := GroupLock(q.name, q.key, q.value);
      if q.key in store {
        RollbackRestores(base, held, ttl);
      } else {
        AcquireStep(base, held, l, ttl);
        AcquireAllOrNothing(base, ttl, reqs[1..], held + [l]);
        TakenCons(held, reqs);
      }
    }
  }

  /** The locks taken for a prefix of one more request start with that request's lock. */
  lemma TakenPrefix(held: seq<GroupLock>, reqs: seq<LockRequest>, i: nat)
    requires i < |reqs|
    ensures var q := reqs[0];
      (held + [GroupLock(q.name, q.key, q.value)]) + Taken(reqs[1..][..i]) == held + Taken(reqs[..i + 1])
  {
    var q := reqs[0];
    assert reqs[..i + 1] == [q] + reqs[1..][..i];
    assert reqs[..i + 1][1..] == reqs[1..][..i];
  }

  /** A failed acquisition met a key that was taken when its turn came. */
  lemma {:induction false} AcquireFindsDuplicate(base: map<string, string>, ttl: int, reqs: seq<LockRequest>, held: seq<GroupLock>)
    requires Fresh(base, held, ttl)
    requires Acquire(base + Added(held, ttl), false, ttl, reqs, held).locks.None?
    ensures exists i :: 0 <= i < |reqs| && reqs[i].key in base + Added(held + Taken(reqs[..i]), ttl)
    decreases |reqs|
  {
    var store := base + Added(held, ttl);
    var q := reqs[0];
    if q.key in store {
      assert held + Taken(reqs[..0]) == held;
    } else {
      var l := GroupLock(q.name, q.key, q.value);
      AcquireStep(base, held, l, ttl);
      AcquireFindsDuplicate(base, ttl, reqs[1..], held + [l]);
      var i :| 0 <= i < |reqs[1..]| && reqs[1..][i].key in base + Added((held + [l]) + Taken(reqs[1..][..i]), ttl);
      TakenPrefix(held, reqs, i);
      assert reqs[i + 1] == reqs[1..][i];
    }
  }

  /** With the store up, a duplicate on any group leaves the store exactly as it was; success takes every lock. */
  lemma AcquireFromScratch(base: map<string, string>, ttl: int, reqs: seq<LockRequest>)
    ensures var o := Acquire(base, false, ttl, reqs, []);
      var locks := Taken(reqs);
      && (o.locks.None? ==> o.store == base && exists i :: 0 <= i < |reqs| && reqs[i].key in base + Added(Taken(reqs[..i]), ttl))
      && (o.locks.Some? ==> o.locks.value == locks && Fresh(base, locks, ttl) && o.store == base + Added(locks, ttl))
  {
    assert base + Added([], ttl) == base;
    AcquireAllOrNothing(base, ttl, reqs, []);
    if Acquire(base, false, ttl, reqs, []).locks.None? {
      ScratchDuplicate(base, ttl, reqs);
    } else {
      assert [] + Taken(reqs) == Taken(reqs);
    }
  }

  lemma ScratchDuplicate(base: map<string, string>, ttl: int, reqs: seq<LockRequest>)
    requires Acquire(base, false, ttl, reqs, []).locks.None?
    ensures exists i :: 0 <= i < |reqs| && reqs[i].key in base + Added(Taken(reqs[..i]), ttl)
  {
    assert base + Added([], ttl) == base;
    AcquireFindsDuplicate(base, ttl, reqs, []);
    var i :| 0 <= i < |reqs| && reqs[i].key in base + Added([] + Taken(reqs[..i]), ttl);
    assert [] + Taken(reqs[..i]) == Taken(reqs[..i]);
  }

  // ------------------------------------------------------------ the combined lock value

  /** One entry of the combined value: name::key::value. */
  function EntryOf(l: GroupLock): string
  {
    l.name + "::" + l.key + "::" + l.value
  }

  function Entries(locks: seq<GroupLock>): (r: seq<string>)
    ensures |r| == |locks|
    ensures forall i :: 0 <= i < |locks| ==> r[i] == EntryOf(locks[i])
  {
    if |locks| == 0 then [] else [EntryOf(locks[0])] + Entries(locks[1..])
  }

  /** The combined lock value: the entries joined by '|'. */
  function Serialize(locks: seq<GroupLock>): string
  {
    Join(Entries(locks), "|")
  }

  /** releaseGroupLocks's parse, as written: split("::", 3), kept only with three parts. */
  function ParseAsWritten(entry: string): Option<(string, string)>
  {
    var parts := SplitLimit(entry, "::", 3);
    if |parts| == 3 then Some((parts[1], parts[2])) else None
  }

  /** The parse the format needs: the name ends at the first "::", the value starts after the last. */
  function ParseCorrected(entry: string): Option<(string, string)>
  {
    match (IndexOf(entry, "::"), LastIndexOf(entry, "::"))
    case (Some(i), Some(j)) =>
      if i + 2 <= j then Some((entry[i + 2..j], entry[j + 2..]))
      else None
    case _ => None
  }

  /** The lock value of a raw store reply: one safe delete; a store that is down gives false. */
  function ReleaseOne(store: map<string, string>, down: bool, key: string, value: string): (bool, map<string, string>)
  {
    if down then (false, store) else (DelReply(store, key, value) == 1, DelStore(store, key, value))
  }

  /** The release loop over the parsed entries: every parsed lock is deleted, unparsable entries are skipped. */
  function ReleaseAll(store: map<string, string>, down: bool, parsed: seq<Option<(string, string)>>): (bool, map<string, string>)
  {
    if |parsed| == 0 then (true, store)
    else
      match parsed[0]
      case None => ReleaseAll(store, down, parsed[1..])
      case Some(kv) =>
        var (ok, store') := ReleaseOne(store, down, kv.0, kv.1);
        var (rest, store'') := ReleaseAll(store', down, parsed[1..]);
        (ok && rest, store'')
  }

  function ParsedAsWritten(entries: seq<string>): (r: seq<Option<(string, string)>>)
    ensures |r| == |entries|
    ensures forall i :: 0 <= i < |entries| ==> r[i] == ParseAsWritten(entries[i])
  {
    if |entries| == 0 then [] else [ParseAsWritten(entries[0])] + ParsedAsWritten(entries[1..])
  }

  function ParsedCorrected(entries: seq<string>): (r: seq<Option<(string, string)>>)
    ensures |r| == |entries|
    ensures forall i :: 0 <= i < |entries| ==> r[i] == ParseCorrected(entries[i])
  {
    if |entries| == 0 then [] else [ParseCorrected(entries[0])] + ParsedCorrected(entries[1..])
  }

  /** releaseGroupLocks, as written: a value with neither ':' nor '|' is a traditional lock on the method key. */
  function ReleaseCombinedAsWritten(store: map<string, string>, down: bool, combined: string, traditionalKey: string): (bool, map<string, string>)
  {
    if !Contains(combined, ":") && !Contains(combined, "|") then ReleaseOne(store, down, traditionalKey, combined)
    else ReleaseAll(store, down, ParsedAsWritten(Split(combined, "|")))
  }

  /** The same release with the corrected parse of each entry. */
  function ReleaseCombined(store: map<string, string>, down: bool, combined: string, traditionalKey: string): (bool, map<string, string>)
  {
    if !Contains(combined, ":") && !Contains(combined, "|") then ReleaseOne(store, down, traditionalKey, combined)
    else ReleaseAll(store, down, ParsedCorrected(Split(combined, "|")))
  }

  // ------------------------------------------------------------ round trips

  /** After a trailing "::", a value free of ':' holds no later separator. */
  lemma LastSeparator(a: string, v: string)
    requires |a| >= 2 && a[|a| - 2..] == "::" && ':' !in v
    ensures LastIndexOf(a + v, "::") == Some(|a| - 2)
  {
    var e := a + v;
    assert e[|a| - 2..|a|] == a[|a| - 2..];
    assert OccursAt(e, "::", |a| - 2);
    forall k | k > |a| - 2 ensures !OccursAt(e, "::", k) {
      if k + 2 <= |e| {
        if k == |a| - 1 {
          assert e[k + 1] == v[0];
          assert e[k..k + 2][1] == e[k + 1];
        } else {
          assert e[k] == v[k - |a|];
          assert e[k..k + 2][0] == e[k];
        }
      }
    }
  }

  lemma ParseCorrectedAt(e: string, i: nat, j: nat, key: string, value: string)
    requires IndexOf(e, "::") == Some(i) && LastIndexOf(e, "::") == Some(j) && i + 2 <= j
    requires e[i + 2..j] == key && e[j + 2..] == value
    ensures ParseCorrected(e) == Some((key, value))
  {
  }

  /** Names and values free of ':' make the corrected parse undo an entry, whatever the key holds. */
  lemma ParseCorrectedEntry(l: GroupLock)
    requires ':' !in l.name && ':' !in l.value
    ensures ParseCorrected(EntryOf(l)) == Some((l.key, l.value))
  {
    EntrySeparators(l);
    ParseCorrectedAt(EntryOf(l), |l.name|, |l.name| + 2 + |l.key|, l.key, l.value);
  }

  /** Where the corrected parse finds the separators of an entry, and what lies between them. */
  lemma EntrySeparators(l: GroupLock)
    requires ':' !in l.name && ':' !in l.value
    ensures var e := EntryOf(l); var j := |l.name| + 2 + |l.key|;
      && IndexOf(e, "::") == Some(|l.name|) && LastIndexOf(e, "::") == Some(j) && |l.name| + 2 <= j
      && e[|l.name| + 2..j] == l.key && e[j + 2..] == l.value
  {
    FirstSeparatorOfEntry(l);
    LastSeparatorOfEntry(l);
    EntrySlices(l, EntryOf(l));
  }

  /** A name free of ':' ends at the first "::" of its entry. */
  lemma FirstSeparatorOfEntry(l: GroupLock)
    requires ':' !in l.name
    ensures IndexOf(EntryOf(l), "::") == Some(|l.name|)
  {
    var head := l.name + "::";
    SeparableFirstChar(l.name, "::");
    assert EntryOf(l) == head + (l.key + "::" + l.value);
    IndexOfExtend(head, l.key + "::" + l.value, "::");
  }

  /** A value free of ':' starts after the last "::" of its entry. */
  lemma LastSeparatorOfEntry(l: GroupLock)
    requires ':' !in l.value
    ensures LastIndexOf(EntryOf(l), "::") == Some(|l.name| + 2 + |l.key|)
  {
    var front := l.name + "::" + l.key + "::";
    assert EntryOf(l) == front + l.value;
    assert front[|front| - 2..] == "::";
    LastSeparator(front, l.value);
  }

  lemma EntrySlices(l: GroupLock, e: string)
    requires e == EntryOf(l)
    ensures |e| == |l.name| + 2 + |l.key| + 2 + |l.value|
    ensures e[|l.name| + 2..|l.name| + 2 + |l.key|] == l.key && e[|l.name| + 2 + |l.key| + 2..] == l.value
  {
  }

  lemma SerializeOne(l: GroupLock)
    ensures Serialize([l]) == EntryOf(l)
  {
    assert Entries([l]) == [EntryOf(l)];
  }

  /** The as-written parse undoes an entry only when neither name nor key lets a "::" in early. */
  lemma ParseAsWrittenEntry(l: GroupLock)
    requires Separable(l.name, "::") && Separable(l.key, "::")
    ensures ParseAsWritten(EntryOf(l)) == Some((l.key, l.value))
  {
    var parts := [l.name, l.key, l.value];
    SplitLimitJoin(parts, "::");
    JoinThree(l.name, l.key, l.value, "::");
  }

  lemma JoinThree(a: string, b: string, c: string, d: string)
    ensures Join([a, b, c], d) == a + d + b + d + c
  {
    assert [a, b, c][1..] == [b, c];
    assert [b, c][1..] == [c];
    assert Join([c], d) == c;
    assert Join([b, c], d) == b + d + c;
    assert Join([a, b, c], d) == (a + d) + (b + d + c);
    Regroup(a + d, b, d, c);
  }

  /** No ':' and no '|' in names and values, no '|' in keys: what the corrected round trip needs. */
  predicate WellFormed(locks: seq<GroupLock>)
  {
    forall i :: 0 <= i < |locks| ==>
      ':' !in locks[i].name && ':' !in locks[i].value
      && '|' !in locks[i].name && '|' !in locks[i].key && '|' !in locks[i].value
  }

  lemma EntryFreeOfBar(l: GroupLock)
    requires '|' !in l.name && '|' !in l.key && '|' !in l.value
    ensures '|' !in EntryOf(l)
  {
  }

  /** Splitting the combined value on '|' gives back the entries. */
  lemma SplitSerialize(locks: seq<GroupLock>)
    requires WellFormed(locks) && |locks| >= 1
    ensures Split(Serialize(locks), "|") == Entries(locks)
  {
    var es := Entries(locks);
    forall i | 0 <= i < |es| ensures '|' !in es[i] {
      EntryFreeOfBar(locks[i]);
    }
    if |locks| == 1 {
      NoCharNoOccurrence(es[0], '|');
    } else {
      assert es[|es| - 1] != "";
      SplitJoinChar(es, '|');
    }
  }

  /** The first entry of the combined value releases the first lock and nothing else. */
  lemma {:induction false} ReleaseAllStep(base: map<string, string>, locks: seq<GroupLock>)
    requires Fresh(base, locks, 1) && WellFormed(locks) && |locks| > 0
    ensures ReleaseAll(base + Held(locks), false, ParsedCorrected(Entries(locks)))
         == ReleaseAll(base + Held(locks[1..]), false, ParsedCorrected(Entries(locks[1..])))
  {
    var l := locks[0];
    ParseCorrectedEntry(l);
    ReleaseFirst(base, locks, 1);
    var parsed := ParsedCorrected(Entries(locks));
    assert parsed[0] == Some((l.key, l.value));
    assert Entries(locks)[1..] == Entries(locks[1..]);
    assert parsed[1..] == ParsedCorrected(Entries(locks[1..]));
  }

  /** Releasing held locks, one parsed entry each, deletes all of them and reports success. */
  lemma {:induction false} ReleaseAllHeld(base: map<string, string>, locks: seq<GroupLock>)
    requires Fresh(base, locks, 1) && WellFormed(locks)
    ensures ReleaseAll(base + Held(locks), false, ParsedCorrected(Entries(locks))) == (true, base)
  {
    if |locks| > 0 {
      ReleaseAllStep(base, locks);
      FreshTail(base, locks, 1);
      assert WellFormed(locks[1..]);
      ReleaseAllHeld(base, locks[1..]);
    } else {
      assert base + Held(locks) == base;
    }
  }

  /** The combined value of at least one lock holds a ':' (the first entry's separator). */
  lemma SerializeHasColon(locks: seq<GroupLock>)
    requires |locks| >= 1
    ensures Contains(Serialize(locks), ":")
  {
    var es := Entries(locks);
    var combined := Serialize(locks);
    var e := EntryOf(locks[0]);
    var k := |locks[0].name|;
    assert e[k] == ':';
    if |locks| == 1 {
      assert combined == e;
    } else {
      assert combined == e + "|" + Join(es[1..], "|");
      assert combined[k] == e[k];
    }
    assert combined[k..k + 1] == ":";
    assert OccursAt(combined, ":", k);
  }

  /**
   * With the store up and a positive lock time, releasing the combined
   * value of a successful acquisition with the corrected parse deletes
   * every lock and returns the store to where it started.
   */
  lemma ReleaseAfterAcquireCorrected(base: map<string, string>, ttl: int, reqs: seq<LockRequest>, traditionalKey: string)
    requires ttl > 0 && |reqs| >= 1
    requires Acquire(base, false, ttl, reqs, []).locks.Some?
    requires WellFormed(Taken(reqs))
    ensures var o := Acquire(base, false, ttl, reqs, []);
      ReleaseCombined(o.store, false, Serialize(o.locks.value), traditionalKey) == (true, base)
  {
    AcquireFromScratch(base, ttl, reqs);
    var locks := Taken(reqs);
    SplitSerialize(locks);
    SerializeHasColon(locks);
    ReleaseAllHeld(base, locks);
  }
}
