/**
 * The Redis side of duplicate-submit locking: a map from lock key to lock
 * value with the two Lua scripts run against it, read sequentially. Expiry
 * is not modelled apart from one of its effects: PEXPIRE with a time that
 * is not positive deletes the key at once. The remaining time PTTL reports
 * is a parameter, and `down` stands for a store that throws on every call.
 */
module LockStores {
  import opened Text

  /** CHECK_AND_SET's reply: 0 when the key was free, else the remaining time or 1. */
  function CasReply(store: map<string, string>, key: string, remaining: int): (r: int)
    ensures r == 0 <==> key !in store
    ensures key in store && remaining > 0 ==> r == remaining
  {
    if key in store then (if remaining > 0 then remaining else 1) else 0
  }

  /** The store after CHECK_AND_SET: SETNX then PEXPIRE, which deletes the key again for a time <= 0. */
  function CasStore(store: map<string, string>, key: string, value: string, ttl: int): (r: map<string, string>)
    ensures key in store ==> r == store
    ensures key !in store && ttl > 0 ==> r == store[key := value]
    ensures key !in store && ttl <= 0 ==> r == store
  {
    if key in store then store else if ttl > 0 then store[key := value] else store
  }

  /** SAFE_DELETE's reply: 1 when the key held exactly this value and is gone. */
  function DelReply(store: map<string, string>, key: string, value: string): (r: int)
    ensures r == 1 <==> key in store && store[key] == value
    ensures r == 0 <==> !(key in store && store[key] == value)
  {
    if key in store && store[key] == value then 1 else 0
  }

  function DelStore(store: map<string, string>, key: string, value: string): (r: map<string, string>)
    ensures key in store && store[key] == value ==> r == store - {key}
    ensures !(key in store && store[key] == value) ==> r == store
  {
    if key in store && store[key] == value then store - {key} else store
  }

  /** Setting a free key and deleting it with the same value is the identity. */
  lemma CasThenDel(store: map<string, string>, key: string, value: string, ttl: int)
    requires key !in store
    ensures DelStore(CasStore(store, key, value, ttl), key, value) == store
    ensures DelReply(CasStore(store, key, value, ttl), key, value) == (if ttl > 0 then 1 else 0)
  {
    if ttl > 0 {
      assert store[key := value] - {key} == store;
    }
  }

  /** Deleting with another value leaves someone else's lock alone. */
  lemma DelOtherValue(store: map<string, string>, key: string, value: string, other: string)
    requires key in store && store[key] == value && other != value
    ensures DelStore(store, key, other) == store && key in DelStore(store, key, other)
  {
  }

  class LockStore {
    var contents: map<string, string>
    var down: bool

    constructor (contents: map<string, string>, down: bool)
      ensures this.contents == contents && this.down == down
    {
      this.contents := contents;
      this.down := down;
    }

    /** LUA_SCRIPT_CHECK_AND_SET; None is the exception a store that is down throws. */
    method CheckAndSet(key: string, value: string, ttl: int, remaining: int) returns (r: Option<int>)
      modifies this
      ensures down == old(down)
      ensures old(down) ==> r.None? && contents == old(contents)
      ensures !old(down) ==> r == Some(CasReply(old(contents), key, remaining))
      ensures !old(down) ==> contents == CasStore(old(contents), key, value, ttl)
    {
      if down {
        return None;
      }
      if key in contents {
        r := Some(if remaining > 0 then remaining else 1);
      } else {
        contents := contents[key := value];
        if ttl <= 0 {
          contents := contents - {key};
          assert contents == old(contents);
        }
        r := Some(0);
      }
    }

    /** LUA_SCRIPT_SAFE_DELETE: GET, and DEL only when the value is the caller's own. */
    method SafeDelete(key: string, value: string) returns (r: Option<int>)
      modifies this
      ensures down == old(down)
      ensures old(down) ==> r.None? && contents == old(contents)
      ensures !old(down) ==> r == Some(DelReply(old(contents), key, value))
      ensures !old(down) ==> contents == DelStore(old(contents), key, value)
    {
      if down {
        return None;
      }
      if key in contents && contents[key] == value {
        contents := contents - {key};
        r := Some(1);
      } else {
        r := Some(0);
      }
    }
  }
}
