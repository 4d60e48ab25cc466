/**
 * The Java objects parameter-value processors receive and return: null,
 * strings, numbers, lists, other collections, object arrays, maps (as
 * their entries in iteration order) and any other object, known only by
 * its toString. A processor either returns a value or throws.
 */
module Values {
  import opened Text

  datatype Value =
    | Null
    | Str(s: string)
    | Num(n: int)
    | List(items: seq<Value>)
    /** A Collection that is not a List, such as a Set. */
    | OtherCollection(items: seq<Value>)
    /** An Object[]; its toString is the identity text Object.toString gives it. */
    | Array(items: seq<Value>, identity: string)
    | Dict(entries: seq<Pair>)
    | Other(text: string)

  /** One entry of a map. */
  datatype Pair = Pair(key: Value, val: Value)

  /** What a processor does with a value: returns one, or throws. */
  datatype Outcome = Returned(value: Value) | Threw

  /** String.valueOf: "null" for null, else toString, with AbstractCollection's and AbstractMap's text. */
  function ToString(v: Value): string
  {
    match v
    case Null => "null"
    case Str(s) => s
    case Num(n) => IntToString(n)
    case List(items) => "[" + Join(seq(|items|, i requires 0 <= i < |items| => ToString(items[i])), ", ") + "]"
    case OtherCollection(items) => "[" + Join(seq(|items|, i requires 0 <= i < |items| => ToString(items[i])), ", ") + "]"
    case Array(_, identity) => identity
    case Dict(entries) =>
      "{" + Join(seq(|entries|, i requires 0 <= i < |entries| =>
                   ToString(entries[i].key) + "=" + ToString(entries[i].val)), ", ") + "}"
    case Other(text) => text
  }

  /** Map.get for a string key: the value of the first entry with that key, if any. */
  function Lookup(entries: seq<Pair>, key: string): (r: Option<Value>)
    ensures r.Some? <==> exists i :: 0 <= i < |entries| && entries[i].key == Str(key)
    ensures r.Some? ==> exists i :: 0 <= i < |entries| && entries[i] == Pair(Str(key), r.value)
  {
    if |entries| == 0 then None
    else if entries[0].key == Str(key) then Some(entries[0].val)
    else
      var r := Lookup(entries[1..], key);
      assert forall i :: 1 <= i < |entries| ==> entries[i] == entries[1..][i - 1];
      r
  }

  /** isCollection: a Collection or an Object[]. */
  predicate IsCollection(v: Value)
  {
    v.List? || v.OtherCollection? || v.Array?
  }

  /** toList: the elements of a collection or array, any other value as a singleton. */
  function ToList(v: Value): (r: seq<Value>)
    ensures IsCollection(v) ==> r == v.items
    ensures !IsCollection(v) ==> r == [v]
  {
    match v
    case List(items) => items
    case OtherCollection(items) => items
    case Array(items, _) => items
    case _ => [v]
  }
}
