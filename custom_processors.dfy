/**
 * The application's own processors: "custom_order" standardises order
 * numbers and user ids, "custom_collection" turns product and role lists,
 * maps of categories, tags and permissions, and lists of ids or codes into
 * one string per element. The processing context is the caller's user
 * identifier, the only part of it they read.
 */
module CustomProcessors {
  import opened Text
  import opened Values
  import opened BuiltinProcessors

  const CustomOrderName: string := "custom_order"
  const CustomCollectionName: string := "custom_collection"

  // ------------------------------------------------------------ custom_order

  /** The order number without one leading "ORD". */
  function StripOrd(s: string): (r: string)
    ensures StartsWith(s, "ORD") ==> s == "ORD" + r
    ensures !StartsWith(s, "ORD") ==> r == s
  {
    if StartsWith(s, "ORD") then s[3..] else s
  }

  function Zeros(n: nat): (r: string)
    ensures |r| == n && forall i :: 0 <= i < n ==> r[i] == '0'
  {
    if n == 0 then "" else Zeros(n - 1) + "0"
  }

  /** The order number left-padded with '0' to at least ten chars. */
  function Padded(s: string): (r: string)
    ensures |r| == if |s| < 10 then 10 else |s|
    ensures EndsWith(r, s) && forall i :: 0 <= i < |r| - |s| ==> r[i] == '0'
  {
    var z := Zeros(if |s| < 10 then 10 - |s| else 0);
    assert (z + s)[|z + s| - |s|..] == s;
    z + s
  }

  /** The user tag of an order number: the user id's first three chars (or fewer) and '_', when there is a user id. */
  function OrderUserTag(user: Option<string>): (r: string)
    ensures user.None? || user.value == "" ==> r == ""
    ensures user.Some? && user.value != "" ==> 2 <= |r| <= 4 && r[|r| - 1] == '_' && StartsWith(user.value, r[..|r| - 1])
  {
    if user.Some? && user.value != "" then
      var u := user.value;
      var k := if |u| < 3 then |u| else 3;
      assert (u[..k] + "_")[..k] == u[..k];
      u[..k] + "_"
    else ""
  }

  /** processOrderNumber: strip "ORD", pad to ten, put the user tag in front. */
  function OrderNumber(s: string, user: Option<string>): (r: string)
    ensures r == OrderUserTag(user) + Padded(StripOrd(s))
  {
    OrderUserTag(user) + Padded(StripOrd(s))
  }

  /** The loop of processOrderNumber: '0' in front until the number has ten chars. */
  method PadZeros(s: string) returns (n: string)
    ensures n == Padded(s)
  {
    n := s;
    while |n| < 10
      invariant |s| <= |n| && n == Zeros(|n| - |s|) + s
      invariant |n| == |s| || |n| <= 10
      decreases 10 - |n|
    {
      assert "0" + Zeros(|n| - |s|) == Zeros(|n| - |s|) + "0" by {
        ZerosCommute(|n| - |s|);
      }
      n := "0" + n;
    }
    assert |n| - |s| == (if |s| < 10 then 10 - |s| else 0);
  }

  /** processOrderNumber, by its loop. */
  method ProcessOrderNumber(orderNumber: string, user: Option<string>) returns (r: string)
    ensures r == OrderNumber(orderNumber, user)
  {
    var n := orderNumber;
    if StartsWith(n, "ORD") {
      n := n[3..];
    }
    n := PadZeros(n);
    r := OrderUserTag(user) + n;
  }

  lemma {:induction false} ZerosCommute(n: nat)
    ensures "0" + Zeros(n) == Zeros(n) + "0"
  {
    if n > 0 {
      ZerosCommute(n - 1);
      assert "0" + Zeros(n) == ("0" + Zeros(n - 1)) + "0";
    }
  }

  predicate IsAlnum(c: char)
  {
    'a' <= c <= 'z' || 'A' <= c <= 'Z' || '0' <= c <= '9'
  }

  /** replaceAll("[^a-zA-Z0-9]", ""): the ASCII letters and digits, in order. */
  function KeepAlnum(s: string): (r: string)
    ensures |r| <= |s| && forall i :: 0 <= i < |r| ==> IsAlnum(r[i])
    ensures (forall i :: 0 <= i < |s| ==> IsAlnum(s[i])) ==> r == s
  {
    if |s| == 0 then ""
    else
      var front := KeepAlnum(s[..|s| - 1]);
      var last := s[|s| - 1];
      assert s == s[..|s| - 1] + [last];
      if IsAlnum(last) then front + [last] else front
  }

  /** processUserId: letters and digits only, upper-cased, at most twenty. */
  function UserId(s: string): (r: string)
    ensures |r| <= 20
    ensures forall i :: 0 <= i < |r| ==> IsAlnum(r[i]) && !('a' <= r[i] <= 'z')
    ensures StartsWith(ToUpper(KeepAlnum(s)), r)
  {
    var u := ToUpper(KeepAlnum(s));
    if |u| > 20 then u[..20] else u
  }

  /** A processed user id is processed again to itself. */
  lemma UserIdIdempotent(s: string)
    ensures UserId(UserId(s)) == UserId(s)
  {
    var r := UserId(s);
    assert KeepAlnum(r) == r;
    assert ToUpper(r) == r;
  }

  /** custom_order: null stays null; an "order" name (checked first) or a "user" name is processed; a null name throws. */
  function CustomOrderProcess(v: Value, paramName: Option<string>, user: Option<string>): (r: Outcome)
    ensures v.Null? ==> r == Returned(Null)
    ensures !v.Null? && paramName.None? ==> r.Threw?
    ensures !v.Null? && paramName.Some? ==> r.Returned? && r.value.Str?
    ensures !v.Null? && paramName.Some? && Contains(ToLower(paramName.value), "order") ==>
              r == Returned(Str(OrderNumber(ToString(v), user)))
    ensures !v.Null? && paramName.Some? && !Contains(ToLower(paramName.value), "order") && Contains(ToLower(paramName.value), "user") ==>
              r == Returned(Str(UserId(ToString(v))))
  {
    if v.Null? then Returned(Null)
    else if paramName.None? then Threw
    else
      var text := ToString(v);
      var lowerName := ToLower(paramName.value);
      if Contains(lowerName, "order") then Returned(Str(OrderNumber(text, user)))
      else if Contains(lowerName, "user") then Returned(Str(UserId(text)))
      else Returned(Str(text))
  }

  /** The order number without the user tag has at least ten chars and ends with the stripped number. */
  lemma OrderNumberShape(s: string, user: Option<string>)
    ensures var p := Padded(StripOrd(s)); |p| >= 10 && EndsWith(p, StripOrd(s))
    ensures OrderNumber(s, user) == OrderUserTag(user) + Padded(StripOrd(s))
    ensures user.None? ==> OrderNumber(s, user) == Padded(StripOrd(s))
  {
  }

  // ------------------------------------------------------------ custom_collection

  /** PROD001 -> PRODUCT_001: "PROD" at the front becomes "PRODUCT_". */
  function ProductId(t: string): (r: string)
    requires t != ""
    ensures r != "" && (StartsWith(r, "PRODUCT_") || !StartsWith(r, "PROD"))
  {
    if StartsWith(t, "PROD") then
      var r := "PRODUCT_" + t[4..];
      assert r[..8] == "PRODUCT_";
      r
    else t
  }

  /** The product ids of the split parts: trimmed, the empty ones dropped, each renamed. */
  function Products(parts: seq<string>): (r: seq<string>)
    ensures |r| <= |parts|
    ensures forall i :: 0 <= i < |r| ==> r[i] != "" && (StartsWith(r[i], "PRODUCT_") || !StartsWith(r[i], "PROD"))
  {
    if |parts| == 0 then []
    else
      var front := Products(parts[..|parts| - 1]);
      var t := Trim(parts[|parts| - 1]);
      if t == "" then front else front + [ProductId(t)]
  }

  /** admin -> ROLE_ADMIN, for a part that is not blank. */
  function RoleOf(t: string): (r: string)
    requires t != ""
    ensures StartsWith(r, "ROLE_") && |r| == 5 + |t|
  {
    var r := "ROLE_" + t;
    assert r[..5] == "ROLE_";
    r
  }

  /** The roles of the split parts: trimmed, upper-cased, the empty ones dropped, each after "ROLE_". */
  function Roles(parts: seq<string>): (r: seq<string>)
    ensures |r| <= |parts|
    ensures forall i :: 0 <= i < |r| ==> StartsWith(r[i], "ROLE_") && |r[i]| > 5
  {
    if |parts| == 0 then []
    else
      var front := Roles(parts[..|parts| - 1]);
      var t := ToUpper(Trim(parts[|parts| - 1]));
      if t == "" then front else front + [RoleOf(t)]
  }

  /** A list result when there are items, else the string as it came. */
  function ListOr(items: seq<string>, original: string): (r: Value)
    ensures |items| == 0 ==> r == Str(original)
    ensures |items| > 0 ==> r == List(StrValues(items))
  {
    if |items| == 0 then Str(original) else List(StrValues(items))
  }

  /** processStringValue: a "product" name with a comma gives product ids, else a "role" name with a comma roles, else the string. */
  function StringResult(value: string, paramName: string): (r: Value)
  {
    var lowerName := ToLower(paramName);
    if Contains(lowerName, "product") && Contains(value, ",") then ListOr(Products(Split(value, ",")), value)
    else if Contains(lowerName, "role") && Contains(value, ",") then ListOr(Roles(Split(value, ",")), value)
    else Str(value)
  }

  /** One element of a field's list: the prefix and the element's text, upper- or lower-cased. */
  function Tag(item: Value, prefix: string, upper: bool): (r: string)
    ensures StartsWith(r, prefix)
  {
    var text := ToString(item);
    var r := prefix + (if upper then ToUpper(text) else ToLower(text));
    assert r[..|prefix|] == prefix;
    r
  }

  predicate AllStartWith(xs: seq<string>, prefix: string)
  {
    forall i :: 0 <= i < |xs| ==> StartsWith(xs[i], prefix)
  }

  /** The strings of one field's list: the prefix and the element's text in the given case; a null element throws. */
  function Tagged(items: seq<Value>, prefix: string, upper: bool): (r: Option<seq<string>>)
    ensures r.Some? <==> forall i :: 0 <= i < |items| ==> !items[i].Null?
    ensures r.Some? ==> |r.value| == |items| && forall i :: 0 <= i < |items| ==> r.value[i] == Tag(items[i], prefix, upper)
  {
    if forall i :: 0 <= i < |items| ==> !items[i].Null? then
      Some(seq(|items|, i requires 0 <= i < |items| => Tag(items[i], prefix, upper)))
    else None
  }

  /** One field of the map: the tagged elements when it holds a list, nothing otherwise. */
  function FieldTags(entries: seq<Pair>, key: string, prefix: string, upper: bool): (r: Option<seq<string>>)
    ensures Lookup(entries, key).Some? && Lookup(entries, key).value.List? ==> r == Tagged(Lookup(entries, key).value.items, prefix, upper)
    ensures !(Lookup(entries, key).Some? && Lookup(entries, key).value.List?) ==> r == Some([])
    ensures r.Some? ==> AllStartWith(r.value, prefix)
  {
    match Lookup(entries, key)
    case Some(List(items)) =>
      TaggedStartWith(items, prefix, upper);
      Tagged(items, prefix, upper)
    case _ => Some([])
  }

  lemma TaggedStartWith(items: seq<Value>, prefix: string, upper: bool)
    ensures Tagged(items, prefix, upper).Some? ==> AllStartWith(Tagged(items, prefix, upper).value, prefix)
  {
    var r := Tagged(items, prefix, upper);
    if r.Some? {
      forall i | 0 <= i < |r.value| ensures StartsWith(r.value[i], prefix) {
        assert r.value[i] == Tag(items[i], prefix, upper);
      }
    }
  }

  /** processMapValue: CATEGORY_ entries, then TAG_ entries, then PERM_ entries; the map's text when there are none. */
  function MapResult(entries: seq<Pair>): (r: Outcome)
  {
    var c := FieldTags(entries, "categories", "CATEGORY_", true);
    var t := FieldTags(entries, "tags", "TAG_", false);
    var p := FieldTags(entries, "permissions", "PERM_", true);
    if c.None? || t.None? || p.None? then Threw
    else Returned(ListOr(c.value + t.value + p.value, ToString(Dict(entries))))
  }

  /** getUserPrefix: the user id's first three chars upper-cased, or "USR" for an id that is absent or shorter. */
  function UserPrefix(user: Option<string>): (r: string)
    ensures |r| == 3
    ensures user.Some? && |user.value| >= 3 ==> r == ToUpper(user.value[..3])
    ensures !(user.Some? && |user.value| >= 3) ==> r == "USR"
  {
    if user.Some? && |user.value| >= 3 then ToUpper(user.value[..3]) else "USR"
  }

  /** The string a list element gives under a name: an id, a code, or the element's own text. */
  function ItemTag(text: string, lowerName: string, user: Option<string>): string
  {
    if Contains(lowerName, "id") then UserPrefix(user) + "_ID_" + text
    else if Contains(lowerName, "code") then "CODE_" + ToUpper(text)
    else text
  }

  function NonNull(items: seq<Value>): nat
  {
    if |items| == 0 then 0 else NonNull(items[..|items| - 1]) + (if items[|items| - 1].Null? then 0 else 1)
  }

  /** The strings of processListValue's loop: one per element that is not null; reading the name of a null name throws. */
  function ListTags(items: seq<Value>, paramName: Option<string>, user: Option<string>): (r: Option<seq<string>>)
    ensures r.None? <==> paramName.None? && NonNull(items) > 0
    ensures r.Some? ==> |r.value| == NonNull(items)
  {
    if |items| == 0 then Some([])
    else
      var front := ListTags(items[..|items| - 1], paramName, user);
      var last := items[|items| - 1];
      if front.None? then None
      else if last.Null? then front
      else if paramName.None? then None
      else Some(front.value + [ItemTag(ToString(last), ToLower(paramName.value), user)])
  }

  function ListResult(items: seq<Value>, paramName: Option<string>, user: Option<string>): (r: Outcome)
    ensures r.Threw? <==> paramName.None? && NonNull(items) > 0
  {
    match ListTags(items, paramName, user)
    case None => Threw
    case Some(vs) => Returned(ListOr(vs, ToString(List(items))))
  }

  /** custom_collection: strings, maps and lists are processed, null stays null, anything else becomes its text. */
  function CustomCollectionProcess(v: Value, paramName: Option<string>, user: Option<string>): (r: Outcome)
    ensures v.Null? ==> r == Returned(Null)
    ensures v.Str? && paramName.None? ==> r.Threw?
    ensures v.Str? && paramName.Some? ==> r == Returned(StringResult(v.s, paramName.value))
    ensures v.Dict? ==> r == MapResult(v.entries)
    ensures v.List? ==> r == ListResult(v.items, paramName, user)
    ensures !(v.Null? || v.Str? || v.Dict? || v.List?) ==> r == Returned(Str(ToString(v)))
  {
    match v
    case Null => Returned(Null)
    case Str(s) => if paramName.None? then Threw else Returned(StringResult(s, paramName.value))
    case Dict(entries) => MapResult(entries)
    case List(items) => ListResult(items, paramName, user)
    case _ => Returned(Str(ToString(v)))
  }

  // ------------------------------------------------------------ the loops

  lemma ProductsSnoc(parts: seq<string>, i: nat)
    requires i < |parts|
    ensures var t := Trim(parts[i]);
            Products(parts[..i + 1]) == if t == "" then Products(parts[..i]) else Products(parts[..i]) + [ProductId(t)]
  {
    assert parts[..i + 1][..i] == parts[..i];
  }

  lemma RolesSnoc(parts: seq<string>, i: nat)
    requires i < |parts|
    ensures var t := ToUpper(Trim(parts[i]));
            Roles(parts[..i + 1]) == if t == "" then Roles(parts[..i]) else Roles(parts[..i]) + [RoleOf(t)]
  {
    assert parts[..i + 1][..i] == parts[..i];
  }

  /** A part that starts with PROD gets PRODUCT_ in place of those four chars. */
  method RenameProduct(t: string) returns (id: string)
    requires t != ""
    ensures id == ProductId(t)
  {
    id := t;
    if StartsWith(t, "PROD") {
      id := "PRODUCT_" + t[4..];
    }
  }

  method CollectProducts(parts: seq<string>) returns (ids: seq<string>)
    ensures ids == Products(parts)
  {
    ids := [];
    var i := 0;
    while i < |parts|
      invariant 0 <= i <= |parts| && ids == Products(parts[..i])
    {
      var trimmed := Trim(parts[i]);
      ProductsSnoc(parts, i);
      if trimmed != "" {
        var id := RenameProduct(trimmed);
        ids := ids + [id];
      }
      i := i + 1;
    }
    assert parts[..i] == parts;
  }

  method CollectRoles(parts: seq<string>) returns (roles: seq<string>)
    ensures roles == Roles(parts)
  {
    roles := [];
    var i := 0;
    while i < |parts|
      invariant 0 <= i <= |parts| && roles == Roles(parts[..i])
    {
      RolesSnoc(parts, i);
      var trimmed := ToUpper(Trim(parts[i]));
      if trimmed != "" {
        roles := roles + [RoleOf(trimmed)];
      }
      i := i + 1;
    }
    assert parts[..i] == parts;
  }

  method ProcessStringValue(value: string, paramName: string) returns (r: Value)
    ensures r == StringResult(value, paramName)
  {
    var lowerName := ToLower(paramName);
    if Contains(lowerName, "product") && Contains(value, ",") {
      var productIds := CollectProducts(Split(value, ","));
      r := if |productIds| == 0 then Str(value) else List(StrValues(productIds));
    } else if Contains(lowerName, "role") && Contains(value, ",") {
      var roles := CollectRoles(Split(value, ","));
      r := if |roles| == 0 then Str(value) else List(StrValues(roles));
    } else {
      r := Str(value);
    }
  }

  /** One field's loop of processMapValue, appending to the values gathered so far; None is the exception of a null element. */
  method AppendTagged(values: seq<string>, items: seq<Value>, prefix: string, upper: bool) returns (r: Option<seq<string>>)
    ensures Tagged(items, prefix, upper).None? ==> r.None?
    ensures Tagged(items, prefix, upper).Some? ==> r == Some(values + Tagged(items, prefix, upper).value)
  {
    var out := values;
    var i := 0;
    while i < |items|
      invariant 0 <= i <= |items|
      invariant forall k :: 0 <= k < i ==> !items[k].Null?
      invariant |out| == |values| + i
      invariant forall k :: 0 <= k < |values| ==> out[k] == values[k]
      invariant forall k :: 0 <= k < i ==> out[|values| + k] == Tag(items[k], prefix, upper)
    {
      if items[i].Null? {
        return None;
      }
      out := out + [Tag(items[i], prefix, upper)];
      i := i + 1;
    }
    assert out == values + Tagged(items, prefix, upper).value;
    r := Some(out);
  }

  method AppendField(values: seq<string>, entries: seq<Pair>, key: string, prefix: string, upper: bool) returns (r: Option<seq<string>>)
    ensures FieldTags(entries, key, prefix, upper).None? ==> r.None?
    ensures FieldTags(entries, key, prefix, upper).Some? ==> r == Some(values + FieldTags(entries, key, prefix, upper).value)
  {
    var field := Lookup(entries, key);
    if field.Some? && field.value.List? {
      r := AppendTagged(values, field.value.items, prefix, upper);
    } else {
      assert values + [] == values;
      r := Some(values);
    }
  }

  method ProcessMapValue(entries: seq<Pair>) returns (r: Outcome)
    ensures r == MapResult(entries)
  {
    ghost var c := FieldTags(entries, "categories", "CATEGORY_", true);
    ghost var t := FieldTags(entries, "tags", "TAG_", false);
    ghost var p := FieldTags(entries, "permissions", "PERM_", true);
    var values := AppendField([], entries, "categories", "CATEGORY_", true);
    if values.None? {
      return Threw;
    }
    assert values.value == c.value;
    values := AppendField(values.value, entries, "tags", "TAG_", false);
    if values.None? {
      return Threw;
    }
    assert values.value == c.value + t.value;
    values := AppendField(values.value, entries, "permissions", "PERM_", true);
    if values.None? {
      return Threw;
    }
    assert values.value == c.value + t.value + p.value;
    r := Returned(ListOr(values.value, ToString(Dict(entries))));
  }

  method ProcessListValue(items: seq<Value>, paramName: Option<string>, user: Option<string>) returns (r: Outcome)
    ensures r == ListResult(items, paramName, user)
  {
    var processed: seq<string> := [];
    var i := 0;
    while i < |items|
      invariant 0 <= i <= |items|
      invariant ListTags(items[..i], paramName, user) == Some(processed)
    {
      assert items[..i + 1][..i] == items[..i];
      var item := items[i];
      if !item.Null? {
        if paramName.None? {
          assert ListTags(items[..i + 1], paramName, user).None?;
          assert ListTags(items, paramName, user).None? by { NoneExtends(items, i + 1, paramName, user); }
          return Threw;
        }
        processed := processed + [ItemTag(ToString(item), ToLower(paramName.value), user)];
      }
      i := i + 1;
    }
    assert items[..i] == items;
    r := Returned(if |processed| == 0 then Str(ToString(List(items))) else List(StrValues(processed)));
  }

  /** Once the list loop has thrown, the rest of the list does not matter. */
  lemma {:induction false} NoneExtends(items: seq<Value>, k: nat, paramName: Option<string>, user: Option<string>)
    requires k <= |items| && ListTags(items[..k], paramName, user).None?
    ensures ListTags(items, paramName, user).None?
    decreases |items| - k
  {
    if k < |items| {
      assert items[..k + 1][..k] == items[..k];
      NoneExtends(items, k + 1, paramName, user);
    } else {
      assert items[..k] == items;
    }
  }

  /** custom_collection's processValue, by its loops. */
  method ProcessCollectionValue(v: Value, paramName: Option<string>, user: Option<string>) returns (r: Outcome)
    ensures r == CustomCollectionProcess(v, paramName, user)
  {
    match v
    case Null => r := Returned(Null);
    case Str(s) =>
      if paramName.None? {
        r := Threw;
      } else {
        var x := ProcessStringValue(s, paramName.value);
        r := Returned(x);
      }
    case Dict(entries) => r := ProcessMapValue(entries);
    case List(items) => r := ProcessListValue(items, paramName, user);
    case _ => r := Returned(Str(ToString(v)));
  }

  // ------------------------------------------------------------ properties

  /** Without a comma, or under any other name, a string comes back as it was. */
  lemma StringWithoutComma(value: string, paramName: string)
    requires !Contains(value, ",")
    ensures StringResult(value, paramName) == Str(value)
  {
  }

  /** Every string of a map's list result carries one of the three prefixes. */
  lemma MapPrefixes(entries: seq<Pair>)
    requires MapResult(entries).Returned? && MapResult(entries).value.List?
    ensures forall x :: x in MapResult(entries).value.items ==>
      x.Str? && (StartsWith(x.s, "CATEGORY_") || StartsWith(x.s, "TAG_") || StartsWith(x.s, "PERM_"))
  {
    var c := FieldTags(entries, "categories", "CATEGORY_", true).value;
    var t := FieldTags(entries, "tags", "TAG_", false).value;
    var p := FieldTags(entries, "permissions", "PERM_", true).value;
    assert MapResult(entries).value.items == StrValues(c + t + p);
    ThreePrefixes(c, t, p);
  }

  lemma ThreePrefixes(c: seq<string>, t: seq<string>, p: seq<string>)
    requires AllStartWith(c, "CATEGORY_") && AllStartWith(t, "TAG_") && AllStartWith(p, "PERM_")
    ensures forall x :: x in StrValues(c + t + p) ==>
      x.Str? && (StartsWith(x.s, "CATEGORY_") || StartsWith(x.s, "TAG_") || StartsWith(x.s, "PERM_"))
  {
    var all := c + t + p;
    forall i | 0 <= i < |all|
      ensures StartsWith(all[i], "CATEGORY_") || StartsWith(all[i], "TAG_") || StartsWith(all[i], "PERM_")
    {
      if i < |c| { assert all[i] == c[i]; }
      else if i < |c| + |t| { assert all[i] == t[i - |c|]; }
      else { assert all[i] == p[i - |c| - |t|]; }
    }
  }

  /** A map without any of the three lists gives its own text back. */
  lemma MapWithoutFields(entries: seq<Pair>)
    requires forall i :: 0 <= i < |entries| ==> entries[i].key != Str("categories") && entries[i].key != Str("tags") && entries[i].key != Str("permissions")
    ensures MapResult(entries) == Returned(Str(ToString(Dict(entries))))
  {
  }

  /** With an "id" name, every list element becomes the user prefix, "_ID_" and the element's text. */
  lemma IdListTags(items: seq<Value>, name: string, user: Option<string>)
    requires Contains(ToLower(name), "id") && forall i :: 0 <= i < |items| ==> !items[i].Null?
    ensures var r := ListTags(items, Some(name), user);
      r.Some? && |r.value| == |items| && forall i :: 0 <= i < |items| ==> r.value[i] == UserPrefix(user) + "_ID_" + ToString(items[i])
  {
    IdListTagsUpTo(items, |items|, name, user);
    assert items[..|items|] == items;
  }

  lemma {:induction false} IdListTagsUpTo(items: seq<Value>, k: nat, name: string, user: Option<string>)
    requires k <= |items| && Contains(ToLower(name), "id") && forall i :: 0 <= i < |items| ==> !items[i].Null?
    ensures var r := ListTags(items[..k], Some(name), user);
      r.Some? && |r.value| == k && forall i :: 0 <= i < k ==> r.value[i] == UserPrefix(user) + "_ID_" + ToString(items[i])
  {
    if k > 0 {
      IdListTagsUpTo(items, k - 1, name, user);
      assert items[..k][..k - 1] == items[..k - 1];
    }
  }
}
