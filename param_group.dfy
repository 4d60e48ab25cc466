/**
 * ParamGroupInfo: a named group of request parameters that is locked as
 * one unit. Its parameters live in a key-sorted map (a TreeMap), modelled
 * here as a list of entries kept strictly sorted by name; values are the
 * toString of the parameter value ("null" for a null value).
 */
module ParamGroups {
  import opened Text

  type Entry = (string, string)

  /** Strictly ascending names: the shape of a TreeMap's entry list. */
  predicate Sorted(es: seq<Entry>)
  {
    forall i, j :: 0 <= i < j < |es| ==> StrCompare(es[i].0, es[j].0) < 0
  }

  function ToMap(es: seq<Entry>): map<string, string>
  {
    if |es| == 0 then map[] else ToMap(es[1..])[es[0].0 := es[0].1]
  }

  function Names(es: seq<Entry>): set<string>
  {
    set i | 0 <= i < |es| :: es[i].0
  }

  lemma {:induction false} ToMapKeys(es: seq<Entry>)
    ensures ToMap(es).Keys == Names(es)
  {
    if |es| > 0 {
      ToMapKeys(es[1..]);
      assert Names(es) == Names(es[1..]) + {es[0].0} by {
        forall n | n in Names(es) ensures n in Names(es[1..]) + {es[0].0} {
          var i :| 0 <= i < |es| && es[i].0 == n;
          if i > 0 { assert es[1..][i - 1].0 == n; }
        }
        forall n | n in Names(es[1..]) ensures n in Names(es) {
          var i :| 0 <= i < |es[1..]| && es[1..][i].0 == n;
          assert es[i + 1].0 == n;
        }
      }
    }
  }

  /** In a sorted list the head's name is below every later name, so it is not among them. */
  lemma HeadNotInTail(es: seq<Entry>)
    requires Sorted(es) && |es| > 0
    ensures es[0].0 !in Names(es[1..])
  {
  }

  /** TreeMap.put: the entry list after mapping name to value. */
  function Put(es: seq<Entry>, name: string, value: string): (r: seq<Entry>)
  {
    if |es| == 0 then [(name, value)]
    else
      var c := StrCompare(name, es[0].0);
      if c < 0 then [(name, value)] + es
      else if c == 0 then [(name, value)] + es[1..]
      else [es[0]] + Put(es[1..], name, value)
  }

  lemma {:induction false} PutNames(es: seq<Entry>, name: string, value: string)
    ensures Names(Put(es, name, value)) == Names(es) + {name}
  {
    ToMapKeys(es);
    ToMapKeys(Put(es, name, value));
    PutMap(es, name, value);
  }

  /** put maps the name to the value and leaves every other name alone. */
  lemma {:induction false} PutMap(es: seq<Entry>, name: string, value: string)
    ensures ToMap(Put(es, name, value)) == ToMap(es)[name := value]
  {
    if |es| > 0 {
      var c := StrCompare(name, es[0].0);
      if c > 0 {
        PutMap(es[1..], name, value);
        assert ([es[0]] + Put(es[1..], name, value))[1..] == Put(es[1..], name, value);
      } else if c == 0 {
        assert ([(name, value)] + es[1..])[1..] == es[1..];
      } else {
        assert ([(name, value)] + es)[1..] == es;
      }
    }
  }

  /** Putting an entry in front of a sorted list whose head it precedes keeps the list sorted. */
  lemma ConsSorted(x: Entry, es: seq<Entry>)
    requires Sorted(es)
    requires |es| > 0 ==> StrCompare(x.0, es[0].0) < 0
    ensures Sorted([x] + es)
  {
    var r := [x] + es;
    forall i, j | 0 <= i < j < |r| ensures StrCompare(r[i].0, r[j].0) < 0 {
      if i == 0 && j > 1 {
        StrCompareTransitive(x.0, es[0].0, es[j - 1].0);
      } else if i > 0 {
        assert r[i] == es[i - 1] && r[j] == es[j - 1];
      }
    }
  }

  lemma SortedTail(es: seq<Entry>)
    requires Sorted(es) && |es| > 0
    ensures Sorted(es[1..])
  {
    forall i, j | 0 <= i < j < |es[1..]| ensures StrCompare(es[1..][i].0, es[1..][j].0) < 0 {
      assert es[1..][i] == es[i + 1] && es[1..][j] == es[j + 1];
    }
  }

  /** The first entry after a put is the new name or the old first entry. */
  lemma PutHead(es: seq<Entry>, name: string, value: string)
    ensures Put(es, name, value)[0].0 == name || (|es| > 0 && Put(es, name, value)[0] == es[0])
  {
  }

  /** put keeps the list sorted. */
  lemma {:induction false} PutSorted(es: seq<Entry>, name: string, value: string)
    requires Sorted(es)
    ensures Sorted(Put(es, name, value))
  {
    if |es| > 0 {
      var c := StrCompare(name, es[0].0);
      if c < 0 {
        ConsSorted((name, value), es);
      } else if c == 0 {
        SortedTail(es);
        ConsSorted((name, value), es[1..]);
      } else {
        var rest := es[1..];
        SortedTail(es);
        PutSorted(rest, name, value);
        PutHead(rest, name, value);
        StrCompareAntisymmetric(name, es[0].0);
        assert |rest| > 0 ==> StrCompare(es[0].0, rest[0].0) < 0 by {
          if |rest| > 0 { assert rest[0] == es[1]; }
        }
        ConsSorted(es[0], Put(rest, name, value));
      }
    }
  }

  /** Every name after the first one of a sorted list is above it. */
  lemma SortedHeadLeast(es: seq<Entry>, n: string)
    requires Sorted(es) && |es| > 0 && n in Names(es) && n != es[0].0
    ensures StrCompare(es[0].0, n) < 0
  {
    var i :| 0 <= i < |es| && es[i].0 == n;
  }

  /** Removing the first entry of a sorted list removes exactly its name from the map. */
  lemma ToMapTail(es: seq<Entry>)
    requires Sorted(es) && |es| > 0
    ensures ToMap(es)[es[0].0] == es[0].1
    ensures ToMap(es[1..]) == ToMap(es) - {es[0].0}
  {
    HeadNotInTail(es);
    ToMapKeys(es[1..]);
    var m := ToMap(es[1..]);
    var x := es[0].0;
    assert ToMap(es) == m[x := es[0].1];
    assert x !in m;
    assert m[x := es[0].1] - {x} == m;
  }

  lemma EmptyMap(es: seq<Entry>)
    ensures ToMap(es) == map[] <==> |es| == 0
  {
    if |es| > 0 {
      assert es[0].0 in ToMap(es);
    }
  }

  /** A sorted entry list is determined by the map it holds. */
  lemma {:induction false} SortedUnique(a: seq<Entry>, b: seq<Entry>)
    requires Sorted(a) && Sorted(b) && ToMap(a) == ToMap(b)
    ensures a == b
  {
    ToMapKeys(a);
    ToMapKeys(b);
    if |a| == 0 || |b| == 0 {
      EmptyMap(a);
      EmptyMap(b);
    } else {
      var x, y := a[0].0, b[0].0;
      assert x in Names(a) && y in Names(b);
      if x != y {
        SortedHeadLeast(a, y);
        SortedHeadLeast(b, x);
        StrCompareAntisymmetric(x, y);
      }
      ToMapTail(a);
      ToMapTail(b);
      SortedTail(a);
      SortedTail(b);
      SortedUnique(a[1..], b[1..]);
      assert a == [a[0]] + a[1..];
      assert b == [b[0]] + b[1..];
    }
  }

  /** AbstractMap.toString: "{k1=v1, k2=v2}" in iteration order. */
  function Render(es: seq<Entry>): string
  {
    "{" + Join(RenderEntries(es), ", ") + "}"
  }

  function RenderEntries(es: seq<Entry>): (r: seq<string>)
    ensures |r| == |es|
    ensures forall i :: 0 <= i < |es| ==> r[i] == es[i].0 + "=" + es[i].1
  {
    if |es| == 0 then [] else [es[0].0 + "=" + es[0].1] + RenderEntries(es[1..])
  }

  class ParamGroupInfo {
    /** The group name of the annotation; None is a null name. */
    const groupName: Option<string>
    var actualGroupName: Option<string>
    const weight: int
    var entries: seq<Entry>

    predicate Valid()
      reads this
    {
      Sorted(entries)
    }

    /** The parameters, as a map from name to value. */
    function Params(): map<string, string>
      reads this
    {
      ToMap(entries)
    }

    /** A group named after its annotation, with the actual name equal to it and no params. */
    constructor (groupName: Option<string>, weight: int)
      ensures this.groupName == groupName && actualGroupName == groupName && this.weight == weight
      ensures entries == [] && Valid() && Params() == map[]
    {
      this.groupName := groupName;
      this.actualGroupName := groupName;
      this.weight := weight;
      this.entries := [];
    }

    /** A group whose actual name is given apart from its base name. */
    constructor WithActualName(groupName: Option<string>, actualGroupName: Option<string>, weight: int)
      ensures this.groupName == groupName && this.actualGroupName == actualGroupName && this.weight == weight
      ensures entries == [] && Valid() && Params() == map[]
    {
      this.groupName := groupName;
      this.actualGroupName := actualGroupName;
      this.weight := weight;
      this.entries := [];
    }

    method SetActualGroupName(name: Option<string>)
      modifies this
      ensures actualGroupName == name && entries == old(entries)
    {
      actualGroupName := name;
    }

    /** addParam: the name now maps to the value, replacing any earlier value; the rest is kept. */
    method AddParam(name: string, value: string)
      requires Valid()
      modifies this
      ensures Valid() && Params() == old(Params())[name := value]
      ensures actualGroupName == old(actualGroupName)
    {
      PutSorted(entries, name, value);
      PutMap(entries, name, value);
      entries := Put(entries, name, value);
    }

    /** isEmpty: the group holds no params. */
    function IsEmpty(): (r: bool)
      reads this
      ensures r <==> Params() == map[]
    {
      ToMapKeys(entries);
      assert |entries| > 0 ==> entries[0].0 in Names(entries);
      |entries| == 0
    }

    /** isDefaultGroup: a null or empty group name. */
    function IsDefaultGroup(): (r: bool)
      ensures r <==> groupName.None? || groupName.value == ""
    {
      groupName.None? || groupName.value == ""
    }

    /** getParamsHash: the TreeMap's text, its entries in ascending name order. */
    function ParamsHash(): (r: string)
      reads this
    {
      Render(entries)
    }
  }

  /** Two valid groups holding the same params have the same params hash, whatever order they were added in. */
  lemma ParamsHashOfParams(g1: ParamGroupInfo, g2: ParamGroupInfo)
    requires g1.Valid() && g2.Valid() && g1.Params() == g2.Params()
    ensures g1.ParamsHash() == g2.ParamsHash()
  {
    SortedUnique(g1.entries, g2.entries);
  }

  lemma PutTwiceSorted(es: seq<Entry>, a: string, va: string, b: string, vb: string)
    requires Sorted(es)
    ensures Sorted(Put(Put(es, a, va), b, vb))
  {
    PutSorted(es, a, va);
    PutSorted(Put(es, a, va), b, vb);
  }

  lemma PutTwiceMap(es: seq<Entry>, a: string, va: string, b: string, vb: string)
    ensures ToMap(Put(Put(es, a, va), b, vb)) == ToMap(es)[a := va][b := vb]
  {
    PutMap(es, a, va);
    PutMap(Put(es, a, va), b, vb);
  }

  /** Adding two different names in either order gives the same entries. */
  lemma PutCommutes(es: seq<Entry>, a: string, va: string, b: string, vb: string)
    requires Sorted(es) && a != b
    ensures Put(Put(es, a, va), b, vb) == Put(Put(es, b, vb), a, va)
  {
    PutTwiceSorted(es, a, va, b, vb);
    PutTwiceSorted(es, b, vb, a, va);
    PutTwiceMap(es, a, va, b, vb);
    PutTwiceMap(es, b, vb, a, va);
    UpdatesCommute(ToMap(es), a, va, b, vb);
    SortedUnique(Put(Put(es, a, va), b, vb), Put(Put(es, b, vb), a, va));
  }

  lemma UpdatesCommute(m: map<string, string>, a: string, va: string, b: string, vb: string)
    requires a != b
    ensures m[a := va][b := vb] == m[b := vb][a := va]
  {
  }

  // ------------------------------------------------------------ ordering of groups

  /** Integer.compare, as a sign. */
  function IntCompare(a: int, b: int): int
  {
    if a < b then -1 else if a > b then 1 else 0
  }

  /** NAME_COMPARATOR: by group name, a null name first. */
  function NameCompare(g1: ParamGroupInfo, g2: ParamGroupInfo): (r: int)
    ensures -1 <= r <= 1
    ensures g1.groupName.None? && g2.groupName.Some? ==> r < 0
    ensures r == 0 <==> g1.groupName == g2.groupName
  {
    match (g1.groupName, g2.groupName)
    case (None, None) => 0
    case (None, Some(_)) => -1
    case (Some(_), None) => 1
    case (Some(a), Some(b)) => StrCompare(a, b)
  }

  /** WEIGHT_COMPARATOR.thenComparing(NAME_COMPARATOR): heavier first, then by name. */
  function WeightThenNameCompare(g1: ParamGroupInfo, g2: ParamGroupInfo): (r: int)
    ensures g1.weight > g2.weight ==> r < 0
    ensures g1.weight == g2.weight ==> r == NameCompare(g1, g2)
  {
    var w := IntCompare(g2.weight, g1.weight);
    if w != 0 then w else NameCompare(g1, g2)
  }

  function Compare(byWeight: bool, g1: ParamGroupInfo, g2: ParamGroupInfo): int
  {
    if byWeight then WeightThenNameCompare(g1, g2) else NameCompare(g1, g2)
  }

  lemma CompareAntisymmetric(byWeight: bool, g1: ParamGroupInfo, g2: ParamGroupInfo)
    ensures Compare(byWeight, g1, g2) == -Compare(byWeight, g2, g1)
  {
    if g1.groupName.Some? && g2.groupName.Some? {
      StrCompareAntisymmetric(g1.groupName.value, g2.groupName.value);
    }
  }

  lemma NameCompareTransitive(g1: ParamGroupInfo, g2: ParamGroupInfo, g3: ParamGroupInfo)
    requires NameCompare(g1, g2) <= 0 && NameCompare(g2, g3) <= 0
    ensures NameCompare(g1, g3) <= 0
  {
    if g1.groupName.Some? && g2.groupName.Some? && g3.groupName.Some?
      && NameCompare(g1, g2) < 0 && NameCompare(g2, g3) < 0
    {
      StrCompareTransitive(g1.groupName.value, g2.groupName.value, g3.groupName.value);
    }
  }

  lemma CompareTransitive(byWeight: bool, g1: ParamGroupInfo, g2: ParamGroupInfo, g3: ParamGroupInfo)
    requires Compare(byWeight, g1, g2) <= 0 && Compare(byWeight, g2, g3) <= 0
    ensures Compare(byWeight, g1, g3) <= 0
  {
    if !byWeight || (g1.weight == g2.weight && g2.weight == g3.weight) {
      NameCompareTransitive(g1, g2, g3);
    }
  }

  /** Ascending under the comparator: the order List.sort establishes. */
  predicate SortedBy(byWeight: bool, gs: seq<ParamGroupInfo>)
  {
    forall i, j :: 0 <= i < j < |gs| ==> Compare(byWeight, gs[i], gs[j]) <= 0
  }

  /** The groups that hold at least one param, in their order. */
  function NonEmpty(gs: seq<ParamGroupInfo>): (r: seq<ParamGroupInfo>)
    reads set g | g in gs
    ensures forall g :: g in r ==> g in gs && !g.IsEmpty()
  {
    if |gs| == 0 then []
    else NonEmpty(gs[..|gs| - 1]) + (if !gs[|gs| - 1].IsEmpty() then [gs[|gs| - 1]] else [])
  }

  /** Insertion into a sorted list, after every group that does not sort after g (as a stable sort keeps them). */
  function Insert(byWeight: bool, gs: seq<ParamGroupInfo>, g: ParamGroupInfo): (r: seq<ParamGroupInfo>)
    ensures multiset(r) == multiset(gs) + multiset{g}
  {
    if |gs| == 0 then [g]
    else if Compare(byWeight, g, gs[0]) < 0 then [g] + gs
    else
      assert gs == [gs[0]] + gs[1..];
      [gs[0]] + Insert(byWeight, gs[1..], g)
  }

  lemma ConsSortedBy(byWeight: bool, g: ParamGroupInfo, gs: seq<ParamGroupInfo>)
    requires SortedBy(byWeight, gs)
    requires |gs| > 0 ==> Compare(byWeight, g, gs[0]) <= 0
    ensures SortedBy(byWeight, [g] + gs)
  {
    var r := [g] + gs;
    forall i, j | 0 <= i < j < |r| ensures Compare(byWeight, r[i], r[j]) <= 0 {
      if i == 0 && j > 1 {
        CompareTransitive(byWeight, g, gs[0], gs[j - 1]);
      } else if i > 0 {
        assert r[i] == gs[i - 1] && r[j] == gs[j - 1];
      }
    }
  }

  lemma SortedByTail(byWeight: bool, gs: seq<ParamGroupInfo>)
    requires SortedBy(byWeight, gs) && |gs| > 0
    ensures SortedBy(byWeight, gs[1..])
  {
    var rest := gs[1..];
    forall i, j | 0 <= i < j < |rest| ensures Compare(byWeight, rest[i], rest[j]) <= 0 {
      assert rest[i] == gs[i + 1] && rest[j] == gs[j + 1];
    }
  }

  lemma InsertHead(byWeight: bool, gs: seq<ParamGroupInfo>, g: ParamGroupInfo)
    ensures Insert(byWeight, gs, g)[0] == g || (|gs| > 0 && Insert(byWeight, gs, g)[0] == gs[0])
  {
  }

  lemma {:induction false} InsertSorted(byWeight: bool, gs: seq<ParamGroupInfo>, g: ParamGroupInfo)
    requires SortedBy(byWeight, gs)
    ensures SortedBy(byWeight, Insert(byWeight, gs, g))
  {
    if |gs| == 0 {
    } else if Compare(byWeight, g, gs[0]) < 0 {
      ConsSortedBy(byWeight, g, gs);
    } else {
      var rest := gs[1..];
      SortedByTail(byWeight, gs);
      InsertSorted(byWeight, rest, g);
      InsertHead(byWeight, rest, g);
      CompareAntisymmetric(byWeight, g, gs[0]);
      assert |rest| > 0 ==> Compare(byWeight, gs[0], rest[0]) <= 0 by {
        if |rest| > 0 { assert rest[0] == gs[1]; }
      }
      ConsSortedBy(byWeight, gs[0], Insert(byWeight, rest, g));
    }
  }

  lemma InMultiset(r: seq<ParamGroupInfo>, s: seq<ParamGroupInfo>)
    requires multiset(r) == multiset(s)
    ensures forall g :: g in r ==> g in s
  {
    forall g | g in r ensures g in s {
      assert g in multiset(r);
    }
  }

  /**
   * createSortedList: a copy of the list without its empty groups, sorted
   * by weight then name, or by name alone. The input is a value and so is
   * left as it was.
   */
  method CreateSortedList(groups: seq<ParamGroupInfo>, orderByWeight: bool) returns (result: seq<ParamGroupInfo>)
    ensures SortedBy(orderByWeight, result)
    ensures multiset(result) == multiset(NonEmpty(groups))
    ensures forall g :: g in result ==> g in groups && !g.IsEmpty()
  {
    var kept := DropEmpty(groups);
    result := SortGroups(kept, orderByWeight);
    InMultiset(result, NonEmpty(groups));
  }

  /** The groups that hold at least one parameter, in their order. */
  method DropEmpty(groups: seq<ParamGroupInfo>) returns (kept: seq<ParamGroupInfo>)
    ensures kept == NonEmpty(groups)
  {
    kept := [];
    var i := 0;
    while i < |groups|
      invariant 0 <= i <= |groups|
      invariant kept == NonEmpty(groups[..i])
    {
      assert groups[..i + 1][..i] == groups[..i];
      if !groups[i].IsEmpty() {
        kept := kept + [groups[i]];
      }
      i := i + 1;
    }
    assert groups[..i] == groups;
  }

  /** Insertion sort by the comparator: sorted, and the same groups. */
  method SortGroups(kept: seq<ParamGroupInfo>, orderByWeight: bool) returns (result: seq<ParamGroupInfo>)
    ensures SortedBy(orderByWeight, result)
    ensures multiset(result) == multiset(kept)
  {
    result := [];
    var j := 0;
    while j < |kept|
      invariant 0 <= j <= |kept|
      invariant SortedBy(orderByWeight, result)
      invariant multiset(result) == multiset(kept[..j])
    {
      InsertSorted(orderByWeight, result, kept[j]);
      assert kept[..j + 1] == kept[..j] + [kept[j]];
      result := Insert(orderByWeight, result, kept[j]);
      j := j + 1;
    }
    assert kept[..j] == kept;
  }
}
