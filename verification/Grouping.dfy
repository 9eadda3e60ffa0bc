/** Export batches: records grouped by resource and instrumentation scope. */
module Grouping {
  import opened Prelude
  import opened AttrValue
  import I = SetIdentity

  /** A resource is known by the Distinct of its set of attributes, a scope by its name. */
  datatype Key = Key(resource: Distinct, scope: bytes)

  /** A record or span, with the attributes of its resource. */
  datatype Item = Item(key: Key, attrs: seq<KeyValue>, body: nat)

  type Distinct = I.Distinct

  /** What the transformation sees of a record. */
  function Made(h: I.Hash, attrs: seq<KeyValue>, scope: bytes, body: nat): Item
  {
    Item(Key(I.Equivalent(h, attrs), scope), attrs, body)
  }

  /** The attributes of the first item with this resource. */
  function FirstAttrs(items: seq<Item>, resource: Distinct): Option<seq<KeyValue>>
  {
    if |items| == 0 then None else
    var (first, last) := (FirstAttrs(items[..|items| - 1], resource), items[|items| - 1]);
    if first.Some? then first else if last.key.resource == resource then Some(last.attrs) else None
  }

  /** The items of one group, in input order. */
  function Filter(items: seq<Item>, k: Key): seq<Item>
  {
    if |items| == 0 then [] else
    var last := items[|items| - 1];
    Filter(items[..|items| - 1], k) + if last.key == k then [last] else []
  }

  /** The scopes seen with a resource, in the order of their first appearance. */
  function Scopes(items: seq<Item>, resource: Distinct): seq<bytes>
  {
    if |items| == 0 then [] else
    var init, k := Scopes(items[..|items| - 1], resource), items[|items| - 1].key;
    if k.resource == resource && k.scope !in init then init + [k.scope] else init
  }

  class ScopeGroup {
    const scope: bytes
    var items: seq<Item>

    constructor (scope: bytes)
      ensures this.scope == scope && items == []
    {
      this.scope := scope;
      items := [];
    }
  }

  /** The entry of a resource in the export, with the attributes it leaves under. */
  class ResourceGroup {
    const resource: Distinct
    const attrs: seq<KeyValue>
    var scopes: seq<ScopeGroup>

    constructor (resource: Distinct, attrs: seq<KeyValue>)
      ensures this.resource == resource && this.attrs == attrs && scopes == []
    {
      this.resource, this.attrs := resource, attrs;
      scopes := [];
    }
  }

  /** Different keys have different objects. */
  ghost predicate Apart<K, V>(m: map<K, V>)
  {
    forall k, j :: k in m && j in m && k != j ==> m[k] != m[j]
  }

  ghost function ItemsOf(scopeMap: map<Key, ScopeGroup>): map<Key, seq<Item>>
    reads scopeMap.Values
  {
    map k | k in scopeMap :: scopeMap[k].items
  }

  ghost function GroupsOf(resMap: map<Distinct, ResourceGroup>): map<Distinct, seq<ScopeGroup>>
    reads resMap.Values
  {
    map r | r in resMap :: resMap[r].scopes
  }

  ghost predicate NamedScopes(scopeMap: map<Key, ScopeGroup>)
  {
    Apart(scopeMap) && forall k :: k in scopeMap ==> scopeMap[k].scope == k.scope
  }

  ghost predicate NamedResources(resMap: map<Distinct, ResourceGroup>)
  {
    Apart(resMap) && forall r :: r in resMap ==> resMap[r].resource == r
  }

  /** Each entry has the attributes of the first item with its resource. */
  ghost predicate OwnersFit(items: seq<Item>, resMap: map<Distinct, ResourceGroup>)
  {
    forall r :: if r in resMap then FirstAttrs(items, r) == Some(resMap[r].attrs) else FirstAttrs(items, r).None?
  }

  lemma OwnersNext(items: seq<Item>, x: Item, resMap: map<Distinct, ResourceGroup>,
                   resMap': map<Distinct, ResourceGroup>)
    requires OwnersFit(items, resMap) && Entered(resMap, resMap', x.key.resource)
    requires x.key.resource !in resMap ==> resMap'[x.key.resource].attrs == x.attrs
    ensures OwnersFit(items + [x], resMap')
  {
    assert (items + [x])[..|items|] == items;
  }

  /** m[k], or nothing yet, with more behind it. */
  function Plus<K, V>(m: map<K, seq<V>>, k: K, more: seq<V>): map<K, seq<V>>
  {
    m[k := (if k in m then m[k] else []) + more]
  }

  /** Every key that occurs has a group with its items in order. */
  ghost predicate ItemsFit(items: seq<Item>, view: map<Key, seq<Item>>)
  {
    && (forall k :: k in view <==> Filter(items, k) != [])
    && (forall k :: k in view ==> view[k] == Filter(items, k))
  }

  /** Every resource that occurs has an entry, to which exactly its groups are attached, in order. */
  ghost predicate GroupsFit(items: seq<Item>, scopeMap: map<Key, ScopeGroup>, view: map<Distinct, seq<ScopeGroup>>)
  {
    && (forall r :: r in view <==> Scopes(items, r) != [])
    && (forall r :: r in view ==> Attached(items, scopeMap, r, view[r]))
  }

  ghost predicate Attached(items: seq<Item>, scopeMap: map<Key, ScopeGroup>, r: Distinct, groups: seq<ScopeGroup>)
  {
    var scopes := Scopes(items, r);
    |groups| == |scopes| && forall j :: 0 <= j < |scopes| ==>
      Key(r, scopes[j]) in scopeMap && groups[j] == scopeMap[Key(r, scopes[j])]
  }

  lemma FilterNext(items: seq<Item>, x: Item, k: Key)
    ensures Filter(items + [x], k) == Filter(items, k) + if x.key == k then [x] else []
  {
    assert (items + [x])[..|items|] == items;
  }

  lemma ScopesNext(items: seq<Item>, x: Item, r: Distinct)
    ensures var init := Scopes(items, r);
      Scopes(items + [x], r) == if x.key.resource == r && x.key.scope !in init then init + [x.key.scope] else init
  {
    assert (items + [x])[..|items|] == items;
  }

  lemma {:induction false} ScopesAreKeys(items: seq<Item>, k: Key)
    ensures k.scope in Scopes(items, k.resource) <==> Filter(items, k) != []
  {
    if |items| == 0 {
    } else {
      ScopesAreKeys(items[..|items| - 1], k);
      var x := items[|items| - 1];
      assert items == items[..|items| - 1] + [x];
      FilterNext(items[..|items| - 1], x, k);
      ScopesNext(items[..|items| - 1], x, k.resource);
    }
  }

  lemma ItemsNext(items: seq<Item>, x: Item, view: map<Key, seq<Item>>)
    requires ItemsFit(items, view)
    ensures ItemsFit(items + [x], Plus(view, x.key, [x]))
  {
    var after := Plus(view, x.key, [x]);
    forall k ensures k in after <==> Filter(items + [x], k) != [] { FilterNext(items, x, k); }
    forall k | k in after ensures after[k] == Filter(items + [x], k) {
      FilterNext(items, x, k);
      if k !in view { assert Filter(items, k) == []; }
    }
  }

  lemma AttachedNext(items: seq<Item>, x: Item, scopeMap: map<Key, ScopeGroup>, r: Distinct, groups: seq<ScopeGroup>)
    requires Attached(items, scopeMap, r, groups) && x.key in scopeMap
    ensures var added := if r == x.key.resource && Filter(items, x.key) == [] then [scopeMap[x.key]] else [];
      Attached(items + [x], scopeMap, r, groups + added)
  {
    ScopesNext(items, x, r);
    ScopesAreKeys(items, x.key);
  }

  lemma GroupsNext(items: seq<Item>, x: Item, scopeMap: map<Key, ScopeGroup>, view: map<Distinct, seq<ScopeGroup>>)
    requires GroupsFit(items, scopeMap, view) && x.key in scopeMap
    ensures var added := if Filter(items, x.key) == [] then [scopeMap[x.key]] else [];
      && GroupsFit(items + [x], scopeMap, Plus(view, x.key.resource, added))
      && (x.key.resource !in view ==> Filter(items, x.key) == [])
  {
    var r := x.key.resource;
    var added := if Filter(items, x.key) == [] then [scopeMap[x.key]] else [];
    var after := Plus(view, r, added);
    ScopesAreKeys(items, x.key);
    forall q ensures q in after <==> Scopes(items + [x], q) != [] { ScopesNext(items, x, q); }
    forall q | q in after ensures Attached(items + [x], scopeMap, q, after[q]) {
      var groups := if q in view then view[q] else [];
      assert Attached(items, scopeMap, q, groups);
      AttachedNext(items, x, scopeMap, q, groups);
      assert q != r ==> groups + [] == groups;
    }
  }

  /** A larger map of groups does not change what is attached. */
  lemma GroupsKept(items: seq<Item>, scopeMap: map<Key, ScopeGroup>, k: Key, g: ScopeGroup,
                   view: map<Distinct, seq<ScopeGroup>>)
    requires GroupsFit(items, scopeMap, view) && (k in scopeMap ==> scopeMap[k] == g)
    ensures GroupsFit(items, scopeMap[k := g], view)
  {
    forall r | r in view ensures Attached(items, scopeMap[k := g], r, view[r]) {
      assert Attached(items, scopeMap, r, view[r]);
    }
  }

  // ---------------------------------------------------------------- the code

  /** Find or make the group of x, and put x there. */
  method AddToScope(x: Item, scopeMap: map<Key, ScopeGroup>)
    returns (group: ScopeGroup, known: bool, scopeMap': map<Key, ScopeGroup>)
    requires NamedScopes(scopeMap)
    modifies scopeMap.Values
    ensures known == (x.key in scopeMap) && scopeMap' == scopeMap[x.key := group] && NamedScopes(scopeMap')
    ensures if known then group == scopeMap[x.key] else fresh(group)
    ensures ItemsOf(scopeMap') == Plus(old(ItemsOf(scopeMap)), x.key, [x])
  {
    scopeMap' := scopeMap;
    known := x.key in scopeMap;
    if known {
      group := scopeMap[x.key];
    } else {
      group := new ScopeGroup(x.key.scope);
      scopeMap' := scopeMap'[x.key := group];
    }
    group.items := group.items + [x];
  }

  /** The second half of the loop of `Spans`. */
  method AttachSpan(x: Item, group: ScopeGroup, known: bool, resMap: map<Distinct, ResourceGroup>)
    returns (resMap': map<Distinct, ResourceGroup>)
    requires NamedResources(resMap) && (x.key.resource !in resMap ==> !known)
    modifies resMap.Values
    ensures GroupsOf(resMap') == Plus(old(GroupsOf(resMap)), x.key.resource, if known then [] else [group])
    ensures Entered(resMap, resMap', x.key.resource)
    ensures x.key.resource !in resMap ==>
      fresh(resMap'[x.key.resource]) && resMap'[x.key.resource].attrs == x.attrs
  {
    var r := x.key.resource;
    resMap' := resMap;
    if r !in resMap {
      var rs := new ResourceGroup(r, x.attrs);
      rs.scopes := [group];
      assert [] + [group] == [group];
      resMap' := resMap'[r := rs];
    } else if !known {
      resMap[r].scopes := resMap[r].scopes + [group];
    } else {
      assert resMap[r].scopes + [] == resMap[r].scopes;
    }
  }

  /** The second half of the loop of `ResourceLogs`. */
  method AttachLog(x: Item, group: ScopeGroup, known: bool, resMap: map<Distinct, ResourceGroup>)
    returns (resMap': map<Distinct, ResourceGroup>)
    requires NamedResources(resMap)
    modifies resMap.Values
    ensures GroupsOf(resMap') == Plus(old(GroupsOf(resMap)), x.key.resource, if known then [] else [group])
    ensures Entered(resMap, resMap', x.key.resource)
    ensures x.key.resource !in resMap ==>
      fresh(resMap'[x.key.resource]) && resMap'[x.key.resource].attrs == x.attrs
  {
    var r := x.key.resource;
    resMap' := resMap;
    var rl: ResourceGroup;
    if r in resMap {
      rl := resMap[r];
    } else {
      rl := new ResourceGroup(r, x.attrs);
      resMap' := resMap'[r := rl];
    }
    if !known { rl.scopes := rl.scopes + [group]; } else { assert rl.scopes + [] == rl.scopes; }
  }

  /** r has an entry of its own now; the others are the same objects as before. */
  ghost predicate Entered(resMap: map<Distinct, ResourceGroup>, resMap': map<Distinct, ResourceGroup>, r: Distinct)
  {
    && r in resMap' && resMap' == resMap[r := resMap'[r]] && NamedResources(resMap')
    && (r in resMap ==> resMap'[r] == resMap[r])
  }

  /** The items that are not nil. */
  function Present(sdl: seq<Option<Item>>): seq<Item>
  {
    if |sdl| == 0 then [] else
    var last := sdl[|sdl| - 1];
    Present(sdl[..|sdl| - 1]) + if last.Some? then [last.value] else []
  }

  /** The maps after the loop has read the items. */
  ghost predicate Sorted(items: seq<Item>, scopeMap: map<Key, ScopeGroup>, resMap: map<Distinct, ResourceGroup>)
    reads scopeMap.Values, resMap.Values
  {
    && NamedScopes(scopeMap) && NamedResources(resMap)
    && ItemsFit(items, ItemsOf(scopeMap)) && GroupsFit(items, scopeMap, GroupsOf(resMap))
    && OwnersFit(items, resMap)
  }

  lemma KnownScope(items: seq<Item>, scopeMap: map<Key, ScopeGroup>, x: Item)
    requires ItemsFit(items, ItemsOf(scopeMap))
    ensures x.key in scopeMap <==> Filter(items, x.key) != []
  {
    assert x.key in ItemsOf(scopeMap) <==> x.key in scopeMap;
  }

  method AddSpan(ghost items: seq<Item>, x: Item, scopeMap: map<Key, ScopeGroup>, resMap: map<Distinct, ResourceGroup>)
    returns (scopeMap': map<Key, ScopeGroup>, resMap': map<Distinct, ResourceGroup>)
    requires Sorted(items, scopeMap, resMap)
    modifies scopeMap.Values, resMap.Values
    ensures Sorted(items + [x], scopeMap', resMap')
    ensures Renewed(scopeMap, scopeMap') && Renewed(resMap, resMap')
    ensures forall k :: k in scopeMap' && k !in scopeMap ==> fresh(scopeMap'[k])
    ensures forall r :: r in resMap' && r !in resMap ==> fresh(resMap'[r])
  {
    hide Filter, Scopes, FirstAttrs, ItemsFit, GroupsFit, OwnersFit, ItemsOf, GroupsOf, Apart, Plus;
    KnownScope(items, scopeMap, x);
    ItemsNext(items, x, ItemsOf(scopeMap));
    ghost var view := GroupsOf(resMap);
    var group, known;
    group, known, scopeMap' := AddToScope(x, scopeMap);
    GroupsKept(items, scopeMap, x.key, group, view);
    GroupsNext(items, x, scopeMap', view);
    GroupsKeys(resMap);
    resMap' := AttachSpan(x, group, known, resMap);
    OwnersNext(items, x, resMap, resMap');
  }

  method AddLog(ghost items: seq<Item>, x: Item, scopeMap: map<Key, ScopeGroup>, resMap: map<Distinct, ResourceGroup>)
    returns (scopeMap': map<Key, ScopeGroup>, resMap': map<Distinct, ResourceGroup>)
    requires Sorted(items, scopeMap, resMap)
    modifies scopeMap.Values, resMap.Values
    ensures Sorted(items + [x], scopeMap', resMap')
    ensures Renewed(scopeMap, scopeMap') && Renewed(resMap, resMap')
    ensures forall k :: k in scopeMap' && k !in scopeMap ==> fresh(scopeMap'[k])
    ensures forall r :: r in resMap' && r !in resMap ==> fresh(resMap'[r])
  {
    hide Filter, Scopes, FirstAttrs, ItemsFit, GroupsFit, OwnersFit, ItemsOf, GroupsOf, Apart, Plus;
    KnownScope(items, scopeMap, x);
    ItemsNext(items, x, ItemsOf(scopeMap));
    ghost var view := GroupsOf(resMap);
    var group, known;
    group, known, scopeMap' := AddToScope(x, scopeMap);
    GroupsKept(items, scopeMap, x.key, group, view);
    GroupsNext(items, x, scopeMap', view);
    resMap' := AttachLog(x, group, known, resMap);
    OwnersNext(items, x, resMap, resMap');
  }

  lemma GroupsKeys(resMap: map<Distinct, ResourceGroup>)
    ensures GroupsOf(resMap).Keys == resMap.Keys
  {}

  /** Entries stay the objects they were. */
  ghost predicate Renewed<K, V>(m: map<K, V>, m': map<K, V>)
  {
    forall k :: k in m ==> k in m' && m'[k] == m[k]
  }

  /** The values of the map in some order. */
  method Values(resMap: map<Distinct, ResourceGroup>) returns (rss: seq<ResourceGroup>)
    requires NamedResources(resMap)
    ensures forall i, j :: 0 <= i < j < |rss| ==> rss[i].resource != rss[j].resource
    ensures forall i :: 0 <= i < |rss| ==> rss[i].resource in resMap && resMap[rss[i].resource] == rss[i]
    ensures forall r :: r in resMap ==> resMap[r] in rss
  {
    rss := [];
    var left := resMap.Keys;
    while left != {}
      invariant left <= resMap.Keys
      invariant forall i :: 0 <= i < |rss| ==>
        rss[i].resource in resMap && rss[i].resource !in left && resMap[rss[i].resource] == rss[i]
      invariant forall i, j :: 0 <= i < j < |rss| ==> rss[i].resource != rss[j].resource
      invariant forall r :: r in resMap && r !in left ==> resMap[r] in rss
      decreases |left|
    {
      var r :| r in left;
      left := left - {r};
      rss := rss + [resMap[r]];
    }
  }

  /** `Spans`: one entry per resource, with its scopes in order of appearance, and their spans in input order. */
  method Spans(sdl: seq<Option<Item>>) returns (rss: seq<ResourceGroup>)
    ensures forall i, j :: 0 <= i < j < |rss| ==> rss[i].resource != rss[j].resource
    ensures forall r :: Scopes(Present(sdl), r) != [] <==> exists i :: 0 <= i < |rss| && rss[i].resource == r
    ensures forall i :: 0 <= i < |rss| ==> |rss[i].scopes| == |Scopes(Present(sdl), rss[i].resource)|
    ensures forall i :: 0 <= i < |rss| ==> FirstAttrs(Present(sdl), rss[i].resource) == Some(rss[i].attrs)
    ensures forall i, j :: 0 <= i < |rss| && 0 <= j < |rss[i].scopes| ==>
      var (r, g) := (rss[i].resource, rss[i].scopes[j]);
      g.scope == Scopes(Present(sdl), r)[j] && g.items == Filter(Present(sdl), Key(r, g.scope))
  {
    if |sdl| == 0 { return []; }
    var scopeMap: map<Key, ScopeGroup>, resMap: map<Distinct, ResourceGroup> := map[], map[];
    assert Present(sdl[..0]) == [] && Sorted([], scopeMap, resMap);
    for i := 0 to |sdl|
      invariant Sorted(Present(sdl[..i]), scopeMap, resMap)
      invariant forall k :: k in scopeMap ==> fresh(scopeMap[k])
      invariant forall r :: r in resMap ==> fresh(resMap[r])
    {
      assert sdl[..i + 1][..i] == sdl[..i];
      if sdl[i].Some? {
        scopeMap, resMap := AddSpan(Present(sdl[..i]), sdl[i].value, scopeMap, resMap);
      } else {
        assert Present(sdl[..i]) + [] == Present(sdl[..i]);
      }
    }
    assert sdl[..|sdl|] == sdl;
    rss := Values(resMap);
    EntriesFit(Present(sdl), scopeMap, resMap, rss);
  }

  /** `ResourceLogs`, the same for log records. */
  method ResourceLogs(records: seq<Item>) returns (rls: seq<ResourceGroup>)
    ensures forall i, j :: 0 <= i < j < |rls| ==> rls[i].resource != rls[j].resource
    ensures forall r :: Scopes(records, r) != [] <==> exists i :: 0 <= i < |rls| && rls[i].resource == r
    ensures forall i :: 0 <= i < |rls| ==> |rls[i].scopes| == |Scopes(records, rls[i].resource)|
    ensures forall i :: 0 <= i < |rls| ==> FirstAttrs(records, rls[i].resource) == Some(rls[i].attrs)
    ensures forall i, j :: 0 <= i < |rls| && 0 <= j < |rls[i].scopes| ==>
      var (r, g) := (rls[i].resource, rls[i].scopes[j]);
      g.scope == Scopes(records, r)[j] && g.items == Filter(records, Key(r, g.scope))
  {
    if |records| == 0 { return []; }
    var scopeMap: map<Key, ScopeGroup>, resMap: map<Distinct, ResourceGroup> := map[], map[];
    assert records[..0] == [] && Sorted([], scopeMap, resMap);
    for i := 0 to |records|
      invariant Sorted(records[..i], scopeMap, resMap)
      invariant forall k :: k in scopeMap ==> fresh(scopeMap[k])
      invariant forall r :: r in resMap ==> fresh(resMap[r])
    {
      assert records[..i + 1] == records[..i] + [records[i]];
      scopeMap, resMap := AddLog(records[..i], records[i], scopeMap, resMap);
    }
    assert records[..|records|] == records;
    rls := Values(resMap);
    EntriesFit(records, scopeMap, resMap, rls);
  }

  lemma EntriesFit(items: seq<Item>, scopeMap: map<Key, ScopeGroup>, resMap: map<Distinct, ResourceGroup>,
                   rss: seq<ResourceGroup>)
    requires Sorted(items, scopeMap, resMap)
    requires forall i :: 0 <= i < |rss| ==> rss[i].resource in resMap && resMap[rss[i].resource] == rss[i]
    requires forall r :: r in resMap ==> resMap[r] in rss
    ensures forall r :: Scopes(items, r) != [] <==> exists i :: 0 <= i < |rss| && rss[i].resource == r
    ensures forall i :: 0 <= i < |rss| ==> |rss[i].scopes| == |Scopes(items, rss[i].resource)|
    ensures forall i :: 0 <= i < |rss| ==> FirstAttrs(items, rss[i].resource) == Some(rss[i].attrs)
    ensures forall i, j :: 0 <= i < |rss| && 0 <= j < |rss[i].scopes| ==>
      var (r, g) := (rss[i].resource, rss[i].scopes[j]);
      g.scope == Scopes(items, r)[j] && g.items == Filter(items, Key(r, g.scope))
  {
    forall r ensures Scopes(items, r) != [] <==> exists i :: 0 <= i < |rss| && rss[i].resource == r {
      assert r in GroupsOf(resMap) <==> r in resMap;
    }
    forall i | 0 <= i < |rss| ensures Attached(items, scopeMap, rss[i].resource, rss[i].scopes) {
      assert GroupsOf(resMap)[rss[i].resource] == rss[i].scopes;
    }
    forall k | k in scopeMap ensures scopeMap[k].items == Filter(items, k) {
      assert ItemsOf(scopeMap)[k] == scopeMap[k].items;
    }
  }

  // ---------------------------------------------------------------- nothing is lost, doubled or reordered

  lemma {:induction false} ScopesDistinct(items: seq<Item>, r: Distinct, i: nat, j: nat)
    requires i < j < |Scopes(items, r)|
    ensures Scopes(items, r)[i] != Scopes(items, r)[j]
  {
    var init := Scopes(items[..|items| - 1], r);
    if j < |init| { ScopesDistinct(items[..|items| - 1], r, i, j); }
  }

  /** Item i lands in the group of its own key, behind the earlier items of that key. */
  lemma {:induction false} LandsInOwnGroup(items: seq<Item>, i: nat)
    requires i < |items|
    ensures var (k, at) := (items[i].key, |Filter(items[..i], items[i].key)|);
      at < |Filter(items, k)| && Filter(items, k)[at] == items[i]
  {
    if i < |items| - 1 {
      LandsInOwnGroup(items[..|items| - 1], i);
      assert items[..|items| - 1][..i] == items[..i];
    }
  }

  /** And every place in a group is taken by exactly one item. */
  lemma {:induction false} TakenByOne(items: seq<Item>, k: Key, at: nat) returns (i: nat)
    requires at < |Filter(items, k)|
    ensures i < |items| && items[i].key == k && |Filter(items[..i], k)| == at
    ensures forall j :: 0 <= j < |items| && items[j].key == k && |Filter(items[..j], k)| == at ==> j == i
  {
    var init := items[..|items| - 1];
    if at < |Filter(init, k)| {
      i := TakenByOne(init, k, at);
      forall j | 0 <= j < |items| && items[j].key == k && |Filter(items[..j], k)| == at ensures j == i {
        if j < |init| { assert init[..j] == items[..j]; }
      }
      assert init[..i] == items[..i];
    } else {
      i := |items| - 1;
      forall j | 0 <= j < |init| && items[j].key == k ensures |Filter(items[..j], k)| < |Filter(init, k)| {
        LandsInOwnGroup(init, j);
        assert init[..j] == items[..j];
      }
    }
  }

  // ---------------------------------------------------------------- whose attributes a record leaves under

  /** The attributes of a resource are those of the first item with it. */
  lemma {:induction false} FirstItem(items: seq<Item>, r: Distinct)
    ensures FirstAttrs(items, r).None? ==> forall j :: 0 <= j < |items| ==> items[j].key.resource != r
    ensures FirstAttrs(items, r).Some? ==>
      exists f :: 0 <= f < |items| && IsFirst(items, r, f) && FirstAttrs(items, r) == Some(items[f].attrs)
  {
    if |items| == 0 {
    } else {
      var init := items[..|items| - 1];
      FirstItem(init, r);
      if FirstAttrs(init, r).Some? {
        var f :| 0 <= f < |init| && IsFirst(init, r, f) && FirstAttrs(init, r) == Some(init[f].attrs);
        assert IsFirst(items, r, f);
      } else if items[|init|].key.resource == r {
        assert IsFirst(items, r, |init|);
      }
    }
  }

  predicate IsFirst(items: seq<Item>, r: Distinct, f: nat)
    requires f < |items|
  {
    items[f].key.resource == r && forall j :: 0 <= j < f ==> items[j].key.resource != r
  }

  /** Item i leaves under the attributes of its own resource. */
  predicate LeavesUnderOwn(items: seq<Item>, i: nat)
    requires i < |items|
  {
    FirstAttrs(items, items[i].key.resource) == Some(items[i].attrs)
  }

  /** It does so exactly when the first item with its Distinct has the same attributes. */
  lemma LeavesUnderOwnIff(items: seq<Item>, i: nat, f: nat)
    requires i < |items| && f < |items| && IsFirst(items, items[i].key.resource, f)
    ensures LeavesUnderOwn(items, i) <==> items[f].attrs == items[i].attrs
  {
    FirstItem(items, items[i].key.resource);
  }

  /** Two different resources of the batch have one Distinct. */
  predicate Shared(items: seq<Item>, i: nat, j: nat)
    requires i < |items| && j < |items|
  {
    items[i].key.resource == items[j].key.resource && items[i].attrs != items[j].attrs
  }

  /** All items leave under their own attributes exactly when no two resources share a Distinct. */
  lemma OwnAttrsIff(items: seq<Item>)
    ensures (forall i :: 0 <= i < |items| ==> LeavesUnderOwn(items, i)) <==>
      forall i, j :: 0 <= i < |items| && 0 <= j < |items| ==> !Shared(items, i, j)
  {
    forall i | 0 <= i < |items|
      ensures !LeavesUnderOwn(items, i) ==> exists j :: 0 <= j < |items| && Shared(items, i, j)
    {
      FirstItem(items, items[i].key.resource);
      if !LeavesUnderOwn(items, i) {
        var f :| 0 <= f < |items| && IsFirst(items, items[i].key.resource, f)
          && FirstAttrs(items, items[i].key.resource) == Some(items[f].attrs);
        assert Shared(items, i, f);
      }
    }
    forall i, j | 0 <= i < |items| && 0 <= j < |items| && LeavesUnderOwn(items, i) && LeavesUnderOwn(items, j)
      ensures !Shared(items, i, j)
    {}
    hide FirstAttrs, Shared, LeavesUnderOwn;
  }

  /**
    The second of two records leaves under the attributes of the first, whatever the hash, when the value of
    the one attribute of the first runs on into a key, the identifier of strings and another value.
   */
  lemma LeavesUnderOther(h: I.Hash, k: bytes, v: bytes, z: bytes, w: bytes, scope: bytes)
    ensures var x := Made(h, [KeyValue(k, Str(v + z + I.Word(I.STRING_ID) + w))], scope, 0);
      var y := Made(h, [KeyValue(k, Str(v)), KeyValue(z, Str(w))], scope, 1);
      FirstAttrs([x, y], y.key.resource) == Some(x.attrs) != Some(y.attrs)
  {
    var x := Made(h, [KeyValue(k, Str(v + z + I.Word(I.STRING_ID) + w))], scope, 0);
    var y := Made(h, [KeyValue(k, Str(v)), KeyValue(z, Str(w))], scope, 1);
    I.StreamsRunTogether(h, k, v, z, w);
    assert x.key == y.key && |x.attrs| == 1 && |y.attrs| == 2;
    assert [x, y][..1] == [x] && [x][..0] == [];
    assert FirstAttrs([x], x.key.resource) == Some(x.attrs);
  }

  /** The hash tells the streams of the resources in the batch apart when they differ. */
  predicate Separates(h: I.Hash, items: seq<Item>)
  {
    forall i, j :: 0 <= i < |items| && 0 <= j < |items| ==>
      h(I.StreamAttrs(items[i].attrs)) == h(I.StreamAttrs(items[j].attrs)) ==>
      I.StreamAttrs(items[i].attrs) == I.StreamAttrs(items[j].attrs)
  }

  predicate AllMade(h: I.Hash, items: seq<Item>)
  {
    forall i :: 0 <= i < |items| ==> items[i].key.resource == I.Equivalent(h, items[i].attrs)
  }

  /** Under such a hash two records whose resources differ in one value never share an entry. */
  lemma OneValueTwoEntries(h: I.Hash, items: seq<Item>, i: nat, j: nat, at: nat)
    requires AllMade(h, items) && Separates(h, items) && i < |items| && j < |items|
    requires I.DifferAt(items[i].attrs, items[j].attrs, at)
    ensures items[i].key.resource != items[j].key.resource
  {
    I.OneValueTellsApart(items[i].attrs, items[j].attrs, at);
  }

  /** Any two different resources of the batch differ in one value. */
  ghost predicate DifferInOne(items: seq<Item>)
  {
    forall i, j :: 0 <= i < |items| && 0 <= j < |items| && items[i].attrs != items[j].attrs ==>
      exists at :: I.DifferAt(items[i].attrs, items[j].attrs, at)
  }

  /** Then every record of the batch leaves under the attributes of its own resource. */
  lemma AllLeaveUnderOwn(h: I.Hash, items: seq<Item>)
    requires AllMade(h, items) && Separates(h, items) && DifferInOne(items)
    ensures forall i :: 0 <= i < |items| ==> LeavesUnderOwn(items, i)
  {
    forall i, j | 0 <= i < |items| && 0 <= j < |items| ensures !Shared(items, i, j) {
      if items[i].attrs != items[j].attrs {
        var at :| I.DifferAt(items[i].attrs, items[j].attrs, at);
        OneValueTwoEntries(h, items, i, j, at);
      }
    }
    hide LeavesUnderOwn, Shared;
    OwnAttrsIff(items);
  }

  /** Two records, of the instances 1 and 2 of a service: two entries, each with its own attributes. */
  lemma TwoInstances(h: I.Hash, key: bytes, scope: bytes)
    requires var (a, b) := ([KeyValue(key, Int64(1))], [KeyValue(key, Int64(2))]);
      h(I.StreamAttrs(a)) == h(I.StreamAttrs(b)) ==> I.StreamAttrs(a) == I.StreamAttrs(b)
    ensures var (x, y) := (Made(h, [KeyValue(key, Int64(1))], scope, 0), Made(h, [KeyValue(key, Int64(2))], scope, 1));
      && x.key.resource != y.key.resource
      && FirstAttrs([x, y], x.key.resource) == Some(x.attrs) && FirstAttrs([x, y], y.key.resource) == Some(y.attrs)
  {
    var (x, y) := (Made(h, [KeyValue(key, Int64(1))], scope, 0), Made(h, [KeyValue(key, Int64(2))], scope, 1));
    assert I.DifferAt(x.attrs, y.attrs, 0);
    I.OneValueTellsApart(x.attrs, y.attrs, 0);
    assert [x, y][..1] == [x] && [x][..0] == [];
    assert FirstAttrs([x], x.key.resource) == Some(x.attrs) && FirstAttrs([x], y.key.resource).None?;
  }
}
