/**
 * The master catalog: one row per product, deduplicated over all warehouses by the
 * key `name-size`, with the definition held at the central warehouse preferred, and
 * the stock of the selected warehouse laid over it; and the search over that catalog.
 */
module Catalog {
  import opened Wrappers
  import opened Text
  import opened Filtering
  import opened Inventory

  /** The deduplication key `${name}-${size}`. */
  function Key(it: Item): string {
    it.name + "-" + it.size
  }

  function Keys(items: seq<Item>): seq<string> {
    seq(|items|, i requires 0 <= i < |items| => Key(items[i]))
  }

  lemma KeysAppend(p: seq<Item>, x: Item)
    ensures Keys(p + [x]) == Keys(p) + [Key(x)]
  {
  }

  /** Position of the first occurrence of `k` in `ks`. */
  function FirstIndex(ks: seq<string>, k: string): (i: nat)
    requires k in ks
    ensures i < |ks| && ks[i] == k && k !in ks[..i]
  {
    if ks[0] == k then 0
    else
      var i := 1 + FirstIndex(ks[1..], k);
      assert ks[..i] == [ks[0]] + ks[1..][..i - 1];
      i
  }

  lemma FirstIndexUnique(ks: seq<string>, k: string, j: nat)
    requires j < |ks| && ks[j] == k && k !in ks[..j]
    ensures FirstIndex(ks, k) == j
  {
  }

  lemma FirstIndexAppend(ks: seq<string>, x: string, k: string)
    requires k in ks
    ensures FirstIndex(ks + [x], k) == FirstIndex(ks, k)
  {
    var i := FirstIndex(ks, k);
    assert (ks + [x])[..i] == ks[..i];
    FirstIndexUnique(ks + [x], k, i);
  }

  /**
   * The keys of `ks` without repetition, each where it first appears: what
   * `Map.prototype.set` leaves as the key order of a JavaScript `Map`.
   */
  function Distinct(ks: seq<string>): (d: seq<string>)
    ensures forall k :: k in d <==> k in ks
    ensures forall a, b :: 0 <= a < b < |d| ==> d[a] != d[b]
  {
    if ks == [] then []
    else
      var d := Distinct(ks[..|ks| - 1]);
      if ks[|ks| - 1] in d then d else d + [ks[|ks| - 1]]
  }

  lemma DistinctAppend(ks: seq<string>, x: string)
    ensures Distinct(ks + [x]) == if x in Distinct(ks) then Distinct(ks) else Distinct(ks) + [x]
  {
    assert (ks + [x])[..|ks|] == ks;
  }

  /** The distinct keys come in the order of their first appearance. */
  lemma {:induction false} DistinctInFirstAppearanceOrder(ks: seq<string>)
    ensures forall a, b :: 0 <= a < b < |Distinct(ks)| ==>
      FirstIndex(ks, Distinct(ks)[a]) < FirstIndex(ks, Distinct(ks)[b])
  {
    if ks != [] {
      var p, x := ks[..|ks| - 1], ks[|ks| - 1];
      assert ks == p + [x];
      DistinctInFirstAppearanceOrder(p);
      forall k | k in p
        ensures FirstIndex(ks, k) == FirstIndex(p, k) && FirstIndex(p, k) < |p|
      {
        FirstIndexAppend(p, x, k);
      }
      if x !in p {
        FirstIndexUnique(ks, x, |p|);
      }
    }
  }

  /** `item` is a definition of key `k` held at the central warehouse. */
  predicate IsMainDefinition(item: Item, k: string) {
    Key(item) == k && item.location == MainWarehouse
  }

  /** Position of the last central-warehouse definition of `k`, if there is one. */
  function LastMainIndex(items: seq<Item>, k: string): (r: Option<nat>)
    ensures r.Some? ==> r.value < |items| && IsMainDefinition(items[r.value], k)
    ensures forall j :: 0 <= j < |items| && IsMainDefinition(items[j], k) ==> r.Some? && j <= r.value
  {
    if items == [] then None
    else if IsMainDefinition(items[|items| - 1], k) then Some(|items| - 1)
    else
      var p := items[..|items| - 1];
      assert forall j :: 0 <= j < |p| ==> items[j] == p[j];
      LastMainIndex(p, k)
  }

  /**
   * The definition the catalog keeps for key `k`: the last one at the central
   * warehouse, or else the first one with that key.
   */
  function Definition(items: seq<Item>, k: string): (d: Item)
    requires k in Keys(items)
    ensures Key(d) == k
  {
    match LastMainIndex(items, k)
    case Some(i) => items[i]
    case None => items[FirstIndex(Keys(items), k)]
  }

  lemma MainDefinitionHasKey(p: seq<Item>, k: string)
    ensures LastMainIndex(p, k).Some? ==> k in Keys(p)
  {
    match LastMainIndex(p, k)
    case Some(i) =>
      assert Keys(p)[i] == k;
    case None =>
  }

  /** How the definition of a key changes when one more item arrives. */
  lemma DefinitionAppend(p: seq<Item>, x: Item, k: string)
    requires k in Keys(p + [x])
    ensures Definition(p + [x], k) ==
      if IsMainDefinition(x, k) then x else if k in Keys(p) then Definition(p, k) else x
  {
    var q := p + [x];
    KeysAppend(p, x);
    assert q[..|p|] == p;
    if !IsMainDefinition(x, k) {
      assert LastMainIndex(q, k) == LastMainIndex(p, k);
      if k in Keys(p) {
        FirstIndexAppend(Keys(p), Key(x), k);
        match LastMainIndex(p, k)
        case Some(i) =>
          assert q[i] == p[i];
        case None =>
          var f := FirstIndex(Keys(p), k);
          assert q[f] == p[f];
      } else {
        assert Key(x) == k;
        MainDefinitionHasKey(p, k);
        FirstIndexUnique(Keys(q), k, |p|);
      }
    }
  }

  /** One step of the `forEach` below keeps every stored definition the kept one. */
  lemma DefinitionsStep(p: seq<Item>, x: Item, defs: map<string, Item>)
    requires forall k :: k in defs <==> k in Keys(p)
    requires forall k :: k in defs ==> defs[k] == Definition(p, k)
    ensures var next := if Key(x) !in defs || x.location == MainWarehouse then defs[Key(x) := x] else defs;
      (forall k :: k in next <==> k in Keys(p + [x]))
      && (forall k :: k in next ==> next[k] == Definition(p + [x], k))
  {
    KeysAppend(p, x);
    forall k | k in Keys(p + [x]) {
      DefinitionAppend(p, x, k);
    }
  }

  /**
   * The `forEach` over all items that fills the `Map` of definitions: a key is set
   * when it is new or when the item is held at the central warehouse. The `Map` is
   * `defs` with its key order `order`.
   */
  method BuildDefinitions(items: seq<Item>) returns (order: seq<string>, defs: map<string, Item>)
    ensures order == Distinct(Keys(items))
    ensures forall k :: k in defs <==> k in Keys(items)
    ensures forall k :: k in defs ==> defs[k] == Definition(items, k)
  {
    order, defs := [], map[];
    var i := 0;
    while i < |items|
      invariant 0 <= i <= |items|
      invariant order == Distinct(Keys(items[..i]))
      invariant forall k :: k in defs <==> k in Keys(items[..i])
      invariant forall k :: k in defs ==> defs[k] == Definition(items[..i], k)
    {
      var item := items[i];
      var key := Key(item);
      assert items[..i + 1] == items[..i] + [item];
      KeysAppend(items[..i], item);
      DistinctAppend(Keys(items[..i]), key);
      DefinitionsStep(items[..i], item, defs);
      if key !in defs || item.location == MainWarehouse {
        if key !in defs {
          order := order + [key];
        }
        defs := defs[key := item];
      }
      i := i + 1;
    }
    assert items[..i] == items;
  }

  /** Position of the first item of product (`name`, `size`) held at `location`: `items.find`. */
  function FindAt(items: seq<Item>, name: string, size: string, location: string): (r: Option<nat>)
    ensures r.Some? ==> (r.value < |items| && items[r.value].name == name
      && items[r.value].size == size && items[r.value].location == location)
    ensures forall j :: 0 <= j < |items| && (r.None? || j < r.value) ==>
      !(items[j].name == name && items[j].size == size && items[j].location == location)
  {
    if items == [] then None
    else if items[0].name == name && items[0].size == size && items[0].location == location then Some(0)
    else
      match FindAt(items[1..], name, size, location)
      case None => None
      case Some(i) => Some(i + 1)
  }

  /**
   * A catalog row: the definition, with the id and stock of the selected warehouse's
   * own record of that product (stock 0 when it has none), placed at that warehouse.
   */
  function Overlay(def: Item, items: seq<Item>, wh: Warehouse): (r: Item)
    ensures r.name == def.name && r.size == def.size && r.category == def.category
    ensures r.dailyUsage == def.dailyUsage && r.unit == def.unit
    ensures r.location == wh.Name()
    ensures var f := FindAt(items, def.name, def.size, wh.Name());
      if f.Some? then r.id == items[f.value].id && r.expectedQty == items[f.value].expectedQty
      else r.id == def.id && r.expectedQty == 0
  {
    match FindAt(items, def.name, def.size, wh.Name())
    case Some(i) => def.(id := items[i].id, expectedQty := items[i].expectedQty, location := wh.Name())
    case None => def.(expectedQty := 0, location := wh.Name())
  }

  /** The master catalog for warehouse `wh`. */
  function MasterCatalogOf(items: seq<Item>, wh: Warehouse): (c: seq<Item>)
    ensures Keys(c) == Distinct(Keys(items))
    ensures forall j :: 0 <= j < |c| ==> c[j].location == wh.Name()
  {
    var ks := Distinct(Keys(items));
    seq(|ks|, j requires 0 <= j < |ks| => Overlay(Definition(items, ks[j]), items, wh))
  }

  /**
   * The catalog has one row per distinct key of `items`, no key twice, rows in the
   * order in which their keys first appear; each row is the kept definition with the
   * selected warehouse's id and stock.
   */
  lemma MasterCatalogRows(items: seq<Item>, wh: Warehouse)
    ensures var c := MasterCatalogOf(items, wh);
      && (forall k :: k in Keys(c) <==> k in Keys(items))
      && (forall a, b :: 0 <= a < b < |c| ==> Key(c[a]) != Key(c[b]))
      && (forall a, b :: 0 <= a < b < |c| ==>
            FirstIndex(Keys(items), Key(c[a])) < FirstIndex(Keys(items), Key(c[b])))
      && (forall j :: 0 <= j < |c| ==> c[j] == Overlay(Definition(items, Key(c[j])), items, wh))
  {
    var c := MasterCatalogOf(items, wh);
    DistinctInFirstAppearanceOrder(Keys(items));
    assert forall j :: 0 <= j < |c| ==> Key(c[j]) == Keys(c)[j];
  }

  /**
   * `masterCatalog`: the definitions in the key order of the `Map`, each laid over
   * with the selected warehouse's stock.
   */
  method MasterCatalog(items: seq<Item>, wh: Warehouse) returns (catalog: seq<Item>)
    ensures catalog == MasterCatalogOf(items, wh)
  {
    var order, defs := BuildDefinitions(items);
    catalog := seq(|order|, j requires 0 <= j < |order| && order[j] in defs => Overlay(defs[order[j]], items, wh));
  }

  /** The case-insensitive match of a catalog row against a lower-cased search term. */
  predicate MatchesTerm(item: Item, lower: string) {
    Includes(Lower(item.name), lower) || Includes(Lower(item.category), lower) || Includes(Lower(item.size), lower)
  }

  /**
   * `filteredCatalog`: the whole catalog for an empty term, otherwise the rows whose
   * lower-cased name, category or size contains the lower-cased term, in order.
   */
  function SearchCatalog(catalog: seq<Item>, term: string): (r: seq<Item>)
    ensures term == "" ==> r == catalog
    ensures term != "" ==> IsSubsequence(r, catalog)
    ensures term != "" ==>
      forall x :: multiset(r)[x] == if MatchesTerm(x, Lower(term)) then multiset(catalog)[x] else 0
  {
    if term == "" then catalog
    else Filter(catalog, (it: Item) => MatchesTerm(it, Lower(term)))
  }

  /** The search does not see the case of the term. */
  lemma SearchIgnoresCase(catalog: seq<Item>, t1: string, t2: string)
    requires Lower(t1) == Lower(t2)
    ensures SearchCatalog(catalog, t1) == SearchCatalog(catalog, t2)
  {
    assert |t1| == |t2|;
  }

  /**
   * Keys join name and size with `-`, so two different products can share a key and
   * then share one catalog row.
   */
  lemma KeyCollision()
    ensures var a := Item("1", "Sprei-King", "L", "Linen", None, "pcs", 3, MainWarehouse);
      var b := Item("2", "Sprei", "King-L", "Linen", None, "pcs", 5, MainWarehouse);
      (a.name, a.size) != (b.name, b.size) && Key(a) == Key(b)
      && |MasterCatalogOf([a, b], Singles)| == 1
  {
    var a := Item("1", "Sprei-King", "L", "Linen", None, "pcs", 3, MainWarehouse);
    var b := Item("2", "Sprei", "King-L", "Linen", None, "pcs", 5, MainWarehouse);
    assert Key(a) == Key(b);
    assert Keys([a, b]) == [Key(a), Key(a)];
    assert [Key(a), Key(a)][..1] == [Key(a)];
    assert Distinct([Key(a)]) == [Key(a)];
  }
}
