/**
 * The drug catalog of a monthly assignment: the items, their grouping into
 * sections by category, and the price sums the budget rule is built on.
 */
module Catalog {
  import opened Wrappers
  import opened Json

  /**
   * One drug of the catalog. The display fields keep the raw JSON value
   * the screen later renders; `price` is the exact value of `costototal`.
   */
  datatype DrugItem = DrugItem(
    id: int,
    code: Json,
    nombre: Json,
    nombremarca: Json,
    dosis: Json,
    tamano: Json,
    price: real)

  /** The drugs of one category; the category is the raw grouping key. */
  datatype DrugSection = DrugSection(category: Json, items: seq<DrugItem>)

  // ---------------------------------------------------------------- reading drugs

  /** One drug element: `id` and `costototal` must be numbers, or the whole construction fails. */
  function ParseDrug(d: Obj): (r: Option<DrugItem>)
    ensures r.Some? <==> Get(d, "id").JNum? && Get(d, "costototal").JNum?
    ensures r.Some? ==> r.value.id == ToInt32(Get(d, "id").x) && r.value.price == Get(d, "costototal").x
  {
    match (Get(d, "id"), Get(d, "costototal"))
    case (JNum(i), JNum(p)) =>
      Some(DrugItem(ToInt32(i), Get(d, "code"), Get(d, "nombre"), Get(d, "nombremarca"),
                    Get(d, "dosis"), Get(d, "tamano"), p))
    case _ => None
  }

  /** `(d["categoria"] as? Map)?.get("nombre") ?: "Uncategorized"` */
  function CategoryKey(d: Obj): (k: Json)
    ensures k != JNull
    ensures Get(d, "categoria").JObj? && Get(Get(d, "categoria").fields, "nombre") != JNull ==>
              k == Get(Get(d, "categoria").fields, "nombre")
    ensures !Get(d, "categoria").JObj? || Get(Get(d, "categoria").fields, "nombre") == JNull ==>
              k == JStr("Uncategorized")
  {
    match Get(d, "categoria")
    case JObj(c) => if Get(c, "nombre") != JNull then Get(c, "nombre") else JStr("Uncategorized")
    case _ => JStr("Uncategorized")
  }

  /** A drug paired with the key it is grouped under. */
  datatype Entry = Entry(key: Json, item: DrugItem)

  /** Every element must be a map holding a valid drug; one bad element and nothing is built. */
  function Entries(drugs: seq<Json>): (r: Option<seq<Entry>>)
    ensures r.Some? <==> forall i :: 0 <= i < |drugs| ==> drugs[i].JObj? && ParseDrug(drugs[i].fields).Some?
    ensures r.Some? ==> |r.value| == |drugs| && forall i :: 0 <= i < |drugs| ==>
              r.value[i] == Entry(CategoryKey(drugs[i].fields), ParseDrug(drugs[i].fields).value)
  {
    if drugs == [] then Some([])
    else
      var rest := Entries(drugs[1..]);
      assert forall i :: 1 <= i < |drugs| ==> drugs[i] == drugs[1..][i - 1];
      match drugs[0]
      case JObj(m) =>
        (match (ParseDrug(m), rest)
         case (Some(item), Some(es)) => Some([Entry(CategoryKey(m), item)] + es)
         case _ => None)
      case _ => None
  }

  // ---------------------------------------------------------------- groupBy

  /** Adds one drug to the section of its key, opening a new last section for a new key. */
  function Insert(secs: seq<DrugSection>, k: Json, d: DrugItem): (r: seq<DrugSection>)
    ensures |r| == |secs| || |r| == |secs| + 1
    ensures forall i :: 0 <= i < |secs| ==> r[i].category == secs[i].category
    ensures |r| == |secs| + 1 <==> forall i :: 0 <= i < |secs| ==> secs[i].category != k
    ensures |r| == |secs| + 1 ==> r == secs + [DrugSection(k, [d])]
  {
    if secs == [] then [DrugSection(k, [d])]
    else if secs[0].category == k then [secs[0].(items := secs[0].items + [d])] + secs[1..]
    else
      var rest := Insert(secs[1..], k, d);
      assert forall i :: 1 <= i < |secs| ==> secs[i] == secs[1..][i - 1];
      [secs[0]] + rest
  }

  /** `groupBy`: sections in order of first appearance, drugs in input order within each. */
  function GroupBy(es: seq<Entry>): (r: seq<DrugSection>)
    ensures |r| <= |es|
    ensures r == [] <==> es == []
  {
    if es == [] then [] else Insert(GroupBy(es[..|es| - 1]), es[|es| - 1].key, es[|es| - 1].item)
  }

  /**
   * Sections come in order of first appearance: one more drug leaves the
   * existing sections in place, and a key not met before opens a new last
   * section holding just that drug.
   */
  lemma GroupByAppend(es: seq<Entry>, e: Entry)
    ensures var before, after := GroupBy(es), GroupBy(es + [e]);
            |before| <= |after| <= |before| + 1
            && (forall i :: 0 <= i < |before| ==> after[i].category == before[i].category)
            && (e.key !in Categories(before) ==> after == before + [DrugSection(e.key, [e.item])])
  {
    var before := GroupBy(es);
    assert (es + [e])[..|es|] == es;
    if e.key !in Categories(before) {
      forall i | 0 <= i < |before| ensures before[i].category != e.key {
        assert before[i].category in Categories(before);
      }
    }
  }

  /** The drugs filed under key `k`, in input order: what its section must hold. */
  function Members(es: seq<Entry>, k: Json): seq<DrugItem> {
    if es == [] then []
    else Members(es[..|es| - 1], k) + (if es[|es| - 1].key == k then [es[|es| - 1].item] else [])
  }

  predicate DistinctCategories(secs: seq<DrugSection>) {
    forall i, j :: 0 <= i < j < |secs| ==> secs[i].category != secs[j].category
  }

  function Categories(secs: seq<DrugSection>): set<Json> {
    set i | 0 <= i < |secs| :: secs[i].category
  }

  function Keys(es: seq<Entry>): set<Json> {
    set i | 0 <= i < |es| :: es[i].key
  }

  /** The items of the section with category `k`, or none. */
  function ItemsOf(secs: seq<DrugSection>, k: Json): seq<DrugItem> {
    if secs == [] then [] else if secs[0].category == k then secs[0].items else ItemsOf(secs[1..], k)
  }

  /** Filing one drug keeps the categories distinct, adds its key, and appends it to its key's section only. */
  lemma InsertSpec(secs: seq<DrugSection>, k: Json, d: DrugItem)
    requires DistinctCategories(secs)
    ensures DistinctCategories(Insert(secs, k, d))
    ensures Categories(Insert(secs, k, d)) == Categories(secs) + {k}
    ensures forall c :: ItemsOf(Insert(secs, k, d), c) == ItemsOf(secs, c) + (if c == k then [d] else [])
  {
    InsertCategories(secs, k, d);
    InsertDistinct(secs, k, d);
    forall c ensures ItemsOf(Insert(secs, k, d), c) == ItemsOf(secs, c) + (if c == k then [d] else []) {
      InsertItems(secs, k, d, c);
    }
  }

  /** The categories of a section list are those of its head and of its tail. */
  lemma CategoriesCons(secs: seq<DrugSection>)
    requires secs != []
    ensures Categories(secs) == {secs[0].category} + Categories(secs[1..])
  {
    var tail := secs[1..];
    forall c | c in Categories(secs) ensures c in {secs[0].category} + Categories(tail) {
      var i :| 0 <= i < |secs| && secs[i].category == c;
      if i > 0 { assert tail[i - 1].category == c; }
    }
    forall c | c in Categories(tail) ensures c in Categories(secs) {
      var i :| 0 <= i < |tail| && tail[i].category == c;
      assert secs[i + 1].category == c;
    }
  }

  /** A list has distinct categories exactly when its tail does and its head's category is not in the tail. */
  lemma DistinctCons(secs: seq<DrugSection>)
    requires secs != []
    ensures DistinctCategories(secs) <==>
              DistinctCategories(secs[1..]) && secs[0].category !in Categories(secs[1..])
  {
    var tail := secs[1..];
    if DistinctCategories(secs) {
      forall i, j | 0 <= i < j < |tail| ensures tail[i].category != tail[j].category {
        assert tail[i] == secs[i + 1] && tail[j] == secs[j + 1];
      }
      forall i | 0 <= i < |tail| ensures tail[i].category != secs[0].category {
        assert tail[i] == secs[i + 1];
      }
    }
    if DistinctCategories(tail) && secs[0].category !in Categories(tail) {
      forall i, j | 0 <= i < j < |secs| ensures secs[i].category != secs[j].category {
        assert secs[j] == tail[j - 1];
        if i > 0 { assert secs[i] == tail[i - 1]; }
      }
    }
  }

  lemma {:induction false} InsertCategories(secs: seq<DrugSection>, k: Json, d: DrugItem)
    ensures Categories(Insert(secs, k, d)) == Categories(secs) + {k}
  {
    var r := Insert(secs, k, d);
    if secs == [] {
      assert r == [DrugSection(k, [d])] && r[0].category == k;
      assert Categories(r) == {k};
    } else {
      CategoriesCons(secs);
      CategoriesCons(r);
      if secs[0].category == k {
        assert r[0].category == k && r[1..] == secs[1..];
      } else {
        assert r[0] == secs[0] && r[1..] == Insert(secs[1..], k, d);
        InsertCategories(secs[1..], k, d);
      }
    }
  }

  lemma {:induction false} InsertDistinct(secs: seq<DrugSection>, k: Json, d: DrugItem)
    requires DistinctCategories(secs)
    ensures DistinctCategories(Insert(secs, k, d))
  {
    var r := Insert(secs, k, d);
    if secs != [] {
      DistinctCons(secs);
      DistinctCons(r);
      if secs[0].category == k {
        assert r[0].category == k && r[1..] == secs[1..];
      } else {
        assert r[0] == secs[0] && r[1..] == Insert(secs[1..], k, d);
        InsertDistinct(secs[1..], k, d);
        InsertCategories(secs[1..], k, d);
      }
    }
  }

  lemma {:induction false} InsertItems(secs: seq<DrugSection>, k: Json, d: DrugItem, c: Json)
    ensures ItemsOf(Insert(secs, k, d), c) == ItemsOf(secs, c) + (if c == k then [d] else [])
  {
    var r := Insert(secs, k, d);
    if secs != [] {
      if secs[0].category == k {
        assert r[1..] == secs[1..];
      } else {
        assert r[0] == secs[0] && r[1..] == Insert(secs[1..], k, d);
        InsertItems(secs[1..], k, d, c);
      }
    }
  }

  /**
   * Grouping keeps every drug: categories are distinct, they are exactly
   * the keys met, and the section of each key holds precisely the drugs
   * with that key, in their input order.
   */
  lemma {:induction false} GroupBySpec(es: seq<Entry>)
    ensures DistinctCategories(GroupBy(es))
    ensures Categories(GroupBy(es)) == Keys(es)
    ensures forall k :: ItemsOf(GroupBy(es), k) == Members(es, k)
  {
    if es != [] {
      var init := es[..|es| - 1];
      var last := es[|es| - 1];
      var prev := GroupBy(init);
      GroupBySpec(init);
      InsertSpec(prev, last.key, last.item);
      assert GroupBy(es) == Insert(prev, last.key, last.item);
      KeysSnoc(es);
      forall k ensures ItemsOf(GroupBy(es), k) == Members(es, k) {
        assert Members(es, k) == Members(init, k) + (if last.key == k then [last.item] else []);
      }
    }
  }

  lemma KeysSnoc(es: seq<Entry>)
    requires es != []
    ensures Keys(es) == Keys(es[..|es| - 1]) + {es[|es| - 1].key}
  {
    var init := es[..|es| - 1];
    assert forall i :: 0 <= i < |init| ==> es[i] == init[i];
  }

  lemma {:induction false} ItemsOfDistinct(secs: seq<DrugSection>, i: nat)
    requires DistinctCategories(secs) && i < |secs|
    ensures ItemsOf(secs, secs[i].category) == secs[i].items
  {
    if i > 0 {
      assert DistinctCategories(secs[1..]);
      ItemsOfDistinct(secs[1..], i - 1);
    }
  }

  /** Every section of the grouping holds exactly the drugs filed under its category. */
  lemma SectionsHoldTheirMembers(es: seq<Entry>)
    ensures forall i :: 0 <= i < |GroupBy(es)| ==> GroupBy(es)[i].items == Members(es, GroupBy(es)[i].category)
    ensures forall i :: 0 <= i < |GroupBy(es)| ==> GroupBy(es)[i].items != []
  {
    var secs := GroupBy(es);
    GroupBySpec(es);
    forall i | 0 <= i < |secs| ensures secs[i].items == Members(es, secs[i].category) && secs[i].items != [] {
      ItemsOfDistinct(secs, i);
      assert secs[i].category in Categories(secs);
      MembersNonEmpty(es, secs[i].category);
    }
  }

  lemma {:induction false} MembersNonEmpty(es: seq<Entry>, k: Json)
    requires k in Keys(es)
    ensures Members(es, k) != []
  {
    var init := es[..|es| - 1];
    if es[|es| - 1].key != k {
      var i :| 0 <= i < |es| && es[i].key == k;
      assert init[i] == es[i];
      MembersNonEmpty(init, k);
    }
  }

  /**
   * The section construction from the `drugs` list: nothing when an element
   * is not a valid drug, otherwise the drugs grouped by category.
   */
  function BuildSections(drugs: seq<Json>): (r: Option<seq<DrugSection>>)
    ensures r.Some? <==> Entries(drugs).Some?
    ensures r.Some? ==> r.value == GroupBy(Entries(drugs).value)
  {
    match Entries(drugs)
    case Some(es) => Some(GroupBy(es))
    case None => None
  }

  /**
   * What the assignment body does to `sections`: a new catalog when `drugs`
   * is a non-empty list of valid drugs; nothing (the old sections stay) when
   * it is missing, not a list, empty, or holds a bad element.
   */
  function SectionsFromBody(body: Obj): (r: Option<seq<DrugSection>>)
    ensures r.Some? ==> Get(body, "drugs").JList? && Get(body, "drugs").elements != []
    ensures Get(body, "drugs").JList? && Get(body, "drugs").elements != [] ==>
              r == BuildSections(Get(body, "drugs").elements)
  {
    match Get(body, "drugs")
    case JList(ds) => if ds == [] then None else BuildSections(ds)
    case _ => None
  }

  /** `plan_salud.presupuesto_mensual` when it is a number. */
  function PlanBudget(body: Obj): (r: Option<real>)
    ensures r.Some? ==> (Get(body, "plan_salud").JObj? &&
                         Get(Get(body, "plan_salud").fields, "presupuesto_mensual") == JNum(r.value))
    ensures r.None? ==> !Get(body, "plan_salud").JObj? ||
                        !Get(Get(body, "plan_salud").fields, "presupuesto_mensual").JNum?
  {
    match Get(body, "plan_salud")
    case JObj(p) => (match Get(p, "presupuesto_mensual") case JNum(x) => Some(x) case _ => None)
    case _ => None
  }

  // ---------------------------------------------------------------- the catalog as one list

  /** `sections.flatMap { it.items }` */
  function AllItems(secs: seq<DrugSection>): seq<DrugItem> {
    if secs == [] then [] else secs[0].items + AllItems(secs[1..])
  }

  function Ids(items: seq<DrugItem>): set<int> {
    set i | 0 <= i < |items| :: items[i].id
  }

  predicate UniqueIds(items: seq<DrugItem>) {
    forall i, j :: 0 <= i < j < |items| ==> items[i].id != items[j].id
  }

  /** `items.firstOrNull { it.id == id }` */
  function Find(items: seq<DrugItem>, id: int): (r: Option<DrugItem>)
    ensures r.Some? <==> id in Ids(items)
    ensures r.Some? ==> r.value.id == id && r.value in items
    ensures r.Some? ==> exists i :: 0 <= i < |items| && items[i] == r.value
                                    && forall j :: 0 <= j < i ==> items[j].id != id
  {
    if items == [] then None
    else if items[0].id == id then Some(items[0])
    else
      var r := Find(items[1..], id);
      TailIds(items);
      if r.Some? then
        var i :| 0 <= i < |items[1..]| && items[1..][i] == r.value
                 && forall j :: 0 <= j < i ==> items[1..][j].id != id;
        assert items[i + 1] == r.value;
        assert forall j :: 1 <= j < i + 1 ==> items[j] == items[1..][j - 1];
        r
      else r
  }

  /** `items.first { it.id == id }.price`: the price of the first item with that id. */
  function PriceOf(items: seq<DrugItem>, id: int): real
    requires id in Ids(items)
  {
    Find(items, id).value.price
  }

  /** The summed price of the catalog items whose id is in `ids`, walking the catalog. */
  function CatalogSum(items: seq<DrugItem>, ids: set<int>): real {
    if items == [] then 0.0
    else (if items[0].id in ids then items[0].price else 0.0) + CatalogSum(items[1..], ids)
  }

  lemma TailIds(items: seq<DrugItem>)
    requires items != []
    ensures Ids(items) == Ids(items[1..]) + {items[0].id}
  {
    assert forall i :: 1 <= i < |items| ==> items[i] == items[1..][i - 1];
  }

  /** Ids that are not in the catalog do not change the sum. */
  lemma {:induction false} SumIgnoresAbsent(items: seq<DrugItem>, ids: set<int>, x: int)
    requires x !in Ids(items)
    ensures CatalogSum(items, ids + {x}) == CatalogSum(items, ids)
    ensures CatalogSum(items, ids - {x}) == CatalogSum(items, ids)
  {
    if items != [] {
      TailIds(items);
      SumIgnoresAbsent(items[1..], ids, x);
    }
  }

  /** Adding one catalog id to the set adds exactly its price. */
  lemma {:induction false} SumAdd(items: seq<DrugItem>, ids: set<int>, x: int)
    requires UniqueIds(items) && x in Ids(items) && x !in ids
    ensures CatalogSum(items, ids + {x}) == CatalogSum(items, ids) + PriceOf(items, x)
  {
    TailIds(items);
    var tail := items[1..];
    assert UniqueIds(tail);
    if items[0].id == x {
      assert x !in Ids(tail) by {
        forall i | 0 <= i < |tail| ensures tail[i].id != x {
          assert tail[i] == items[i + 1];
        }
      }
      SumIgnoresAbsent(tail, ids, x);
    } else {
      SumAdd(tail, ids, x);
    }
  }

  /**
   * The source sums the price of each selected id looked up in the catalog.
   * This is that sum, over the ids in any order.
   */
  ghost function KeySum(ids: set<int>, items: seq<DrugItem>): real
    requires ids <= Ids(items)
  {
    if ids == {} then 0.0
    else
      var k :| k in ids;
      PriceOf(items, k) + KeySum(ids - {k}, items)
  }

  /** With unique catalog ids, the per-id lookup sum and the catalog walk agree. */
  lemma {:induction false} KeySumIsCatalogSum(ids: set<int>, items: seq<DrugItem>)
    requires UniqueIds(items) && ids <= Ids(items)
    ensures KeySum(ids, items) == CatalogSum(items, ids)
    decreases ids
  {
    if ids == {} {
      ZeroSum(items);
    } else {
      var k :| k in ids && KeySum(ids, items) == PriceOf(items, k) + KeySum(ids - {k}, items);
      KeySumIsCatalogSum(ids - {k}, items);
      SumAdd(items, ids - {k}, k);
      assert ids - {k} + {k} == ids;
    }
  }

  lemma {:induction false} ZeroSum(items: seq<DrugItem>)
    ensures CatalogSum(items, {}) == 0.0
  {
    if items != [] { ZeroSum(items[1..]); }
  }
}
