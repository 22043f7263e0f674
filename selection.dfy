/**
 * The budget-capped selection of the order screen: which catalog drugs are
 * ticked, the monthly budget, what is left of it, the catalog itself and a
 * one-slot parking place for a saved selection that arrives before the
 * catalog does.
 *
 * The functions on the `Selection` value say what each operation does; the
 * class `SelectionState` holds the same state in fields and updates it in
 * place, and each of its methods is proved to follow its function.
 */
module Selection {
  import opened Wrappers
  import opened Catalog
  import opened Json

  /** The selection state as a value. */
  datatype Selection = Selection(
    selected: map<int, bool>,
    budget: real,
    remaining: real,
    sections: seq<DrugSection>,
    pending: Option<seq<int>>)

  /** The ticked ids: the keys mapped to true. */
  function SelectedIds(m: map<int, bool>): set<int> {
    set k | k in m && m[k]
  }

  function Items(s: Selection): seq<DrugItem> {
    AllItems(s.sections)
  }

  /**
   * What `calcularTotal` needs in order not to fail: catalog ids are
   * unique and every ticked id is in the catalog.
   */
  predicate Consistent(s: Selection) {
    UniqueIds(Items(s)) && SelectedIds(s.selected) <= Ids(Items(s))
  }

  /** `calcularTotal`: the summed catalog price of the ticked drugs. */
  function Total(s: Selection): real {
    CatalogSum(Items(s), SelectedIds(s.selected))
  }

  /** Under `Consistent`, the total is the price of each ticked id looked up in the catalog, summed. */
  lemma TotalIsSumOverTicked(s: Selection)
    requires Consistent(s)
    ensures Total(s) == KeySum(SelectedIds(s.selected), Items(s))
  {
    KeySumIsCatalogSum(SelectedIds(s.selected), Items(s));
  }

  // ---------------------------------------------------------------- toggle

  /** The outcome of one tick or untick: accepted or refused, and the state after it. */
  datatype Toggled = Toggled(accepted: bool, after: Selection)

  /** The total the toggle would lead to: the price added when ticking, taken off when unticking. */
  function ProposedTotal(s: Selection, id: int, price: real): real {
    if id in SelectedIds(s.selected) then Total(s) - price else Total(s) + price
  }

  /**
   * `onToggle`: the flip of `id` is accepted when the proposed total stays
   * within the budget; then only entry `id` changes and the remaining budget
   * becomes budget minus the proposed total. A refused flip changes nothing.
   */
  function Toggle(s: Selection, id: int, price: real): (r: Toggled)
    requires Consistent(s) && id in Ids(Items(s))
    ensures r.accepted <==> ProposedTotal(s, id, price) <= s.budget
    ensures !r.accepted ==> r.after == s
    ensures r.accepted ==> r.after.selected - {id} == s.selected - {id}
    ensures r.accepted ==> (SelectedIds(r.after.selected) ==
              if id in SelectedIds(s.selected) then SelectedIds(s.selected) - {id} else SelectedIds(s.selected) + {id})
    ensures r.accepted ==> r.after.remaining == s.budget - ProposedTotal(s, id, price)
    ensures r.after.budget == s.budget && r.after.sections == s.sections && r.after.pending == s.pending
    ensures Consistent(r.after)
    ensures r.accepted && price == PriceOf(Items(s), id) ==>
              Total(r.after) == ProposedTotal(s, id, price) && Total(r.after) <= s.budget
  {
    var willSelect := id !in SelectedIds(s.selected);
    var newTotal := ProposedTotal(s, id, price);
    if newTotal <= s.budget then
      var after := s.(selected := s.selected[id := willSelect], remaining := s.budget - newTotal);
      assert SelectedIds(after.selected) ==
        if willSelect then SelectedIds(s.selected) + {id} else SelectedIds(s.selected) - {id};
      FlipTotal(s, id);
      Toggled(true, after)
    else
      Toggled(false, s)
  }

  /** Flipping one catalog id moves the total by exactly its catalog price. */
  lemma FlipTotal(s: Selection, id: int)
    requires Consistent(s) && id in Ids(Items(s))
    ensures var ids := SelectedIds(s.selected);
            id in ids ==> CatalogSum(Items(s), ids - {id}) == Total(s) - PriceOf(Items(s), id)
    ensures var ids := SelectedIds(s.selected);
            id !in ids ==> CatalogSum(Items(s), ids + {id}) == Total(s) + PriceOf(Items(s), id)
  {
    var ids := SelectedIds(s.selected);
    if id in ids {
      SumAdd(Items(s), ids - {id}, id);
      assert ids - {id} + {id} == ids;
    } else {
      SumAdd(Items(s), ids, id);
    }
  }

  /** Accepted or not, a toggle with the catalog price never leaves the total over budget. */
  lemma ToggleWithinBudget(s: Selection, id: int)
    requires Consistent(s) && id in Ids(Items(s)) && Total(s) <= s.budget
    ensures Total(Toggle(s, id, PriceOf(Items(s), id)).after) <= s.budget
  {
  }

  /**
   * Ticking and unticking the same drug, with its catalog price both
   * times, gives back the same ticked set, and the remaining budget too
   * when it was budget minus total before.
   */
  lemma {:induction false} ToggleTwice(s: Selection, id: int)
    requires Consistent(s) && id in Ids(Items(s)) && Total(s) <= s.budget
    ensures var p := PriceOf(Items(s), id);
            var once := Toggle(s, id, p).after;
            var twice := Toggle(once, id, p).after;
            SelectedIds(twice.selected) == SelectedIds(s.selected)
            && (s.remaining == s.budget - Total(s) ==> twice.remaining == s.remaining)
  {
    var p := PriceOf(Items(s), id);
    var first := Toggle(s, id, p);
    var once := first.after;
    if first.accepted {
      assert Items(once) == Items(s);
      assert Total(once) == ProposedTotal(s, id, p);
      var second := Toggle(once, id, p);
      assert ProposedTotal(once, id, p) == Total(s);
      assert second.accepted;
      if id in SelectedIds(s.selected) {
        assert SelectedIds(second.after.selected) == SelectedIds(s.selected) - {id} + {id};
      } else {
        assert SelectedIds(second.after.selected) == SelectedIds(s.selected) + {id} - {id};
      }
    }
  }

  // ---------------------------------------------------------------- rehydration

  /** The selection a saved id list asks for: every listed id that is in the catalog, ticked. */
  function Rehydrated(items: seq<DrugItem>, meds: seq<int>): map<int, bool> {
    map id | id in meds && id in Ids(items) :: true
  }

  /** The prices of the listed ids found in the catalog, summed in list order; a repeated id counts each time. */
  function MatchedSum(meds: seq<int>, items: seq<DrugItem>): real {
    if meds == [] then 0.0
    else
      MatchedSum(meds[..|meds| - 1], items)
      + (match Find(items, meds[|meds| - 1]) case Some(it) => it.price case None => 0.0)
  }

  /** One more listed id: ticked and paid when the catalog has it, ignored otherwise. */
  lemma RehydratedStep(items: seq<DrugItem>, meds: seq<int>, id: int)
    ensures Rehydrated(items, meds + [id]) ==
              if id in Ids(items) then Rehydrated(items, meds)[id := true] else Rehydrated(items, meds)
    ensures MatchedSum(meds + [id], items) ==
              MatchedSum(meds, items) + (if Find(items, id).Some? then Find(items, id).value.price else 0.0)
  {
    assert (meds + [id])[..|meds|] == meds;
  }

  /** `coerceAtLeast(0.0)` */
  function Max0(x: real): (r: real)
    ensures r >= 0.0 && r >= x && (r == x || r == 0.0)
  {
    if x < 0.0 then 0.0 else x
  }

  /**
   * `aplicarSeleccionPrevia`: with no catalog yet, only parks the ids;
   * otherwise replaces the selection by the listed ids found in the catalog
   * (unknown ids dropped), sets the remaining budget to budget minus their
   * prices, never below zero, and empties the parking slot.
   */
  function ApplyPrevious(s: Selection, meds: seq<int>): (r: Selection)
    ensures s.sections == [] ==> r == s.(pending := Some(meds))
    ensures s.sections != [] ==> SelectedIds(r.selected) == (set id | id in meds && id in Ids(Items(s)))
    ensures s.sections != [] ==> r.selected.Keys == SelectedIds(r.selected)
    ensures s.sections != [] ==> r.remaining == Max0(s.budget - MatchedSum(meds, Items(s))) && r.pending.None?
    ensures r.remaining >= 0.0 || r.remaining == s.remaining
    ensures r.budget == s.budget && r.sections == s.sections
    ensures Consistent(s) ==> Consistent(r)
  {
    if s.sections == [] then s.(pending := Some(meds))
    else
      var items := Items(s);
      s.(selected := Rehydrated(items, meds), remaining := Max0(s.budget - MatchedSum(meds, items)), pending := None)
  }

  /** Without repeated ids, the remaining budget after rehydration is budget minus the new total, floored at zero. */
  lemma {:induction false} RehydratedRemaining(s: Selection, meds: seq<int>)
    requires Consistent(s) && s.sections != []
    requires forall i, j :: 0 <= i < j < |meds| ==> meds[i] != meds[j]
    ensures ApplyPrevious(s, meds).remaining == Max0(s.budget - Total(ApplyPrevious(s, meds)))
  {
    var r := ApplyPrevious(s, meds);
    MatchedSumIsCatalogSum(meds, Items(s));
    assert SelectedIds(r.selected) == (set id | id in meds && id in Ids(Items(s)));
  }

  lemma {:induction false} MatchedSumIsCatalogSum(meds: seq<int>, items: seq<DrugItem>)
    requires UniqueIds(items)
    requires forall i, j :: 0 <= i < j < |meds| ==> meds[i] != meds[j]
    ensures MatchedSum(meds, items) == CatalogSum(items, set id | id in meds && id in Ids(items))
  {
    if meds == [] {
      ZeroSum(items);
      assert (set id | id in meds && id in Ids(items)) == {};
    } else {
      var init := meds[..|meds| - 1];
      var x := meds[|meds| - 1];
      MatchedSumIsCatalogSum(init, items);
      var before := set id | id in init && id in Ids(items);
      assert x !in init by {
        forall i | 0 <= i < |init| ensures init[i] != x {
          assert init[i] == meds[i];
        }
      }
      assert meds == init + [x];
      if x in Ids(items) {
        assert (set id | id in meds && id in Ids(items)) == before + {x};
        SumAdd(items, before, x);
      } else {
        assert (set id | id in meds && id in Ids(items)) == before;
      }
    }
  }

  /**
   * A repeated id is ticked once but paid twice: the remaining budget
   * after rehydration no longer equals budget minus the total.
   */
  lemma RepeatedIdCountsTwice(items: seq<DrugItem>, id: int)
    requires id in Ids(items)
    ensures MatchedSum([id, id], items) == 2.0 * PriceOf(items, id)
    ensures SelectedIds(Rehydrated(items, [id, id])) == {id}
  {
    assert [id, id][..1] == [id];
    assert [id][..0] == [];
    assert MatchedSum([id], items) == PriceOf(items, id);
  }

  /**
   * The catalog arriving (`sections = ...` and the effect watching it):
   * parked ids are applied as soon as the catalog is non-empty.
   */
  function CatalogArrived(s: Selection, secs: seq<DrugSection>): (r: Selection)
    ensures r.sections == secs && r.budget == s.budget
    ensures secs != [] ==> r.pending.None?
    ensures s.pending.None? || secs == [] ==> r == s.(sections := secs)
    ensures s.pending.Some? && secs != [] ==> r == ApplyPrevious(s.(sections := secs), s.pending.value)
  {
    var loaded := s.(sections := secs);
    if loaded.pending.Some? && secs != [] then ApplyPrevious(loaded, loaded.pending.value) else loaded
  }

  /**
   * Deferral is invisible: parking ids while the catalog is empty and then
   * receiving the catalog ends in the same state as receiving the catalog
   * first and then applying the ids.
   */
  lemma DeferredRehydration(s: Selection, meds: seq<int>, secs: seq<DrugSection>)
    requires s.sections == [] && secs != []
    ensures CatalogArrived(ApplyPrevious(s, meds), secs) == ApplyPrevious(s.(sections := secs), meds)
  {
  }

  /** What the screen drops when this month's order is already completed. */
  function ClearedForCompletedMonth(s: Selection): (r: Selection)
    ensures SelectedIds(r.selected) == {} && r.sections == [] && r.pending.None?
    ensures r.budget == s.budget && r.remaining == s.remaining
    ensures Consistent(r)
  {
    s.(selected := map[], sections := [], pending := None)
  }

  // ---------------------------------------------------------------- user information

  /**
   * What the user-information answer does to the budget: the plan's monthly
   * budget when it has one, the old budget otherwise, and the remaining
   * budget reset to it.
   */
  function UserInfoBudget(s: Selection, planBudget: Option<real>): (r: Selection)
    ensures planBudget.Some? ==> r.budget == planBudget.value
    ensures planBudget.None? ==> r.budget == s.budget
    ensures r.remaining == r.budget
    ensures r.selected == s.selected && r.sections == s.sections && r.pending == s.pending
  {
    var b := if planBudget.Some? then planBudget.value else s.budget;
    s.(budget := b, remaining := b)
  }

  /**
   * The reset does not take the ticked drugs into account: afterwards the
   * remaining budget is the budget minus the ticked total exactly when that
   * total is zero.
   */
  lemma UserInfoBudgetIgnoresTicked(s: Selection, planBudget: Option<real>)
    ensures var r := UserInfoBudget(s, planBudget);
            Total(r) == Total(s) && (r.remaining == r.budget - Total(r) <==> Total(s) == 0.0)
  {
  }

  // ---------------------------------------------------------------- the state object

  /** The selection state the screen keeps and updates in place. */
  class SelectionState {
    var selected: map<int, bool>
    var budget: real
    var remainingBudget: real
    var sections: seq<DrugSection>
    var pendingMeds: Option<seq<int>>

    /** The fields as one value. */
    function Value(): Selection
      reads this
    {
      Selection(selected, budget, remainingBudget, sections, pendingMeds)
    }

    ghost predicate Valid()
      reads this
    {
      Consistent(Value())
    }

    /** A fresh screen: nothing ticked, no budget, no catalog, nothing parked. */
    constructor ()
      ensures Valid()
      ensures Value() == Selection(map[], 0.0, 0.0, [], None)
    {
      selected := map[];
      budget := 0.0;
      remainingBudget := 0.0;
      sections := [];
      pendingMeds := None;
    }

    /** `calcularTotal()` */
    function CalcularTotal(): (t: real)
      reads this
      requires Valid()
      ensures t == KeySum(SelectedIds(selected), AllItems(sections))
    {
      TotalIsSumOverTicked(Value());
      Total(Value())
    }

    /** `onToggle(id, price)`; the result is false where the screen shows the budget-limit notice. */
    method OnToggle(id: int, price: real) returns (accepted: bool)
      requires Valid() && id in Ids(AllItems(sections))
      modifies this
      ensures Valid()
      ensures Toggled(accepted, Value()) == Toggle(old(Value()), id, price)
    {
      var willSelect := !(id in selected && selected[id]);
      var currentTotal := CalcularTotal();
      var newTotal := if willSelect then currentTotal + price else currentTotal - price;
      accepted := newTotal <= budget;
      if accepted {
        selected := selected[id := willSelect];
        remainingBudget := budget - newTotal;
      }
    }

    /** `aplicarSeleccionPrevia(meds)` */
    method ApplyPreviousSelection(meds: seq<int>)
      requires Valid()
      modifies this
      ensures Valid()
      ensures Value() == ApplyPrevious(old(Value()), meds)
    {
      if |sections| == 0 {
        pendingMeds := Some(meds);
        return;
      }
      selected := map[];
      var allItems := AllItems(sections);
      var total := 0.0;
      var i := 0;
      while i < |meds|
        invariant 0 <= i <= |meds|
        invariant sections == old(sections) && budget == old(budget)
        invariant selected == Rehydrated(allItems, meds[..i])
        invariant total == MatchedSum(meds[..i], allItems)
      {
        var id := meds[i];
        var item := Find(allItems, id);
        assert meds[..i + 1] == meds[..i] + [id];
        RehydratedStep(allItems, meds[..i], id);
        if item.Some? {
          selected := selected[id := true];
          total := total + item.value.price;
        }
        i := i + 1;
      }
      assert meds[..i] == meds;
      remainingBudget := Max0(budget - total);
      pendingMeds := None;
    }

    /** `sections = secs`, followed by the effect that applies parked ids once the catalog is there. */
    method SetSections(secs: seq<DrugSection>)
      requires Valid()
      requires UniqueIds(AllItems(secs)) && SelectedIds(selected) <= Ids(AllItems(secs))
      modifies this
      ensures Valid()
      ensures Value() == CatalogArrived(old(Value()), secs)
    {
      sections := secs;
      if pendingMeds.Some? && |sections| != 0 {
        ApplyPreviousSelection(pendingMeds.value);
      }
    }

    /** `budget = b; remainingBudget = b`, as done when a plan's monthly budget is read. */
    method SetBudget(b: real)
      requires Valid()
      modifies this
      ensures Valid()
      ensures Value() == old(Value()).(budget := b, remaining := b)
    {
      budget := b;
      remainingBudget := b;
    }

    /** The budget write of the user-information answer. */
    method ApplyUserBudget(planBudget: Option<real>)
      requires Valid()
      modifies this
      ensures Valid()
      ensures Value() == UserInfoBudget(old(Value()), planBudget)
    {
      SetBudget(if planBudget.Some? then planBudget.value else budget);
    }

    /** `selected.clear(); sections = emptyList(); pendingMeds = null` */
    method ClearForCompletedMonth()
      modifies this
      ensures Valid()
      ensures Value() == ClearedForCompletedMonth(old(Value()))
    {
      selected := map[];
      sections := [];
      pendingMeds := None;
    }
  }

  /**
   * A budget of 100 with drugs A (id 1, 40), B (id 2, 30) and C (id 3, 40):
   * ticking A leaves 60, ticking B leaves 30, and ticking C is refused
   * because 70 + 40 exceeds 100, so C stays unticked and 30 remains.
   */
  method ThreeToggleScenario() returns (acceptedA: bool, leftA: real, acceptedB: bool, leftB: real,
                                        acceptedC: bool, leftC: real, ticked: set<int>)
    ensures acceptedA && leftA == 60.0
    ensures acceptedB && leftB == 30.0
    ensures !acceptedC && leftC == 30.0 && ticked == {1, 2}
  {
    var a := DrugItem(1, JNull, JNull, JNull, JNull, JNull, 40.0);
    var b := DrugItem(2, JNull, JNull, JNull, JNull, JNull, 30.0);
    var c := DrugItem(3, JNull, JNull, JNull, JNull, JNull, 40.0);
    var items := [a, b, c];
    var secs := [DrugSection(JStr("General"), items)];
    assert AllItems(secs) == items;
    assert items[1..] == [b, c] && [b, c][1..] == [c] && [c][1..] == [];
    assert Ids(items) == {1, 2, 3} by {
      assert items[0].id == 1 && items[1].id == 2 && items[2].id == 3;
    }
    var st := new SelectionState();
    st.SetBudget(100.0);
    assert SelectedIds(st.selected) == {};
    st.SetSections(secs);
    assert st.Value() == Selection(map[], 100.0, 100.0, secs, None);
    assert Items(st.Value()) == items;
    assert Total(st.Value()) == CatalogSum(items, {});
    var v0 := st.Value();
    ZeroSum(items);
    assert SelectedIds(v0.selected) == {} && Items(v0) == items && Total(v0) == 0.0;
    assert ProposedTotal(v0, 1, 40.0) == 40.0;
    acceptedA := st.OnToggle(1, 40.0);
    leftA := st.remainingBudget;
    var r1 := Toggle(v0, 1, 40.0);
    assert r1.accepted && SelectedIds(r1.after.selected) == {1};
    var v1 := st.Value();
    assert v1 == r1.after && Items(v1) == items;
    assert Total(v1) == CatalogSum(items, {1}) == 40.0;
    assert ProposedTotal(v1, 2, 30.0) == 70.0;
    acceptedB := st.OnToggle(2, 30.0);
    leftB := st.remainingBudget;
    var r2 := Toggle(v1, 2, 30.0);
    assert r2.accepted && SelectedIds(r2.after.selected) == {1, 2};
    var v2 := st.Value();
    assert v2 == r2.after && Items(v2) == items;
    assert Total(v2) == CatalogSum(items, {1, 2}) == 70.0;
    assert ProposedTotal(v2, 3, 40.0) == 110.0;
    acceptedC := st.OnToggle(3, 40.0);
    leftC := st.remainingBudget;
    ticked := SelectedIds(st.selected);
  }
}
