/**
 * The order ("pedido") lifecycle of the screen: working out, on entry,
 * whether this month's order is already completed, in progress or not yet
 * created, and the create, update and finalize actions. Each remote call's
 * outcome is an input; the current year and month are parameters.
 */
module Lifecycle {
  import opened Wrappers
  import opened Json
  import opened Pedido
  import opened Catalog
  import opened Selection

  /** What the action bar shows. */
  datatype ActionBar =
    | MonthCompletedNotice   // this month's order is already completed: no buttons
    | Spinner                // loading
    | CompletedText          // the order has been completed
    | UpdateAndFinalize      // an order is in progress
    | SaveButton             // no order yet

  /**
   * The choice of the action bar: the month notice first, then the
   * spinner, then the completed text, then Update and Finalizar when an
   * order id is known or an order is in progress, and Save otherwise.
   */
  function BarFor(mesCompletado: bool, isLoading: bool, finalizado: bool,
                  pedidoId: Option<int>, enProgreso: bool): (b: ActionBar)
    ensures b == SaveButton <==>
              !mesCompletado && !isLoading && !finalizado && pedidoId.None? && !enProgreso
    ensures b == UpdateAndFinalize <==>
              !mesCompletado && !isLoading && !finalizado && (pedidoId.Some? || enProgreso)
    ensures b == CompletedText <==> !mesCompletado && !isLoading && finalizado
    ensures b == Spinner <==> !mesCompletado && isLoading
    ensures b == MonthCompletedNotice <==> mesCompletado
  {
    if mesCompletado then MonthCompletedNotice
    else if isLoading then Spinner
    else if finalizado then CompletedText
    else if pedidoId.Some? || enProgreso then UpdateAndFinalize
    else SaveButton
  }

  /** The transient messages the actions show. */
  datatype Notice =
    | SignInAgain             // no user id in the session
    | NetworkError            // the request itself threw
    | BackendError(message: string)
    | Created
    | Updated
    | Finalized

  /** `PedidoRequest`: the body of the create call. */
  datatype PedidoRequest = PedidoRequest(user: int, medicinas: set<int>, costototal: real)

  /** `UpdatePedidoPayload` sent to one order; absent fields are not sent. */
  datatype PatchRequest = PatchRequest(
    pedidoId: int,
    medicinas: Option<set<int>>,
    costototal: Option<real>,
    status: Option<string>)

  /** The notice for a create, update or finalize call that did not succeed. */
  function FailureNotice(r: Response<Obj>): (n: Notice)
    requires !r.IsSuccessful()
    ensures r.Failed? ==> n == NetworkError
    ensures r.Answered? ==> n == BackendError(ErrorMessage(r.code, r.errorText))
  {
    if r.Failed? then NetworkError else BackendError(ErrorMessage(r.code, r.errorText))
  }

  /** The selection after an order body's medicines are applied: untouched when it lists none. */
  function AfterLookup(s: Selection, info: PedidoInfo): (r: Selection)
    ensures info.meds == [] ==> r == s
    ensures r.budget == s.budget && r.sections == s.sections
    ensures Consistent(s) ==> Consistent(r)
    ensures info.meds != [] && s.sections == [] ==> r.pending == Some(info.meds) && r.selected == s.selected
    ensures info.meds != [] && s.sections != [] ==>
              SelectedIds(r.selected) == (set id | id in info.meds && id in Ids(Items(s))) && r.pending.None?
  {
    if info.meds != [] then ApplyPrevious(s, info.meds) else s
  }

  /** The screen's order state, kept and updated in place. */
  class OrderScreen {
    const selection: SelectionState
    var pedidoId: Option<int>
    var pedidoEnProgreso: bool
    var pedidoFinalizado: bool
    var mesCompletado: bool
    var isLoading: bool

    ghost predicate Valid()
      reads this, selection
    {
      selection.Valid()
    }

    /** The action bar for the current state. */
    function Bar(): ActionBar
      reads this
    {
      BarFor(mesCompletado, isLoading, pedidoFinalizado, pedidoId, pedidoEnProgreso)
    }

    /** A fresh screen: loading, no order known. */
    constructor ()
      ensures Valid() && fresh(selection)
      ensures selection.Value() == Selection(map[], 0.0, 0.0, [], None)
      ensures pedidoId.None? && !pedidoEnProgreso && !pedidoFinalizado && !mesCompletado && isLoading
      ensures Bar() == Spinner
    {
      selection := new SelectionState();
      pedidoId := None;
      pedidoEnProgreso := false;
      pedidoFinalizado := false;
      mesCompletado := false;
      isLoading := true;
    }

    /** Takes over what an order body says: its id, its status flags and its medicines. */
    method ApplyInfo(info: PedidoInfo)
      requires Valid()
      modifies this, selection
      ensures Valid()
      ensures pedidoId == info.id
      ensures pedidoEnProgreso == (info.status == Some("P"))
      ensures pedidoFinalizado == (info.status == Some("C"))
      ensures selection.Value() == AfterLookup(old(selection.Value()), info)
      ensures mesCompletado == old(mesCompletado) && isLoading == old(isLoading)
    {
      pedidoId := info.id;
      pedidoEnProgreso := info.status == Some("P");
      pedidoFinalizado := info.status == Some("C");
      if |info.meds| != 0 {
        selection.ApplyPreviousSelection(info.meds);
      }
    }

    /** Forgets any order: no id, neither in progress nor completed. */
    method ForgetOrder()
      modifies this
      ensures pedidoId.None? && !pedidoEnProgreso && !pedidoFinalizado
      ensures mesCompletado == old(mesCompletado) && isLoading == old(isLoading)
    {
      pedidoId := None;
      pedidoEnProgreso := false;
      pedidoFinalizado := false;
    }

    /**
     * The check run on entry. Without a user id it only stops loading. A
     * history answer holding an order completed this month wins outright:
     * the month is closed, the selection and the catalog are dropped and the
     * in-progress lookup is never consulted. A history call that threw, or
     * a null history entry met before any completed order, ends in the
     * `catch` and forgets any order. Otherwise the in-progress lookup
     * decides: its order is taken over, or, when it yields nothing, any
     * order is forgotten.
     */
    method Init(userId: Option<int>, history: Response<seq<Option<Obj>>>, inProgress: Response<Obj>,
                year: int, month: int)
      requires Valid()
      modifies this, selection
      ensures Valid() && !isLoading
      ensures userId.None? ==>
                pedidoId == old(pedidoId) && pedidoEnProgreso == old(pedidoEnProgreso)
                && pedidoFinalizado == old(pedidoFinalizado) && mesCompletado == old(mesCompletado)
                && selection.Value() == old(selection.Value())
      ensures userId.Some? && (history.Failed? || (history.IsSuccessful() && history.body.Some?
                                && ScanHistory(history.body.value, year, month) == NullEntryThrows)) ==>
                pedidoId.None? && !pedidoEnProgreso && !pedidoFinalizado
                && mesCompletado == old(mesCompletado) && selection.Value() == old(selection.Value())
      ensures userId.Some? && history.IsSuccessful() && history.body.Some?
              && ScanHistory(history.body.value, year, month) == FoundCompleted ==>
                mesCompletado && pedidoFinalizado && !pedidoEnProgreso && pedidoId.None?
                && selection.Value() == ClearedForCompletedMonth(old(selection.Value()))
                && Bar() == MonthCompletedNotice
      ensures userId.Some? && history.Answered?
              && !(history.IsSuccessful() && history.body.Some?
                   && ScanHistory(history.body.value, year, month) != NoneCompleted) ==>
                mesCompletado == old(mesCompletado)
                && match LookupInProgress(inProgress)
                   case None =>
                     pedidoId.None? && !pedidoEnProgreso && !pedidoFinalizado
                     && selection.Value() == old(selection.Value())
                     && (!mesCompletado ==> Bar() == SaveButton)
                   case Some(info) =>
                     pedidoId == info.id && pedidoEnProgreso == (info.status == Some("P"))
                     && pedidoFinalizado == (info.status == Some("C"))
                     && selection.Value() == AfterLookup(old(selection.Value()), info)
    {
      if userId.None? {
        isLoading := false;
        return;
      }
      isLoading := true;
      if history.Failed? {
        // the history call threw: the catch block
        ForgetOrder();
        isLoading := false;
        return;
      }
      if history.IsSuccessful() && history.body.Some? {
        var scan := ScanHistory(history.body.value, year, month);
        if scan == NullEntryThrows {
          // `getStatus` on a null entry threw: the catch block
          ForgetOrder();
          isLoading := false;
          return;
        }
        if scan == FoundCompleted {
          mesCompletado := true;
          selection.ClearForCompletedMonth();
          pedidoFinalizado := true;
          pedidoEnProgreso := false;
          pedidoId := None;
          isLoading := false;
          return;
        }
      }
      var found := LookupInProgress(inProgress);
      if found.Some? {
        ApplyInfo(found.value);
      } else {
        ForgetOrder();
      }
      isLoading := false;
    }

    /**
     * `handleSave`: sends the ticked ids and their total for the user. On
     * success, a returned numeric `id` gets a follow-up request forcing status
     * "P" (its outcome is ignored); then the in-progress lookup is redone and
     * its order taken over, or, when it yields nothing, the order is only
     * marked in progress and the known id is kept.
     */
    method Save(userId: Option<int>, create: Response<Obj>, refetch: Response<Obj>)
      returns (request: Option<PedidoRequest>, statusFixFor: Option<int>, notice: Notice)
      requires Valid()
      modifies this, selection
      ensures Valid() && !isLoading && mesCompletado == old(mesCompletado)
      ensures userId.None? <==> request.None?
      ensures userId.None? ==>
                notice == SignInAgain && statusFixFor.None?
                && pedidoId == old(pedidoId) && pedidoEnProgreso == old(pedidoEnProgreso)
                && pedidoFinalizado == old(pedidoFinalizado) && selection.Value() == old(selection.Value())
      ensures request.Some? ==>
                request.value == PedidoRequest(userId.value, SelectedIds(old(selection.selected)), Total(old(selection.Value())))
      ensures statusFixFor.Some? <==>
                userId.Some? && create.IsSuccessful() && create.body.Some? && Get(create.body.value, "id").JNum?
      ensures statusFixFor.Some? ==> statusFixFor.value == ToInt32(Get(create.body.value, "id").x)
      ensures userId.Some? && !create.IsSuccessful() ==>
                notice == FailureNotice(create)
                && pedidoId == old(pedidoId) && pedidoEnProgreso == old(pedidoEnProgreso)
                && pedidoFinalizado == old(pedidoFinalizado) && selection.Value() == old(selection.Value())
      ensures userId.Some? && create.IsSuccessful() ==>
                notice == Created
                && match LookupInProgress(refetch)
                   case None =>
                     pedidoEnProgreso && pedidoId == old(pedidoId) && pedidoFinalizado == old(pedidoFinalizado)
                     && selection.Value() == old(selection.Value())
                     && (!mesCompletado && !pedidoFinalizado ==> Bar() == UpdateAndFinalize)
                   case Some(info) =>
                     pedidoId == info.id && pedidoEnProgreso == (info.status == Some("P"))
                     && pedidoFinalizado == (info.status == Some("C"))
                     && selection.Value() == AfterLookup(old(selection.Value()), info)
    {
      isLoading := true;
      statusFixFor := None;
      if userId.None? {
        request := None;
        notice := SignInAgain;
        isLoading := false;
        return;
      }
      var meds := SelectedIds(selection.selected);
      var total := selection.CalcularTotal();
      request := Some(PedidoRequest(userId.value, meds, total));
      if create.IsSuccessful() {
        if create.body.Some? && Get(create.body.value, "id").JNum? {
          statusFixFor := Some(ToInt32(Get(create.body.value, "id").x));
        }
        var again := LookupInProgress(refetch);
        if again.Some? {
          ApplyInfo(again.value);
        } else {
          pedidoEnProgreso := true;
        }
        notice := Created;
      } else {
        notice := FailureNotice(create);
      }
      isLoading := false;
    }

    /**
     * `handleUpdate`: without a known order id nothing happens. Otherwise it
     * sends the ticked ids, their total and status "P" to that order, and on
     * success redoes the in-progress lookup and takes over its order, if any.
     */
    method Update(userId: Option<int>, patch: Response<Obj>, refetch: Response<Obj>)
      returns (request: Option<PatchRequest>, notice: Option<Notice>)
      requires Valid()
      modifies this, selection
      ensures Valid() && isLoading == old(isLoading) && mesCompletado == old(mesCompletado)
      ensures old(pedidoId).None? || userId.None? ==>
                request.None?
                && pedidoId == old(pedidoId) && pedidoEnProgreso == old(pedidoEnProgreso)
                && pedidoFinalizado == old(pedidoFinalizado) && selection.Value() == old(selection.Value())
      ensures old(pedidoId).None? ==> notice.None?
      ensures old(pedidoId).Some? && userId.None? ==> notice == Some(SignInAgain)
      ensures old(pedidoId).Some? && userId.Some? ==>
                request == Some(PatchRequest(old(pedidoId).value, Some(SelectedIds(old(selection.selected))),
                                             Some(Total(old(selection.Value()))), Some("P")))
      ensures old(pedidoId).Some? && userId.Some? && !patch.IsSuccessful() ==>
                notice == Some(FailureNotice(patch))
                && pedidoId == old(pedidoId) && pedidoEnProgreso == old(pedidoEnProgreso)
                && pedidoFinalizado == old(pedidoFinalizado) && selection.Value() == old(selection.Value())
      ensures old(pedidoId).Some? && userId.Some? && patch.IsSuccessful() ==>
                notice == Some(Updated)
                && match LookupInProgress(refetch)
                   case None =>
                     pedidoId == old(pedidoId) && pedidoEnProgreso == old(pedidoEnProgreso)
                     && pedidoFinalizado == old(pedidoFinalizado) && selection.Value() == old(selection.Value())
                   case Some(info) =>
                     pedidoId == info.id && pedidoEnProgreso == (info.status == Some("P"))
                     && pedidoFinalizado == (info.status == Some("C"))
                     && selection.Value() == AfterLookup(old(selection.Value()), info)
    {
      request := None;
      notice := None;
      if pedidoId.None? {
        return;
      }
      if userId.None? {
        notice := Some(SignInAgain);
        return;
      }
      var meds := SelectedIds(selection.selected);
      var total := selection.CalcularTotal();
      request := Some(PatchRequest(pedidoId.value, Some(meds), Some(total), Some("P")));
      if patch.IsSuccessful() {
        var triple := LookupInProgress(refetch);
        if triple.Some? {
          ApplyInfo(triple.value);
        }
        notice := Some(Updated);
      } else {
        notice := Some(FailureNotice(patch));
      }
    }

    /**
     * `handleFinalizar`: without a known order id nothing happens. Otherwise
     * it sends status "C"; on success the order is marked completed and no
     * longer in progress, without asking the server again.
     */
    method Finalize(patch: Response<Obj>) returns (request: Option<PatchRequest>, notice: Option<Notice>)
      requires Valid()
      modifies this
      ensures Valid() && isLoading == old(isLoading) && mesCompletado == old(mesCompletado)
      ensures pedidoId == old(pedidoId) && selection.Value() == old(selection.Value())
      ensures old(pedidoId).None? ==>
                request.None? && notice.None?
                && pedidoEnProgreso == old(pedidoEnProgreso) && pedidoFinalizado == old(pedidoFinalizado)
      ensures old(pedidoId).Some? ==> request == Some(PatchRequest(old(pedidoId).value, None, None, Some("C")))
      ensures old(pedidoId).Some? && patch.IsSuccessful() ==>
                notice == Some(Finalized) && pedidoFinalizado && !pedidoEnProgreso
                && (!mesCompletado && !isLoading ==> Bar() == CompletedText)
      ensures old(pedidoId).Some? && !patch.IsSuccessful() ==>
                notice == Some(FailureNotice(patch))
                && pedidoEnProgreso == old(pedidoEnProgreso) && pedidoFinalizado == old(pedidoFinalizado)
    {
      request := None;
      notice := None;
      if pedidoId.None? {
        return;
      }
      request := Some(PatchRequest(pedidoId.value, None, None, Some("C")));
      if patch.IsSuccessful() {
        pedidoFinalizado := true;
        pedidoEnProgreso := false;
        notice := Some(Finalized);
      } else {
        notice := Some(FailureNotice(patch));
      }
    }
  }

  /**
   * A user whose history holds no order and whose in-progress lookup answers
   * 404 ends the entry check with no order and the Save button.
   */
  method NoOrderScenario(year: int, month: int) returns (bar: ActionBar, id: Option<int>)
    ensures bar == SaveButton && id.None?
  {
    var screen := new OrderScreen();
    screen.Init(Some(5), Answered(200, Some([]), None), Answered(404, None, None), year, month);
    bar := screen.Bar();
    id := screen.pedidoId;
  }

  /**
   * A history holding a completed order of this month closes the month. The
   * same history with a null entry in front of that order ends in the
   * `catch` instead: the month stays open, the in-progress order the lookup
   * would have found is never read, and the bar offers Save.
   */
  method NullHistoryEntryScenario(year: int, month: int, done: Obj)
    returns (barClean: ActionBar, barWithNull: ActionBar, idWithNull: Option<int>, closedWithNull: bool)
    requires CompletedEntry(done, year, month)
    ensures barClean == MonthCompletedNotice
    ensures barWithNull == SaveButton && idWithNull.None? && !closedWithNull
  {
    var open: Obj := map["id" := JNum(9.0), "status" := JStr("P")];
    var clean := new OrderScreen();
    clean.Init(Some(5), Answered(200, Some([Some(done)]), None), Answered(200, Some(open), None), year, month);
    barClean := clean.Bar();
    var screen := new OrderScreen();
    assert ScanHistory([None, Some(done)], year, month) == NullEntryThrows;
    screen.Init(Some(5), Answered(200, Some([None, Some(done)]), None), Answered(200, Some(open), None), year, month);
    barWithNull := screen.Bar();
    idWithNull := screen.pedidoId;
    closedWithNull := screen.mesCompletado;
  }

  /**
   * From there, a create that answers id 7 while the re-lookup fails: the
   * status fix-up targets order 7, the creation is reported, and the screen
   * shows Update and Finalizar while still not knowing the order id.
   */
  method CreateWithoutRefetchScenario(year: int, month: int)
    returns (fixFor: Option<int>, notice: Notice, bar: ActionBar, id: Option<int>, inProgress: bool)
    ensures fixFor == Some(7) && notice == Created
    ensures bar == UpdateAndFinalize && id.None? && inProgress
  {
    var screen := new OrderScreen();
    screen.Init(Some(5), Answered(200, Some([]), None), Answered(404, None, None), year, month);
    var created: Obj := map["id" := JNum(7.0)];
    ToInt32OfInt(7);
    var request;
    request, fixFor, notice := screen.Save(Some(5), Answered(201, Some(created), None), Failed);
    bar := screen.Bar();
    id := screen.pedidoId;
    inProgress := screen.pedidoEnProgreso;
  }
}

