/**
 * Reading order ("pedido") responses: the key aliases of an order body,
 * the "created this month" test, the in-progress lookup filter and the
 * text shown for a rejected request.
 */
module Pedido {
  import opened Wrappers
  import opened Text
  import opened Json

  // ---------------------------------------------------------------- responses

  /**
   * The outcome of one remote call: it threw (`Failed`), or an HTTP answer
   * with its status code, its decoded body (null for an empty or failed
   * body) and the text of its error body, when it could be read.
   */
  datatype Response<T> =
    | Failed
    | Answered(code: int, body: Option<T>, errorText: Option<string>)
  {
    /** `Response.isSuccessful`: a status code in 200..299. */
    predicate IsSuccessful() {
      Answered? && 200 <= code < 300
    }
  }

  /** What an order body says: its id, its status and the ids of its medicines. */
  datatype PedidoInfo = PedidoInfo(id: Option<int>, status: Option<string>, meds: seq<int>)

  // ---------------------------------------------------------------- key aliases

  /** `status` when it is a string, otherwise `estado` when that is. */
  function GetStatus(o: Obj): (r: Option<string>)
    ensures Get(o, "status").JStr? ==> r == Some(Get(o, "status").s)
    ensures !Get(o, "status").JStr? ==> r == AsString(Get(o, "estado"))
  {
    AsString(Get(o, "status")).OrElse(AsString(Get(o, "estado")))
  }

  /** `id` when it is a number, otherwise `pk` when that is; either one read with `toInt()`. */
  function IdOf(o: Obj): (r: Option<int>)
    ensures Get(o, "id").JNum? ==> r == Some(ToInt32(Get(o, "id").x))
    ensures !Get(o, "id").JNum? ==> r == AsInt(Get(o, "pk"))
  {
    AsInt(Get(o, "id")).OrElse(AsInt(Get(o, "pk")))
  }

  /** `mapNotNull`: the present results of `f`, in order. */
  function FilterMap<A, B(!new)>(xs: seq<A>, f: A -> Option<B>): (r: seq<B>)
    ensures |r| <= |xs|
    ensures forall y :: y in r <==> exists i :: 0 <= i < |xs| && f(xs[i]) == Some(y)
  {
    if xs == [] then []
    else
      var rest := FilterMap(xs[1..], f);
      assert forall i :: 1 <= i < |xs| ==> xs[i] == xs[1..][i - 1];
      match f(xs[0])
      case Some(y) => [y] + rest
      case None => rest
  }

  lemma {:induction false} FilterMapAllPresent<A, B(!new)>(xs: seq<A>, f: A -> Option<B>, ys: seq<B>)
    requires |xs| == |ys|
    requires forall i :: 0 <= i < |xs| ==> f(xs[i]) == Some(ys[i])
    ensures FilterMap(xs, f) == ys
  {
    if xs != [] {
      FilterMapAllPresent(xs[1..], f, ys[1..]);
    }
  }

  /** `mapNotNull` of a concatenation is the concatenation of the two results: order and repeats are kept. */
  lemma {:induction false} FilterMapAppend<A, B(!new)>(xs: seq<A>, ys: seq<A>, f: A -> Option<B>)
    ensures FilterMap(xs + ys, f) == FilterMap(xs, f) + FilterMap(ys, f)
  {
    if xs == [] {
      assert xs + ys == ys;
    } else {
      assert (xs + ys)[0] == xs[0] && (xs + ys)[1..] == xs[1..] + ys;
      FilterMapAppend(xs[1..], ys, f);
    }
  }

  /** `mapNotNull` of one element: its value, or nothing. */
  lemma FilterMapOne<A, B(!new)>(x: A, f: A -> Option<B>)
    ensures FilterMap([x], f) == if f(x).Some? then [f(x).value] else []
  {
  }

  /** One element of a medicine list: a number, a numeric string, or a map carrying `id`/`pk`. */
  function ElementId(e: Json): (r: Option<int>)
    ensures e.JNum? ==> r == Some(ToInt32(e.x))
    ensures e.JStr? ==> r == ParseInt(e.s)
    ensures e.JObj? ==> r == IdOf(e.fields)
    ensures !e.JNum? && !e.JStr? && !e.JObj? ==> r.None?
  {
    match e
    case JNum(x) => Some(ToInt32(x))
    case JStr(s) => ParseInt(s)
    case JObj(m) => IdOf(m)
    case _ => None
  }

  /** One piece of a comma-separated medicine list, read after trimming. */
  function PieceId(piece: string): Option<int> {
    ParseInt(Trim(piece))
  }

  /** The medicine ids a body value carries: a list, a comma-separated string, or nothing usable. */
  function MedIds(v: Json): (r: seq<int>)
    ensures !v.JList? && !v.JStr? ==> r == []
    ensures v.JList? ==> forall n :: n in r <==> exists i :: 0 <= i < |v.elements| && ElementId(v.elements[i]) == Some(n)
    ensures v.JStr? ==> forall n :: n in r <==> exists p :: p in Split(v.s, ',') && ParseInt(Trim(p)) == Some(n)
  {
    match v
    case JList(es) => FilterMap(es, ElementId)
    case JStr(s) => FilterMap(Split(s, ','), PieceId)
    case _ => []
  }

  /** The ids of a list split in two are the ids of each part, in order, repeats included. */
  lemma MedIdsListAppend(xs: seq<Json>, ys: seq<Json>)
    ensures MedIds(JList(xs + ys)) == MedIds(JList(xs)) + MedIds(JList(ys))
  {
    FilterMapAppend(xs, ys, ElementId);
  }

  /** A one-element list gives that element's id, or nothing when the element has none. */
  lemma MedIdsListOne(e: Json)
    ensures MedIds(JList([e])) == if ElementId(e).Some? then [ElementId(e).value] else []
  {
    FilterMapOne(e, ElementId);
  }

  /** Comma-joined pieces are read one by one, in order: each piece gives its trimmed number, or nothing. */
  lemma MedIdsOfJoined(pieces: seq<string>)
    requires |pieces| >= 1 && NoSep(pieces, ',')
    ensures MedIds(JStr(Join(pieces, ','))) == FilterMap(pieces, PieceId)
  {
    JoinSplit(pieces, ',');
  }

  /** `body["medicinas"] ?: body["meds"] ?: body["items"]` */
  function MedsRaw(body: Obj): (v: Json)
    ensures v == FirstPresent(body, ["medicinas", "meds", "items"])
  {
    var keys := ["medicinas", "meds", "items"];
    if Get(body, "medicinas") != JNull then
      FirstPresentIs(body, keys, 0);
      Get(body, "medicinas")
    else if Get(body, "meds") != JNull then
      FirstPresentIs(body, keys, 1);
      Get(body, "meds")
    else if Get(body, "items") != JNull then
      FirstPresentIs(body, keys, 2);
      Get(body, "items")
    else
      assert forall i :: 0 <= i < |keys| ==> Get(body, keys[i]) == JNull;
      JNull
  }

  /** `parsePedidoBody`: id, status and medicine ids of an order body. */
  function ParsePedidoBody(body: Obj): (r: PedidoInfo)
    ensures r.id == IdOf(body) && r.status == GetStatus(body)
    ensures Get(body, "medicinas") != JNull ==> r.meds == MedIds(Get(body, "medicinas"))
    ensures Get(body, "medicinas") == JNull && Get(body, "meds") != JNull ==> r.meds == MedIds(Get(body, "meds"))
    ensures Get(body, "medicinas") == JNull && Get(body, "meds") == JNull ==> r.meds == MedIds(Get(body, "items"))
  {
    PedidoInfo(IdOf(body), GetStatus(body), MedIds(MedsRaw(body)))
  }

  /** Ids listed as JSON numbers come back exactly. */
  lemma NumberListIds(ids: seq<int>)
    requires forall i :: 0 <= i < |ids| ==> InInt32(ids[i])
    ensures MedIds(JList(seq(|ids|, i requires 0 <= i < |ids| => JNum(ids[i] as real)))) == ids
  {
    var es := seq(|ids|, i requires 0 <= i < |ids| => JNum(ids[i] as real));
    forall i | 0 <= i < |es| ensures ElementId(es[i]) == Some(ids[i]) {
      ToInt32OfInt(ids[i]);
    }
    FilterMapAllPresent(es, ElementId, ids);
  }

  /** Ids listed as numeric strings come back exactly. */
  lemma StringListIds(ids: seq<int>)
    requires forall i :: 0 <= i < |ids| ==> InInt32(ids[i])
    ensures MedIds(JList(seq(|ids|, i requires 0 <= i < |ids| => JStr(DecimalText(ids[i]))))) == ids
  {
    var es := seq(|ids|, i requires 0 <= i < |ids| => JStr(DecimalText(ids[i])));
    forall i | 0 <= i < |es| ensures ElementId(es[i]) == Some(ids[i]) {
      ParseDecimalText(ids[i]);
    }
    FilterMapAllPresent(es, ElementId, ids);
  }

  /** Ids listed as maps carrying a numeric `id` come back exactly. */
  lemma NestedListIds(ids: seq<int>)
    requires forall i :: 0 <= i < |ids| ==> InInt32(ids[i])
    ensures MedIds(JList(seq(|ids|, i requires 0 <= i < |ids| => JObj(map["id" := JNum(ids[i] as real)])))) == ids
  {
    var es := seq(|ids|, i requires 0 <= i < |ids| => JObj(map["id" := JNum(ids[i] as real)]));
    forall i | 0 <= i < |es| ensures ElementId(es[i]) == Some(ids[i]) {
      ToInt32OfInt(ids[i]);
      assert Get(es[i].fields, "id") == JNum(ids[i] as real);
    }
    FilterMapAllPresent(es, ElementId, ids);
  }

  /** The ids written as one comma-separated string. */
  function CsvText(ids: seq<int>): string {
    if ids == [] then "" else Join(seq(|ids|, i requires 0 <= i < |ids| => DecimalText(ids[i])), ',')
  }

  lemma NoCommaInDecimal(n: int)
    ensures ',' !in DecimalText(n)
  {
    DigitsValueOfDigits(if n < 0 then -n else n);
  }

  /** Ids written as a comma-separated string come back exactly, in order. */
  lemma CsvIds(ids: seq<int>)
    requires forall i :: 0 <= i < |ids| ==> InInt32(ids[i])
    ensures MedIds(JStr(CsvText(ids))) == ids
  {
    if ids == [] {
      assert Split("", ',') == [""];
      assert PieceId("") == None;
    } else {
      var pieces := seq(|ids|, i requires 0 <= i < |ids| => DecimalText(ids[i]));
      forall i | 0 <= i < |pieces| ensures ',' !in pieces[i] && PieceId(pieces[i]) == Some(ids[i]) {
        NoCommaInDecimal(ids[i]);
        DecimalTextUnpadded(ids[i]);
        ParseDecimalText(ids[i]);
      }
      JoinSplit(pieces, ',');
      FilterMapAllPresent(pieces, PieceId, ids);
    }
  }

  // ---------------------------------------------------------------- dates

  const DateKeys: seq<string> := ["create_date", "fecha_pedido", "created_at"]

  /** `take(10)` */
  function Take10(t: string): (r: string)
    ensures |r| == if |t| < 10 then |t| else 10
    ensures r == t[..|r|]
  {
    if |t| <= 10 then t else t[..10]
  }

  /** The loose `YYYY-MM-DD` test on the first ten characters, and a year and month equal to the given ones. */
  predicate YearMonthIs(d: string, year: int, month: int) {
    |d| == 10 && d[4] == '-' && d[7] == '-'
    && ParseInt(d[..4]) == Some(year) && ParseInt(d[5..7]) == Some(month)
  }

  /** `DateKeys[i]` is the first date key whose value is not null. */
  predicate FirstDateAt(p: Obj, i: int)
    requires 0 <= i < |DateKeys|
  {
    Get(p, DateKeys[i]) != JNull && forall j :: 0 <= j < i ==> Get(p, DateKeys[j]) == JNull
  }

  /**
   * `isPedidoDelMesActual`: the first present date key holds text whose
   * first ten characters have the date shape and name the given year and
   * month. The current year and month are parameters here.
   */
  predicate IsPedidoDelMesActual(p: Obj, year: int, month: int)
    ensures IsPedidoDelMesActual(p, year, month) <==>
              exists i :: 0 <= i < |DateKeys| && FirstDateAt(p, i) && Get(p, DateKeys[i]).JStr?
                          && |Get(p, DateKeys[i]).s| >= 10 && YearMonthIs(Get(p, DateKeys[i]).s[..10], year, month)
  {
    var v := FirstPresent(p, DateKeys);
    forall i | 0 <= i < |DateKeys| && FirstDateAt(p, i) ensures v == Get(p, DateKeys[i]) {
      FirstPresentIs(p, DateKeys, i);
    }
    match FirstPresent(p, DateKeys)
    case JStr(t) => YearMonthIs(Take10(t), year, month)
    case _ => false
  }

  /** 10^w */
  function Pow10(w: nat): (r: nat)
    ensures r >= 1
  {
    if w == 0 then 1 else 10 * Pow10(w - 1)
  }

  /** The last `w` decimal digits of `n`, with leading zeros. */
  function ZeroPadded(n: nat, w: nat): (r: string)
    ensures |r| == w && AllDigits(r)
  {
    if w == 0 then "" else ZeroPadded(n / 10, w - 1) + [DigitChar(n % 10)]
  }

  lemma {:induction false} ZeroPaddedValue(n: nat, w: nat)
    requires n < Pow10(w)
    ensures DigitsValue(ZeroPadded(n, w)) == n
  {
    if w > 0 {
      ZeroPaddedValue(n / 10, w - 1);
      var r := ZeroPadded(n, w);
      assert r[..|r| - 1] == ZeroPadded(n / 10, w - 1);
    }
  }

  /** The `YYYY-MM-DD` text of a date, followed by anything (a time, a zone). */
  function DateText(year: nat, month: nat, day: nat, rest: string): string {
    ZeroPadded(year, 4) + "-" + ZeroPadded(month, 2) + "-" + ZeroPadded(day, 2) + rest
  }

  /**
   * An order stamped with a well-formed date counts for exactly the month it
   * names; the day and whatever follows it are never examined.
   */
  lemma DateOfMonth(p: Obj, year: nat, month: nat, day: nat, rest: string, cy: int, cm: int)
    requires year < 10000 && month < 100
    requires Get(p, "create_date") == JStr(DateText(year, month, day, rest))
    ensures IsPedidoDelMesActual(p, cy, cm) <==> (year == cy && month == cm)
  {
    var t := DateText(year, month, day, rest);
    var d := Take10(t);
    assert FirstPresent(p, DateKeys) == JStr(t);
    ZeroPaddedValue(year, 4);
    ZeroPaddedValue(month, 2);
    assert d[..4] == ZeroPadded(year, 4);
    assert d[5..7] == ZeroPadded(month, 2);
    assert ParseInt(d[..4]) == Some(year);
    assert ParseInt(d[5..7]) == Some(month);
  }

  /** `historial.any { getStatus(it) == "C" && isPedidoDelMesActual(it) }`, for a history without null entries. */
  predicate CompletedThisMonth(history: seq<Obj>, year: int, month: int)
    ensures |history| == 1 ==> (CompletedThisMonth(history, year, month) <==> CompletedEntry(history[0], year, month))
  {
    exists i :: 0 <= i < |history| && CompletedEntry(history[i], year, month)
  }

  /** One history entry that is a completed order of the given month. */
  predicate CompletedEntry(p: Obj, year: int, month: int) {
    GetStatus(p) == Some("C") && IsPedidoDelMesActual(p, year, month)
  }

  /**
   * One more history entry closes the month exactly when the earlier ones
   * already did, or it is itself a completed order of this month.
   */
  lemma CompletedThisMonthAppend(history: seq<Obj>, p: Obj, year: int, month: int)
    ensures CompletedThisMonth(history + [p], year, month) <==>
              CompletedThisMonth(history, year, month)
              || (GetStatus(p) == Some("C") && IsPedidoDelMesActual(p, year, month))
  {
    var h := history + [p];
    assert h[|history|] == p;
    if CompletedThisMonth(h, year, month) && !CompletedThisMonth(history, year, month) {
      forall i | 0 <= i < |history| ensures !CompletedEntry(h[i], year, month) {
        assert h[i] == history[i];
      }
    }
    if CompletedThisMonth(history, year, month) {
      var i :| 0 <= i < |history| && CompletedEntry(history[i], year, month);
      assert h[i] == history[i];
    }
  }

  /**
   * How `historial.any { ... }` ends on a history whose entries may be JSON
   * `null` (`None`): it stops at the first completed order of the month, or
   * throws at the first null entry, since `getStatus` reads a field of it.
   */
  datatype HistoryScan = FoundCompleted | NoneCompleted | NullEntryThrows

  /** Every entry before `i` is present and not a completed order of the month: `any` gets past them. */
  predicate ScanReaches(history: seq<Option<Obj>>, year: int, month: int, i: int)
    requires 0 <= i <= |history|
  {
    forall j :: 0 <= j < i ==> history[j].Some? && !CompletedEntry(history[j].value, year, month)
  }

  function ScanHistory(history: seq<Option<Obj>>, year: int, month: int): HistoryScan
    decreases |history|
  {
    if history == [] then NoneCompleted
    else
      match history[0]
      case None => NullEntryThrows
      case Some(p) => if CompletedEntry(p, year, month) then FoundCompleted else ScanHistory(history[1..], year, month)
  }

  /** Getting past entry `i + 1` is getting past the head and then past entry `i` of the tail. */
  lemma ScanShift(history: seq<Option<Obj>>, year: int, month: int, i: int)
    requires 0 <= i < |history|
    ensures ScanReaches(history, year, month, i + 1) <==>
              history[0].Some? && !CompletedEntry(history[0].value, year, month)
              && ScanReaches(history[1..], year, month, i)
  {
    var tail := history[1..];
    if ScanReaches(history, year, month, i + 1) {
      forall j | 0 <= j < i ensures tail[j].Some? && !CompletedEntry(tail[j].value, year, month) {
        assert tail[j] == history[j + 1];
      }
    }
    if history[0].Some? && !CompletedEntry(history[0].value, year, month) && ScanReaches(tail, year, month, i) {
      forall j | 0 <= j < i + 1 ensures history[j].Some? && !CompletedEntry(history[j].value, year, month) {
        if j > 0 { assert history[j] == tail[j - 1]; }
      }
    }
  }

  /**
   * Once `any` has got past every entry before `i`, entry `i` decides: a
   * null entry throws, a completed order of the month stops the scan with
   * success, and any other entry lets the scan go on with the rest.
   */
  lemma {:induction false} ScanStopsAt(history: seq<Option<Obj>>, year: int, month: int, i: int)
    requires 0 <= i < |history| && ScanReaches(history, year, month, i)
    ensures ScanHistory(history, year, month) ==
              if history[i].None? then NullEntryThrows
              else if CompletedEntry(history[i].value, year, month) then FoundCompleted
              else ScanHistory(history[i + 1..], year, month)
  {
    if i > 0 {
      var tail := history[1..];
      assert history[0].Some? && !CompletedEntry(history[0].value, year, month);
      ScanShift(history, year, month, i - 1);
      ScanStopsAt(tail, year, month, i - 1);
      assert tail[i - 1] == history[i] && tail[i..] == history[i + 1..];
    }
  }

  /** A scan that gets past every entry finds no completed order, and does not throw. */
  lemma {:induction false} ScanRunsThrough(history: seq<Option<Obj>>, year: int, month: int)
    requires ScanReaches(history, year, month, |history|)
    ensures ScanHistory(history, year, month) == NoneCompleted
    decreases |history|
  {
    if history != [] {
      assert history[0].Some? && !CompletedEntry(history[0].value, year, month);
      ScanShift(history, year, month, |history| - 1);
      ScanRunsThrough(history[1..], year, month);
    }
  }

  /** Either the scan gets past every entry, or it reaches a null entry or a completed order of the month. */
  lemma {:induction false} ScanCases(history: seq<Option<Obj>>, year: int, month: int)
    ensures ScanReaches(history, year, month, |history|)
            || exists i :: 0 <= i < |history| && ScanReaches(history, year, month, i)
                           && (history[i].None? || CompletedEntry(history[i].value, year, month))
    decreases |history|
  {
    if history != [] && history[0].Some? && !CompletedEntry(history[0].value, year, month) {
      var tail := history[1..];
      ScanCases(tail, year, month);
      if ScanReaches(tail, year, month, |tail|) {
        ScanShift(history, year, month, |tail|);
      } else {
        var i :| 0 <= i < |tail| && ScanReaches(tail, year, month, i)
                 && (tail[i].None? || CompletedEntry(tail[i].value, year, month));
        ScanShift(history, year, month, i);
        assert history[i + 1] == tail[i];
      }
    } else if history != [] {
      assert ScanReaches(history, year, month, 0);
    }
  }

  function Lifted(history: seq<Obj>): (r: seq<Option<Obj>>)
    ensures |r| == |history| && forall i :: 0 <= i < |history| ==> r[i] == Some(history[i])
  {
    seq(|history|, i requires 0 <= i < |history| => Some(history[i]))
  }

  /** Without null entries, the scan never throws and finds a completed order exactly when `CompletedThisMonth` holds. */
  lemma {:induction false} ScanWithoutNulls(history: seq<Obj>, year: int, month: int)
    ensures ScanHistory(Lifted(history), year, month) ==
              if CompletedThisMonth(history, year, month) then FoundCompleted else NoneCompleted
  {
    if history != [] {
      var tail := history[1..];
      var l := Lifted(history);
      ScanWithoutNulls(tail, year, month);
      CompletedThisMonthCons(history, year, month);
      assert l[0] == Some(history[0]);
      assert l[1..] == Lifted(tail);
      assert ScanHistory(l, year, month) ==
               if CompletedEntry(history[0], year, month) then FoundCompleted else ScanHistory(Lifted(tail), year, month);
    }
  }

  /** The month is closed by a history exactly when its head or its tail closes it. */
  lemma CompletedThisMonthCons(history: seq<Obj>, year: int, month: int)
    requires history != []
    ensures CompletedThisMonth(history, year, month) <==>
              CompletedEntry(history[0], year, month) || CompletedThisMonth(history[1..], year, month)
  {
    var tail := history[1..];
    if CompletedThisMonth(tail, year, month) {
      var i :| 0 <= i < |tail| && CompletedEntry(tail[i], year, month);
      assert history[i + 1] == tail[i];
    }
    if CompletedThisMonth(history, year, month) && !CompletedEntry(history[0], year, month) {
      var i :| 0 <= i < |history| && CompletedEntry(history[i], year, month);
      assert tail[i - 1] == history[i];
    }
  }

  // ---------------------------------------------------------------- lookup and messages

  /**
   * `fetchPedidoEnProgreso`: the parsed body of a successful answer that is
   * neither 204 nor 404 and has a body; nothing for a call that threw or
   * for any other answer.
   */
  function LookupInProgress(r: Response<Obj>): (info: Option<PedidoInfo>)
    ensures info.Some? <==> r.IsSuccessful() && r.body.Some? && r.code != 204 && r.code != 404
    ensures info.Some? ==> info.value == ParsePedidoBody(r.body.value)
  {
    if r.Failed? || !r.IsSuccessful() || r.body.None? || r.code in [204, 404] then None
    else Some(ParsePedidoBody(r.body.value))
  }

  /** `mostrarErrorBackend`: "Error (code)", then ": " and the error body when it is not blank. */
  function ErrorMessage(code: int, errorText: Option<string>): (m: string)
    ensures var head := "Error (" + DecimalText(code) + ")";
            |head| <= |m| && m[..|head|] == head
    ensures (errorText.None? || IsBlank(errorText.value)) ==> m == "Error (" + DecimalText(code) + ")"
    ensures var head := "Error (" + DecimalText(code) + ")";
            errorText.Some? && !IsBlank(errorText.value) ==>
              |m| == |head| + 2 + |errorText.value| && m[|head|..] == ": " + errorText.value
  {
    var head := "Error (" + DecimalText(code) + ")";
    if errorText.Some? && !IsBlank(errorText.value) then
      var m := head + ": " + errorText.value;
      assert m[..|head|] == head && m[|head|..] == ": " + errorText.value;
      m
    else head
  }
}
