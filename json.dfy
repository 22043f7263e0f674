/**
 * The loosely typed response bodies (`Map<String, Any>` decoded from JSON)
 * and the casts the screen applies to them: `as? Number`, `as? String`,
 * `as? Map<*, *>` and `Number.toInt()`.
 */
module Json {
  import opened Wrappers
  import opened Text

  /** A decoded JSON value. Numbers arrive as `Double`; `real` holds them exactly. */
  datatype Json =
    | JNull
    | JBool(b: bool)
    | JNum(x: real)
    | JStr(s: string)
    | JList(elements: seq<Json>)
    | JObj(fields: map<string, Json>)

  /** A response body that decodes to a map. */
  type Obj = map<string, Json>

  /** `body[key]`: an absent key and an explicit null read the same. */
  function Get(o: Obj, key: string): (v: Json)
    ensures key in o ==> v == o[key]
    ensures key !in o ==> v == JNull
  {
    if key in o then o[key] else JNull
  }

  /** `body[k1] ?: body[k2] ?: ...`: the value of the first key that is present and not null. */
  function FirstPresent(o: Obj, keys: seq<string>): (v: Json)
    ensures v != JNull ==> exists i :: 0 <= i < |keys| && Get(o, keys[i]) == v
                                       && forall j :: 0 <= j < i ==> Get(o, keys[j]) == JNull
    ensures v == JNull ==> forall i :: 0 <= i < |keys| ==> Get(o, keys[i]) == JNull
  {
    if keys == [] then JNull
    else if Get(o, keys[0]) != JNull then Get(o, keys[0])
    else
      var v := FirstPresent(o, keys[1..]);
      assert v != JNull ==> exists i :: 1 <= i < |keys| && Get(o, keys[i]) == v
                                        && forall j :: 0 <= j < i ==> Get(o, keys[j]) == JNull by {
        if v != JNull {
          var i :| 0 <= i < |keys| - 1 && Get(o, keys[1..][i]) == v
                   && forall j :: 0 <= j < i ==> Get(o, keys[1..][j]) == JNull;
          assert Get(o, keys[i + 1]) == v;
          assert forall j :: 1 <= j < i + 1 ==> Get(o, keys[j]) == Get(o, keys[1..][j - 1]);
        }
      }
      assert forall i :: 1 <= i < |keys| ==> keys[i] == keys[1..][i - 1];
      v
  }

  /** The first key whose value is not null is the one `?:` picks. */
  lemma {:induction false} FirstPresentIs(o: Obj, keys: seq<string>, i: int)
    requires 0 <= i < |keys| && Get(o, keys[i]) != JNull
    requires forall j :: 0 <= j < i ==> Get(o, keys[j]) == JNull
    ensures FirstPresent(o, keys) == Get(o, keys[i])
  {
    if i > 0 {
      assert Get(o, keys[0]) == JNull;
      assert forall j :: 0 <= j < i - 1 ==> keys[1..][j] == keys[j + 1];
      FirstPresentIs(o, keys[1..], i - 1);
    }
  }

  /**
   * `Double.toInt()`: rounds toward zero, and a value outside the range of
   * `Int` becomes the nearest bound.
   */
  function ToInt32(x: real): (n: int)
    ensures InInt32(n)
    ensures 0.0 <= x < IntMax as real ==> n as real <= x < (n + 1) as real
    ensures IntMin as real < x <= 0.0 ==> (n - 1) as real < x <= n as real
    ensures x >= IntMax as real ==> n == IntMax
    ensures x <= IntMin as real ==> n == IntMin
    ensures 0.0 <= x ==> 0 <= n
    ensures x <= 0.0 ==> n <= 0
  {
    var t := if x >= 0.0 then x.Floor else -((-x).Floor);
    if t < IntMin then IntMin else if t > IntMax then IntMax else t
  }

  /** Whole numbers in range survive the trip through a `Double`. */
  lemma ToInt32OfInt(n: int)
    requires InInt32(n)
    ensures ToInt32(n as real) == n
  {
  }

  /** `(v as? Number)?.toInt()` */
  function AsInt(v: Json): (r: Option<int>)
    ensures r.Some? <==> v.JNum?
    ensures v.JNum? ==> r.value == ToInt32(v.x)
  {
    if v.JNum? then Some(ToInt32(v.x)) else None
  }

  /** `v as? String` */
  function AsString(v: Json): (r: Option<string>)
    ensures r.Some? <==> v.JStr?
    ensures v.JStr? ==> r.value == v.s
  {
    if v.JStr? then Some(v.s) else None
  }
}
