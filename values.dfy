/** Dynamic values as the application reads them from YAML configuration and
    from form state: scalars, lists, and the `None` that a missing key reads as. */
module Values {

  datatype Option<+T> = None | Some(value: T) {
    function GetOr(default: T): T {
      if Some? then value else default
    }
  }

  /** A configuration or form value. A missing key and an explicit null are both `VNone`.
      Floating-point numbers and nested dictionaries are not values of this model. */
  datatype Value =
    | VNone
    | VBool(b: bool)
    | VInt(i: int)
    | VStr(s: string)
    | VList(items: seq<Value>)

  /** A form record or a repeating-block row: field key to value. */
  type Record = map<string, Value>

  /** `record.get(key)`: a missing key reads as None. */
  function Lookup(m: Record, key: string): (v: Value)
    ensures key !in m ==> v == VNone
    ensures key in m ==> v == m[key]
  {
    if key in m then m[key] else VNone
  }

  /** Python truthiness: None, False, 0, "" and [] are false. */
  predicate Truthy(v: Value) {
    match v
    case VNone => false
    case VBool(b) => b
    case VInt(i) => i != 0
    case VStr(s) => s != ""
    case VList(xs) => xs != []
  }

  /** The number Python sees in a bool or an int (True is 1, False is 0). */
  function NumberOf(v: Value): Option<int> {
    match v
    case VBool(b) => Some(if b then 1 else 0)
    case VInt(i) => Some(i)
    case _ => None
  }

  /** Python's `==` on values: numbers compare numerically (so True == 1),
      strings by content, lists element-wise, None only with None. */
  predicate PyEq(a: Value, b: Value)
    decreases a
  {
    match a
    case VNone => b.VNone?
    case VStr(s) => b.VStr? && b.s == s
    case VList(xs) =>
      b.VList? && |xs| == |b.items| &&
      forall k :: 0 <= k < |xs| ==> PyEq(xs[k], b.items[k])
    case _ => NumberOf(a).Some? && NumberOf(b) == NumberOf(a)
  }

  /** Python's `x in xs` for a list. */
  predicate In(x: Value, xs: seq<Value>) {
    exists k :: 0 <= k < |xs| && PyEq(xs[k], x)
  }

  lemma {:induction false} PyEqReflexive(a: Value)
    ensures PyEq(a, a)
    decreases a
  {
    match a
    case VList(xs) =>
      forall k | 0 <= k < |xs| ensures PyEq(xs[k], xs[k]) {
        PyEqReflexive(xs[k]);
      }
    case _ =>
  }

  lemma {:induction false} PyEqSymmetric(a: Value, b: Value)
    requires PyEq(a, b)
    ensures PyEq(b, a)
    decreases a
  {
    match a
    case VList(xs) =>
      forall k | 0 <= k < |xs| ensures PyEq(b.items[k], xs[k]) {
        PyEqSymmetric(xs[k], b.items[k]);
      }
    case _ =>
  }

  /** Python's `True == 1`: a bool and an int can be equal. */
  lemma TrueEqualsOne()
    ensures PyEq(VBool(true), VInt(1)) && PyEq(VBool(false), VInt(0))
    ensures !PyEq(VStr("1"), VInt(1)) && !PyEq(VNone, VBool(false))
  {
  }

  /** A setting the configuration may spell two ways (camelCase and snake_case),
      read as `d.get(camel, d.get(snake, default))`: a present camelCase key wins. */
  datatype Aliased<T> = Aliased(camel: Option<T>, snake: Option<T>) {
    predicate Present() {
      camel.Some? || snake.Some?
    }

    function Get(default: T): T {
      if camel.Some? then camel.value else if snake.Some? then snake.value else default
    }

    /** `d.get(camel, d.get(snake))`: the setting, or None when neither spelling is present. */
    function Find(): Option<T> {
      if camel.Some? then camel else snake
    }
  }
}
