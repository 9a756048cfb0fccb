/** The JavaScript values the services pass around: request bodies, cached
    payloads and upstream article fields. A plain object is a map from its own
    property names to values; spreading `{...a, k: v}` is `a[k := v]`. */
module JsValues {

  datatype Option<+T> = None | Some(value: T)

  datatype JsValue =
    | Undefined
    | Null
    | Bool(b: bool)
    | Num(n: int)
    | Str(s: string)
    | Arr(items: seq<JsValue>)
    | Obj(fields: map<string, JsValue>)

  /** The own enumerable fields of a plain object. */
  type Payload = map<string, JsValue>

  /** A moment of the clock: milliseconds since the epoch, as `Date.now()`
      reads it, and the same moment as `new Date().toISOString()` renders it. */
  datatype Instant = Instant(ms: int, iso: string)

  /** JavaScript truthiness (`!v` is its negation). NaN is not a value of this model. */
  predicate Truthy(v: JsValue) {
    match v
    case Undefined => false
    case Null => false
    case Bool(b) => b
    case Num(n) => n != 0
    case Str(s) => s != ""
    case Arr(_) => true
    case Obj(_) => true
  }

  /** `o.name`, which is `undefined` for a missing property. */
  function Field(o: Payload, name: string): JsValue
  {
    if name in o then o[name] else Undefined
  }

  /** A JavaScript array of strings. */
  function StrArray(ss: seq<string>): JsValue
  {
    Arr(seq(|ss|, i requires 0 <= i < |ss| => Str(ss[i])))
  }

  /** Different string lists make different arrays: the stored array
      determines the list it was built from. */
  lemma StrArrayInjective(a: seq<string>, b: seq<string>)
    requires StrArray(a) == StrArray(b)
    ensures a == b
  {
    assert |a| == |StrArray(a).items| == |b|;
    forall i | 0 <= i < |a| ensures a[i] == b[i] {
      assert StrArray(a).items[i] == Str(a[i]);
      assert StrArray(b).items[i] == Str(b[i]);
    }
  }
}
