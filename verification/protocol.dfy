/**
  Values that cross the real-time channel between the whiteboard server and its
  browser clients, and the one event name both sides use.
 */
module Protocol {

  /** A value that may be missing, such as the canvas before it is mounted. */
  datatype Option<+T> = None | Some(value: T)

  /** A JavaScript value as a socket payload carries it. A whiteboard snapshot
      (the canvas' JSON) is an `Object`, identified opaquely: neither side ever
      looks inside one. Numbers are integers here; NaN is not modelled. */
  datatype JsValue =
    | Undefined
    | Null
    | Bool(b: bool)
    | Number(n: int)
    | Str(s: string)
    | Object(id: nat)

  /** JavaScript truthiness, the test an `if (value)` performs. */
  predicate Truthy(v: JsValue) {
    match v
    case Undefined => false
    case Null => false
    case Bool(b) => b
    case Number(n) => n != 0
    case Str(s) => s != ""
    case Object(_) => true
  }

  /** The falsy values are exactly `undefined`, `null`, `false`, `0` and `""`. */
  lemma FalsyValues(v: JsValue)
    ensures !Truthy(v) <==> v in {Undefined, Null, Bool(false), Number(0), Str("")}
  {
  }

  /** The single event name used for replay, client updates and rebroadcast. */
  const CanvasUpdate: string := "canvas-update"
}
