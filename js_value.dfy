/**
 * The small slice of JavaScript values the request handler looks at: the
 * value `JSON.parse` produces for the request body, plus `undefined` for a
 * property the body does not have.
 */
module JsValues {
  import opened Wrappers

  datatype JsValue =
    | Undefined
    | Null
    | Bool(b: bool)
    | Num(n: real)
    | Str(s: string)
    | Arr(elems: seq<JsValue>)
    | Obj(props: map<string, JsValue>)

  /**
   * JavaScript truthiness of a value that can come out of a JSON body:
   * `undefined`, `null`, `false`, `0` and `""` are falsy, everything else
   * (including an empty array and an empty object) is truthy.
   */
  predicate Truthy(v: JsValue)
    ensures v.Arr? || v.Obj? ==> Truthy(v)
    ensures v in {Undefined, Null, Bool(false), Num(0.0), Str("")} <==> !Truthy(v)
  {
    match v
    case Undefined => false
    case Null => false
    case Bool(b) => b
    case Num(n) => n != 0.0
    case Str(s) => s != ""
    case Arr(_) => true
    case Obj(_) => true
  }

  /** Reading a property of a non-null value: absent properties read as `undefined`. */
  function Property(v: JsValue, key: string): (r: JsValue)
    ensures r != Undefined ==> v.Obj? && key in v.props && v.props[key] == r
    ensures v.Obj? && key in v.props ==> r == v.props[key]
  {
    if v.Obj? && key in v.props then v.props[key] else Undefined
  }

  /** The two fields the handler destructures out of the body. */
  datatype Fields = Fields(format: JsValue, content: JsValue)

  /**
   * `const { format, content } = body`: throws on `null` (and `undefined`),
   * otherwise reads both properties.
   */
  function Destructure(body: JsValue): (r: Option<Fields>)
    ensures r.None? <==> body == Null || body == Undefined
    ensures r.Some? ==>
      r.value.format == Property(body, "format") && r.value.content == Property(body, "content")
  {
    if body == Null || body == Undefined then None
    else Some(Fields(Property(body, "format"), Property(body, "content")))
  }

  /** `Array.isArray(v)`. */
  predicate IsArray(v: JsValue) {
    v.Arr?
  }
}
