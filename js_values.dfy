/** The JavaScript values the core handles, the failures it can raise, and
    the object whose own enumerable properties the query functions read and
    update in place. */
module JsValues {
  import opened Outcomes
  import opened Numerals

  /** A `Date`'s time value: milliseconds since 1970-01-01T00:00:00Z, or NaN
      for an Invalid Date. */
  datatype Instant = InvalidDate | At(ms: int)

  /** A JavaScript value as the core sees it. Objects inside values are plain
      data (what `JSON.parse` yields, or a property value of the query);
      `Date` and `Func` are the two kinds of object the core tests for. */
  datatype Value =
    | Undefined
    | Null
    | Bool(b: bool)
    | Num(n: int)
    | Str(s: string)
    | Arr(elems: seq<Value>)
    | Obj(fields: map<string, Value>)
    | Date(time: Instant)
    | Func

  /** JavaScript truthiness. */
  predicate Truthy(v: Value) {
    match v
    case Undefined => false
    case Null => false
    case Bool(b) => b
    case Num(n) => n != 0
    case Str(s) => s != ""
    case _ => true
  }

  predicate Nullish(v: Value) { v.Undefined? || v.Null? }

  /** `o[key]` on an object's own properties: `undefined` when absent. */
  function Prop(props: map<string, Value>, key: string): Value {
    if key in props then props[key] else Undefined
  }

  /** What the core can raise. `UnknownAnalysisType` is the TypeError thrown
      when destructuring the missing entry of the analysis-type table. */
  datatype Fault =
    | TypeError
    | URIError
    | UnknownAnalysisType(name: string)
    | PayloadError(requestBody: string)
    | TransportError(cause: string)

  /** `v.key` for a property name that no built-in prototype defines: throws
      on `null`/`undefined`, reads an own property of an object, and is
      `undefined` on every other value. */
  function Member(v: Value, key: string): Result<Value, Fault> {
    match v
    case Undefined => Failure(TypeError)
    case Null => Failure(TypeError)
    case Obj(fields) => Success(Prop(fields, key))
    case _ => Success(Undefined)
  }

  /** `v[pos]` for an index: an array element, a one-character string, the
      property named by the index's decimal text, or `undefined`. */
  function Index(v: Value, pos: nat): Result<Value, Fault> {
    match v
    case Undefined => Failure(TypeError)
    case Null => Failure(TypeError)
    case Arr(elems) => Success(if pos < |elems| then elems[pos] else Undefined)
    case Str(s) => Success(if pos < |s| then Str([s[pos]]) else Undefined)
    case Obj(fields) => Success(Prop(fields, NatText(pos)))
    case _ => Success(Undefined)
  }

  /** The strict-mode assignment `v.key = x`. It throws on `null`,
      `undefined` and on primitives. On an object it sets the property. On an
      array, a `Date` or a function it adds a named property that
      `JSON.stringify` never emits, so the serialisable value is unchanged. */
  function SetMember(v: Value, key: string, x: Value): Result<Value, Fault> {
    match v
    case Obj(fields) => Success(Obj(fields[key := x]))
    case Arr(_) => Success(v)
    case Date(_) => Success(v)
    case Func => Success(v)
    case _ => Failure(TypeError)
  }

  /** `v.outer.inner = x`, the inner object being part of `v`. */
  function SetNestedMember(v: Value, outer: string, inner: string, x: Value): Result<Value, Fault> {
    var o :- Member(v, outer);
    var o' :- SetMember(o, inner, x);
    if v.Obj? then Success(Obj(v.fields[outer := o'])) else Success(v)
  }

  /** A nested assignment succeeds exactly when `v` is an object whose
      `outer` property is an object, an array, a `Date` or a function; it then
      sets `inner` on an object and changes nothing else. */
  lemma SetNestedMemberEffect(v: Value, outer: string, inner: string, x: Value)
    ensures var r := SetNestedMember(v, outer, inner, x);
      && (r.Success? <==> (v.Obj? && outer in v.fields
            && (v.fields[outer].Obj? || v.fields[outer].Arr? || v.fields[outer].Date? || v.fields[outer].Func?)))
      && (r.Failure? ==> r.error == TypeError)
      && (r.Success? ==>
            && r.value.Obj? && r.value.fields.Keys == v.fields.Keys
            && (forall k :: k in v.fields && k != outer ==> r.value.fields[k] == v.fields[k])
            && (v.fields[outer].Obj? ==> r.value.fields[outer] == Obj(v.fields[outer].fields[inner := x]))
            && (!v.fields[outer].Obj? ==> r.value.fields[outer] == v.fields[outer]))
  {
  }

  /** The kinds of object `constructObj` tells apart. */
  datatype ObjectKind = Ordinary | ArrayObject | FunctionObject | ErrorObject(message: string)

  /** A heap object: the query the caller passes, or an `Error` the core
      creates. `props` are its own enumerable properties (an `Error`'s
      message is not among them). */
  class JsObject {
    var kind: ObjectKind
    var props: map<string, Value>

    constructor (kind: ObjectKind, props: map<string, Value>)
      ensures this.kind == kind && this.props == props
    {
      this.kind := kind;
      this.props := props;
    }
  }
}
