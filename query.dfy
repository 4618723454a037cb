/** `constructObj` (src/utilities.js lines 49-76): the checks and defaults
    applied to the query object and the callback an entry point is given. */
module Query {
  import opened Outcomes
  import opened JsValues
  import opened DateRange

  const SupplyMessage: string := "Must supply an object"
  const KeywordMessage: string := "Must have a keyword field"
  const CallbackMessage: string := "Callback function must be a function"
  const DefaultLocale: string := "en-US"

  /** What the first argument is, as `constructObj` tells it apart. `null`,
      `undefined` and every primitive are `NotAnObject`. */
  datatype Argument = NotAnObject | AnObject(kind: ObjectKind, props: map<string, Value>)

  function ArgumentOf(obj: JsObject?): Argument
    reads obj
  {
    if obj == null then NotAnObject else AnObject(obj.kind, obj.props)
  }

  /** A function given as the query takes the place of the callback. */
  function EffectiveCallback(arg: Argument, cbFunc: Value): Value {
    if arg.AnObject? && arg.kind == FunctionObject then Func else cbFunc
  }

  /** The message of the `Error` that replaces the query, if any. A bad
      callback is checked last and so takes precedence. */
  function ConstructError(arg: Argument, cbFunc: Value): (e: Option<string>)
    ensures var cb := EffectiveCallback(arg, cbFunc);
      && (e == Some(CallbackMessage) <==> Truthy(cb) && !cb.Func?)
      && (e == Some(SupplyMessage) <==>
            !(Truthy(cb) && !cb.Func?) && (arg.NotAnObject? || arg.kind == ArrayObject || arg.kind == FunctionObject))
      && (e == Some(KeywordMessage) <==>
            !(Truthy(cb) && !cb.Func?) && arg.AnObject? && arg.kind != ArrayObject && arg.kind != FunctionObject
            && !Truthy(Prop(arg.props, "keyword")))
      && (e.None? <==>
            !(Truthy(cb) && !cb.Func?) && arg.AnObject? && arg.kind != ArrayObject && arg.kind != FunctionObject
            && Truthy(Prop(arg.props, "keyword")))
  {
    var cb := EffectiveCallback(arg, cbFunc);
    if Truthy(cb) && !cb.Func? then Some(CallbackMessage)
    else if arg.NotAnObject? || arg.kind == ArrayObject || arg.kind == FunctionObject then Some(SupplyMessage)
    else if !Truthy(Prop(arg.props, "keyword")) then Some(KeywordMessage)
    else None
  }

  /** Lines 60-61: a falsy `hl` becomes `'en-US'` and a falsy `category`
      becomes `0`; every other property is kept. */
  function WithDefaults(props: map<string, Value>): (r: map<string, Value>)
    ensures r.Keys == props.Keys + {"hl", "category"}
    ensures Truthy(Prop(props, "hl")) ==> r["hl"] == props["hl"]
    ensures !Truthy(Prop(props, "hl")) ==> r["hl"] == Str(DefaultLocale)
    ensures Truthy(Prop(props, "category")) ==> r["category"] == props["category"]
    ensures !Truthy(Prop(props, "category")) ==> r["category"] == Num(0)
    ensures forall k :: k in props && k != "hl" && k != "category" ==> r[k] == props[k]
  {
    var withLocale := if Truthy(Prop(props, "hl")) then props else props["hl" := Str(DefaultLocale)];
    if Truthy(Prop(withLocale, "category")) then withLocale else withLocale["category" := Num(0)]
  }

  /** After the defaults `hl` is always truthy and `category` is truthy or
      `0` (itself falsy), and applying them again changes nothing. */
  lemma WithDefaultsSettles(props: map<string, Value>)
    ensures Truthy(WithDefaults(props)["hl"])
    ensures Truthy(WithDefaults(props)["category"]) || WithDefaults(props)["category"] == Num(0)
    ensures WithDefaults(WithDefaults(props)) == WithDefaults(props)
  {
    var once := WithDefaults(props);
    assert Prop(once, "hl") == once["hl"] && Prop(once, "category") == once["category"];
    assert WithDefaults(once).Keys == once.Keys;
  }

  /** A new `Error` has no bounds, so after the defaults `formatTime`
      gives it the whole default range. */
  lemma ErrorHasNoBounds(now: int)
    ensures WithDefaults(map[]) == map["hl" := Str(DefaultLocale), "category" := Num(0)]
    ensures Prop(WithDefaults(map[]), "startTime") == Undefined && Prop(WithDefaults(map[]), "endTime") == Undefined
    ensures NormalizeBounds(Undefined, Undefined, now) == Success(TimeRange(At(DefaultStartMs), At(now)))
  {
  }

  /** Lines 50-58: the callback after a function query has taken its
      place, and the object the rest of `constructObj` works on, which is the
      caller's object or a new `Error`. */
  method ChooseTarget(obj: JsObject?, cbFunc: Value) returns (cb: Value, target: JsObject)
    ensures cb == EffectiveCallback(ArgumentOf(obj), cbFunc)
    ensures var e := ConstructError(ArgumentOf(obj), cbFunc);
      && (e.Some? ==> fresh(target) && target.kind == ErrorObject(e.value) && target.props == map[])
      && (e.None? ==> target == obj)
  {
    cb := cbFunc;
    if obj != null && obj.kind == FunctionObject {
      cb := Func;
    }
    if obj == null || obj.kind == ArrayObject || obj.kind == FunctionObject {
      target := new JsObject(ErrorObject(SupplyMessage), map[]);
    } else if !Truthy(Prop(obj.props, "keyword")) {
      target := new JsObject(ErrorObject(KeywordMessage), map[]);
    } else {
      target := obj;
    }
    if Truthy(cb) && !cb.Func? {
      target := new JsObject(ErrorObject(CallbackMessage), map[]);
    }
  }

  /** Lines 60-61, on the object itself. */
  method ApplyDefaults(target: JsObject)
    modifies target
    ensures target.kind == old(target.kind)
    ensures target.props == WithDefaults(old(target.props))
  {
    if !Truthy(Prop(target.props, "hl")) {
      target.props := target.props["hl" := Str(DefaultLocale)];
    }
    if !Truthy(Prop(target.props, "category")) {
      target.props := target.props["category" := Num(0)];
    }
  }

  /** `constructObj(obj, cbFunc)`. `obj` is `null` for any argument that is
      not an object. When the query is rejected a new `Error` takes its
      place, and that `Error` still gets the defaults and a date range; the
      caller's object is then left alone. When the query is accepted, the
      defaults are written on the caller's object before `formatTime`
      validates it, so they stay there even if `formatTime` then returns a
      new `Error`. The returned callback is the default one (`Func`) when
      none was given, and the given value otherwise. */
  method ConstructObj(obj: JsObject?, cbFunc: Value, now: int) returns (callback: Value, result: JsObject)
    modifies obj
    ensures var cb := EffectiveCallback(old(ArgumentOf(obj)), cbFunc);
      callback == if Truthy(cb) then cb else Func
    ensures var e := ConstructError(old(ArgumentOf(obj)), cbFunc);
      && (e.Some? ==>
            && fresh(result) && result.kind == ErrorObject(e.value)
            && result.props == WithRange(WithDefaults(map[]), TimeRange(At(DefaultStartMs), At(now)))
            && (obj != null ==> obj.props == old(obj.props)))
      && (e.None? ==>
            var props := WithDefaults(old(obj.props));
            var b := NormalizeBounds(Prop(props, "startTime"), Prop(props, "endTime"), now);
            && (b.Failure? ==>
                  fresh(result) && result.kind == ErrorObject(b.error) && result.props == map[] && obj.props == props)
            && (b.Success? ==> result == obj && obj.props == WithRange(props, b.value)))
    ensures obj != null ==> obj.kind == old(obj.kind)
  {
    var cb, target := ChooseTarget(obj, cbFunc);
    ApplyDefaults(target);
    if target != obj {
      ErrorHasNoBounds(now);
    }
    if !Truthy(cb) {
      cb := Func;
    }
    result := FormatTime(target, now);
    callback := cb;
  }
}
