/** `getResults` (src/utilities.js lines 130-211): the two-step exchange with
    Google Trends. An explore request describes the query and answers with
    widgets; the widget for the analysis type supplies the echoed request
    and the token of the data request, whose answer is the result.
    The transport, `JSON.stringify`, `JSON.parse` and `encodeURIComponent`
    are parameters; `encode` gives `None` where the real one throws a
    URIError. */
module Orchestrator {
  import opened Outcomes
  import opened JsValues
  import opened Resolution
  import opened Keywords
  import opened Payload

  const Host: string := "trends.google.com"
  const ExplorePath: string := "/trends/api/explore"
  const AutocompletePrefix: string := "/trends/api/autocomplete/"
  const MultilinePath: string := "/trends/api/widgetdata/multiline"
  const ComparedGeoPath: string := "/trends/api/widgetdata/comparedgeo"
  const RelatedSearchesPath: string := "/trends/api/widgetdata/relatedsearches"
  /** The `tz` query parameter, in minutes. */
  const TimezoneOffset: int := 300

  const AnalysisTypes: set<string> :=
    {"auto complete", "interest over time", "interest by region", "related topics", "related queries"}

  /** One HTTPS request. `proxy` is `None` when the options object has no
      `proxy` key at all, as on the data request. */
  datatype Options = Options(verb: string, host: string, path: string, proxy: Option<Value>, qs: map<string, Value>)

  /** An entry of the analysis-type table; `""` stands for an absent
      `resolution`, both being falsy. */
  datatype Descriptor = Descriptor(path: string, pos: nat, resolution: string)

  /** The table of lines 132-154. Its entries are evaluated eagerly, so the
      keyword is URI-encoded and the resolution validated whatever the
      analysis type, and either can throw. */
  function Table(props: map<string, Value>, encode: Value -> Option<string>): (r: Result<map<string, Descriptor>, Fault>)
    ensures r.Failure? <==> encode(Prop(props, "keyword")).None? || FormatResolution(Prop(props, "resolution")).Failure?
    ensures r.Failure? ==> r.error == if encode(Prop(props, "keyword")).None? then URIError else TypeError
    ensures r.Success? ==> r.value.Keys == AnalysisTypes
    ensures r.Success? ==> forall name :: name in r.value && r.value[name].resolution != "" ==> name == "interest by region"
    ensures r.Success? ==> r.value["interest by region"].resolution == FormatResolution(Prop(props, "resolution")).value
    ensures r.Success? ==> r.value["auto complete"].path == AutocompletePrefix + encode(Prop(props, "keyword")).value
  {
    match encode(Prop(props, "keyword"))
    case None => Failure(URIError)
    case Some(encoded) =>
      var resolution :- FormatResolution(Prop(props, "resolution"));
      Success(map[
        "auto complete" := Descriptor(AutocompletePrefix + encoded, 0, ""),
        "interest over time" := Descriptor(MultilinePath, 0, ""),
        "interest by region" := Descriptor(ComparedGeoPath, 1, resolution),
        "related topics" := Descriptor(RelatedSearchesPath, 2, ""),
        "related queries" := Descriptor(RelatedSearchesPath, 3, "")])
  }

  /** The widget positions and data paths of the five analysis types. */
  lemma TableEntries(props: map<string, Value>, encode: Value -> Option<string>)
    requires Table(props, encode).Success?
    ensures var t := Table(props, encode).value;
      && t["auto complete"].pos == 0 && t["interest over time"].pos == 0
      && t["interest by region"].pos == 1 && t["related topics"].pos == 2 && t["related queries"].pos == 3
      && t["interest over time"].path == MultilinePath && t["interest by region"].path == ComparedGeoPath
      && t["related topics"].path == RelatedSearchesPath && t["related queries"].path == RelatedSearchesPath
  {
  }

  /** The table and the lookup of line 172: an analysis type the table does
      not name fails there, after the table has been built. */
  function Plan(props: map<string, Value>, searchType: string, encode: Value -> Option<string>): (r: Result<Descriptor, Fault>)
    ensures Table(props, encode).Failure? ==> r == Failure(Table(props, encode).error)
    ensures Table(props, encode).Success? && searchType !in AnalysisTypes ==> r == Failure(UnknownAnalysisType(searchType))
    ensures Table(props, encode).Success? && searchType in AnalysisTypes ==> r == Success(Table(props, encode).value[searchType])
  {
    var table :- Table(props, encode);
    if searchType in table then Success(table[searchType]) else Failure(UnknownAnalysisType(searchType))
  }

  /** Because the table is built before the lookup, a resolution that is
      not a string breaks every analysis type, not only the one that uses it. */
  lemma EagerTableRejectsBadResolution(props: map<string, Value>, searchType: string, encode: Value -> Option<string>)
    requires encode(Prop(props, "keyword")).Some?
    requires Prop(props, "resolution").Num?
    ensures Plan(props, searchType, encode) == Failure(TypeError)
  {
  }

  /** The explore request of lines 156-170: a GET of the explore path that
      carries the query's proxy, its locale, the fixed time-zone offset and,
      as `req`, the serialised comparison items with the query's category. */
  function ExploreOptions(props: map<string, Value>, stringify: Value -> string): (o: Options)
    ensures o.verb == "GET" && o.host == Host && o.path == ExplorePath
    ensures o.proxy == Some(Prop(props, "proxy"))
    ensures o.qs.Keys == {"hl", "req", "tz"}
    ensures o.qs["hl"] == Prop(props, "hl") && o.qs["tz"] == Num(TimezoneOffset)
    ensures o.qs["req"] == Str(stringify(Obj(map[
      "comparisonItem" := Arr(ComparisonItems(props)),
      "category" := Prop(props, "category"),
      "property" := Str("")])))
  {
    var req := Obj(map[
      "comparisonItem" := Arr(ComparisonItems(props)),
      "category" := Prop(props, "category"),
      "property" := Str("")]);
    Options("GET", Host, ExplorePath, Some(Prop(props, "proxy")),
      map["hl" := Prop(props, "hl"), "req" := Str(stringify(req)), "tz" := Num(TimezoneOffset)])
  }

  /** Lines 179-181 on the widget's request: `resolution` is set only when
      the table gives a non-empty one, then `requestOptions.category` and
      `requestOptions.property` are overwritten. Each assignment throws on
      `null`, `undefined` and primitives. */
  function Overridden(req: Value, resolution: string, category: Value): (r: Result<Value, Fault>)
    ensures r.Success? <==>
      && req.Obj? && "requestOptions" in req.fields
      && (var o := req.fields["requestOptions"]; o.Obj? || o.Arr? || o.Date? || o.Func?)
    ensures r.Failure? ==> r.error == TypeError
    ensures r.Success? ==>
      && r.value.Obj?
      && r.value.fields.Keys == req.fields.Keys + (if resolution != "" then {"resolution"} else {})
      && (resolution != "" ==> r.value.fields["resolution"] == Str(resolution))
      && (forall k :: k in req.fields && k != "requestOptions" && (k != "resolution" || resolution == "") ==>
            r.value.fields[k] == req.fields[k])
      && (req.fields["requestOptions"].Obj? ==>
            r.value.fields["requestOptions"] ==
              Obj(req.fields["requestOptions"].fields["category" := category]["property" := Str("")]))
      && (!req.fields["requestOptions"].Obj? ==> r.value.fields["requestOptions"] == req.fields["requestOptions"])
  {
    var withResolution :- if resolution != "" then SetMember(req, "resolution", Str(resolution)) else Success(req);
    SetNestedMemberEffect(withResolution, "requestOptions", "category", category);
    var withCategory :- SetNestedMember(withResolution, "requestOptions", "category", category);
    SetNestedMemberEffect(withCategory, "requestOptions", "property", Str(""));
    SetNestedMember(withCategory, "requestOptions", "property", Str(""))
  }

  /** The echoed request of any analysis type whose `requestOptions` is an
      object: its `category` is the query's and its `property` is `''`, and
      `resolution` is overwritten only for "interest by region" with a valid
      resolution. */
  lemma {:induction false} EchoedRequestFields(props: map<string, Value>, searchType: string,
                                               encode: Value -> Option<string>, req: Value)
    requires Plan(props, searchType, encode).Success?
    requires req.Obj? && "requestOptions" in req.fields && req.fields["requestOptions"].Obj?
    ensures var entry := Plan(props, searchType, encode).value;
      var r := Overridden(req, entry.resolution, Prop(props, "category"));
      && r.Success?
      && r.value.fields["requestOptions"].Obj?
      && r.value.fields["requestOptions"].fields["category"] == Prop(props, "category")
      && r.value.fields["requestOptions"].fields["property"] == Str("")
      && (searchType != "interest by region" ==> Prop(r.value.fields, "resolution") == Prop(req.fields, "resolution"))
      && (searchType == "interest by region" && FormatResolution(Prop(props, "resolution")).value != "" ==>
            r.value.fields["resolution"] == Str(FormatResolution(Prop(props, "resolution")).value))
  {
    var table := Table(props, encode).value;
    var entry := Plan(props, searchType, encode).value;
    assert entry == table[searchType];
    assert searchType != "interest by region" ==> entry.resolution == "";
  }

  /** The data request of lines 177-195, built from the widget at the
      table's position: the echoed request with its overrides, serialised,
      and the widget's token. */
  function DataRequest(props: map<string, Value>, entry: Descriptor, widgets: Value, stringify: Value -> string): (r: Result<Options, Fault>)
    ensures r.Success? ==>
      && Index(widgets, entry.pos).Success?
      && Member(Index(widgets, entry.pos).value, "request").Success?
      && Overridden(Member(Index(widgets, entry.pos).value, "request").value, entry.resolution, Prop(props, "category")).Success?
      && var widget := Index(widgets, entry.pos).value;
         var echoed := Overridden(Member(widget, "request").value, entry.resolution, Prop(props, "category")).value;
         && r.value.verb == "GET" && r.value.host == Host && r.value.path == entry.path && r.value.proxy.None?
         && r.value.qs.Keys == {"hl", "req", "token", "tz"}
         && r.value.qs["hl"] == Prop(props, "hl")
         && r.value.qs["tz"] == Num(TimezoneOffset)
         && r.value.qs["req"] == Str(stringify(echoed))
         && r.value.qs["token"] == Member(widget, "token").value
    ensures Index(widgets, entry.pos).Success?
         && Member(Index(widgets, entry.pos).value, "request").Success?
         && Overridden(Member(Index(widgets, entry.pos).value, "request").value, entry.resolution, Prop(props, "category")).Success?
         ==> r.Success?
    ensures r.Failure? ==> r.error == TypeError
  {
    var widget :- Index(widgets, entry.pos);
    var req :- Member(widget, "request");
    var echoed :- Overridden(req, entry.resolution, Prop(props, "category"));
    var token := Member(widget, "token").value;
    Success(Options("GET", Host, entry.path, None,
      map["hl" := Prop(props, "hl"), "req" := Str(stringify(echoed)), "token" := token, "tz" := Num(TimezoneOffset)]))
  }

  /** What the first `.then` does with the explore answer. */
  function DataStep(props: map<string, Value>, entry: Descriptor, results: string,
                    parse: string -> Option<Value>, stringify: Value -> string): Result<Options, Fault>
  {
    var widgets :- ParseResults(results, parse);
    DataRequest(props, entry, widgets, stringify)
  }

  /** The first `.then` of lines 175-198: parse the explore answer, take
      the widget's request, override its fields in place and serialise it. */
  method PrepareDataRequest(obj: JsObject, entry: Descriptor, results: string,
                            parse: string -> Option<Value>, stringify: Value -> string)
    returns (r: Result<Options, Fault>)
    ensures r == DataStep(obj.props, entry, results, parse, stringify)
  {
    var parsed := ParseResults(results, parse);
    if parsed.Failure? {
      return Failure(parsed.error);
    }
    var widget := Index(parsed.value, entry.pos);
    if widget.Failure? {
      return Failure(widget.error);
    }
    var request := Member(widget.value, "request");
    if request.Failure? {
      return Failure(request.error);
    }
    var req := request.value;
    if entry.resolution != "" {
      var withResolution := SetMember(req, "resolution", Str(entry.resolution));
      if withResolution.Failure? {
        return Failure(withResolution.error);
      }
      req := withResolution.value;
    }
    var withCategory := SetNestedMember(req, "requestOptions", "category", Prop(obj.props, "category"));
    if withCategory.Failure? {
      return Failure(withCategory.error);
    }
    req := withCategory.value;
    var withProperty := SetNestedMember(req, "requestOptions", "property", Str(""));
    if withProperty.Failure? {
      return Failure(withProperty.error);
    }
    req := withProperty.value;
    var body := stringify(req);
    var token := Member(widget.value, "token").value;
    r := Success(Options("GET", Host, entry.path, None,
      map["hl" := Prop(obj.props, "hl"), "req" := Str(body), "token" := token, "tz" := Num(TimezoneOffset)]));
  }

  /** A query for "cats" with the default locale and category. */
  const CatsQuery: map<string, Value> := map["keyword" := Str("cats"), "hl" := Str("en-US"), "category" := Num(0)]

  /** "interest over time" for "cats": the first widget's entry, the explore
      request with the query as its only comparison item, and, for an
      explore answer whose first widget has a request and a token, a data
      request to the multiline path that echoes that request with the
      query's category and an empty property. */
  lemma CatsInterestOverTime(results: string, token: Value, parse: string -> Option<Value>,
                             stringify: Value -> string, encode: Value -> Option<string>)
    requires encode(Str("cats")).Some?
    requires parse(DropPrefix(results, ExploreGuardLength)) == Some(Obj(map["widgets" := Arr([
      Obj(map["request" := Obj(map["requestOptions" := Obj(map[])]), "token" := token])])]))
    ensures Plan(CatsQuery, "interest over time", encode) == Success(Descriptor(MultilinePath, 0, ""))
    ensures ExploreOptions(CatsQuery, stringify) == Options("GET", Host, ExplorePath, Some(Undefined), map[
      "hl" := Str("en-US"),
      "req" := Str(stringify(Obj(map[
        "comparisonItem" := Arr([Obj(CatsQuery)]), "category" := Num(0), "property" := Str("")]))),
      "tz" := Num(TimezoneOffset)])
    ensures DataStep(CatsQuery, Descriptor(MultilinePath, 0, ""), results, parse, stringify)
      == Success(Options("GET", Host, MultilinePath, None, map[
           "hl" := Str("en-US"),
           "req" := Str(stringify(Obj(map["requestOptions" := Obj(map["category" := Num(0), "property" := Str("")])]))),
           "token" := token,
           "tz" := Num(TimezoneOffset)]))
  {
    CatsPlan(encode);
    CatsExplore(stringify);
    var widgets := Arr([Obj(map["request" := Obj(map["requestOptions" := Obj(map[])]), "token" := token])]);
    assert ParseResults(results, parse) == Success(widgets);
    CatsDataRequest(token, stringify);
  }

  /** The table entry of "interest over time" for "cats". */
  lemma CatsPlan(encode: Value -> Option<string>)
    requires encode(Str("cats")).Some?
    ensures Plan(CatsQuery, "interest over time", encode) == Success(Descriptor(MultilinePath, 0, ""))
  {
    assert Prop(CatsQuery, "keyword") == Str("cats");
    assert Prop(CatsQuery, "resolution") == Undefined;
    assert Table(CatsQuery, encode).Success?;
    var entry := Table(CatsQuery, encode).value["interest over time"];
    TableEntries(CatsQuery, encode);
    assert entry.resolution == "" by {
      assert "interest over time" != "interest by region" by {
        assert "interest over time"[9] != "interest by region"[9];
      }
    }
    assert entry == Descriptor(MultilinePath, 0, "");
  }

  /** The explore request for "cats". */
  lemma CatsExplore(stringify: Value -> string)
    ensures ExploreOptions(CatsQuery, stringify) == Options("GET", Host, ExplorePath, Some(Undefined), map[
      "hl" := Str("en-US"),
      "req" := Str(stringify(Obj(map[
        "comparisonItem" := Arr([Obj(CatsQuery)]), "category" := Num(0), "property" := Str("")]))),
      "tz" := Num(TimezoneOffset)])
  {
    assert Prop(CatsQuery, "keyword") == Str("cats");
    assert Prop(CatsQuery, "proxy") == Undefined;
    var o := ExploreOptions(CatsQuery, stringify);
    assert o.qs == map["hl" := Str("en-US"),
      "req" := Str(stringify(Obj(map["comparisonItem" := Arr([Obj(CatsQuery)]), "category" := Num(0), "property" := Str("")]))),
      "tz" := Num(TimezoneOffset)];
  }

  /** The data request built from an answer whose first widget has a bare
      request and a token. */
  lemma CatsDataRequest(token: Value, stringify: Value -> string)
    ensures DataRequest(CatsQuery, Descriptor(MultilinePath, 0, ""),
      Arr([Obj(map["request" := Obj(map["requestOptions" := Obj(map[])]), "token" := token])]), stringify)
      == Success(Options("GET", Host, MultilinePath, None, map[
           "hl" := Str("en-US"),
           "req" := Str(stringify(Obj(map["requestOptions" := Obj(map["category" := Num(0), "property" := Str("")])]))),
           "token" := token,
           "tz" := Num(TimezoneOffset)]))
  {
    var req := Obj(map["requestOptions" := Obj(map[])]);
    var widget := Obj(map["request" := req, "token" := token]);
    assert Index(Arr([widget]), 0) == Success(widget);
    assert Member(widget, "request") == Success(req);
    assert Member(widget, "token") == Success(token);
    assert Prop(CatsQuery, "category") == Num(0) && Prop(CatsQuery, "hl") == Str("en-US");
    var categoryOnly := Obj(map["category" := Num(0)]);
    var withCategory := Obj(map["requestOptions" := categoryOnly]);
    assert Member(req, "requestOptions") == Success(Obj(map[]));
    assert SetMember(Obj(map[]), "category", Num(0)) == Success(categoryOnly);
    assert req.fields["requestOptions" := categoryOnly] == withCategory.fields;
    assert SetNestedMember(req, "requestOptions", "category", Num(0)) == Success(withCategory);
    var options := Obj(map["category" := Num(0), "property" := Str("")]);
    var echoed := Obj(map["requestOptions" := options]);
    assert Member(withCategory, "requestOptions") == Success(Obj(map["category" := Num(0)]));
    assert SetMember(Obj(map["category" := Num(0)]), "property", Str("")) == Success(options);
    assert withCategory.fields["requestOptions" := options] == echoed.fields;
    assert SetNestedMember(withCategory, "requestOptions", "property", Str("")) == Success(echoed);
    assert Overridden(req, "", Num(0)) == Success(echoed);
  }

  /** `getResults(request)(searchType, obj)`. `sent` lists the requests
      handed to the transport, in order; `outcome` is what the returned
      promise settles to. The query itself is only read. */
  method GetResults(transport: Options -> Result<string, string>, parse: string -> Option<Value>,
                    stringify: Value -> string, encode: Value -> Option<string>,
                    searchType: string, obj: JsObject)
    returns (outcome: Result<string, Fault>, sent: seq<Options>)
    ensures match Plan(obj.props, searchType, encode)
      case Failure(f) => outcome == Failure(f) && sent == []
      case Success(entry) =>
        && 1 <= |sent| <= 2
        && sent[0] == ExploreOptions(obj.props, stringify)
        && match transport(sent[0])
           case Failure(cause) => outcome == Failure(TransportError(cause)) && |sent| == 1
           case Success(results) =>
             match DataStep(obj.props, entry, results, parse, stringify)
             case Failure(f) => outcome == Failure(f) && |sent| == 1
             case Success(next) =>
               && |sent| == 2 && sent[1] == next
               && match transport(next)
                  case Failure(cause) => outcome == Failure(TransportError(cause))
                  case Success(res) => outcome == Success(DataBody(res, parse, stringify))
  {
    var table := Table(obj.props, encode);
    if table.Failure? {
      return Failure(table.error), [];
    }
    var options := ExploreOptions(obj.props, stringify);
    if searchType !in table.value {
      return Failure(UnknownAnalysisType(searchType)), [];
    }
    var entry := table.value[searchType];
    sent := [options];
    var first := transport(options);
    if first.Failure? {
      return Failure(TransportError(first.error)), sent;
    }
    var step := PrepareDataRequest(obj, entry, first.value, parse, stringify);
    if step.Failure? {
      return Failure(step.error), sent;
    }
    var next := step.value;
    sent := sent + [next];
    var second := transport(next);
    if second.Failure? {
      return Failure(TransportError(second.error)), sent;
    }
    outcome := Success(DataBody(second.value, parse, stringify));
  }
}
