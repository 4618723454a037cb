/** The guard prefixes Google puts in front of its JSON answers, and the two
    places that strip them: `parseResults` (src/utilities.js lines 94-105)
    and the last step of `getResults` (lines 199-209). `JSON.parse` and
    `JSON.stringify` are parameters: `parse` gives `None` where the real one
    throws a SyntaxError. */
module Payload {
  import opened Outcomes
  import opened JsValues

  /** How many characters of guard each step drops: four from the explore
      answer, five from the data answer. */
  const ExploreGuardLength: nat := 4
  const DataGuardLength: nat := 5

  /** `s.slice(n)` for a non-negative `n`. */
  function DropPrefix(s: string, n: nat): (r: string)
    ensures |s| <= n ==> r == ""
    ensures |s| > n ==> |r| == |s| - n && s == s[..n] + r
  {
    if |s| <= n then "" else s[n..]
  }

  /** `parseResults(results)`: the `widgets` of what the text after the
      guard parses to. A parse failure, and reading `widgets` of a `null`
      payload, both raise an error that carries the unmodified text. */
  function ParseResults(results: string, parse: string -> Option<Value>): (r: Result<Value, Fault>)
    ensures var p := parse(DropPrefix(results, ExploreGuardLength));
      && (r.Failure? <==> p.None? || Nullish(p.value))
      && (r.Failure? ==> r.error == PayloadError(results))
      && (r.Success? && p.value.Obj? ==> r.value == Prop(p.value.fields, "widgets"))
      && (r.Success? && !p.value.Obj? ==> r.value == Undefined)
  {
    match parse(DropPrefix(results, ExploreGuardLength))
    case None => Failure(PayloadError(results))
    case Some(payload) =>
      match Member(payload, "widgets")
      case Failure(_) => Failure(PayloadError(results))
      case Success(widgets) => Success(widgets)
  }

  /** The last step of `getResults`: the text after the five-character guard,
      parsed and serialised again; the answer itself when it does not parse. */
  function DataBody(res: string, parse: string -> Option<Value>, stringify: Value -> string): (r: string)
    ensures var p := parse(DropPrefix(res, DataGuardLength));
      && (p.None? ==> r == res)
      && (p.Some? ==> r == stringify(p.value))
  {
    match parse(DropPrefix(res, DataGuardLength))
    case None => res
    case Some(v) => stringify(v)
  }

  /** Whatever four characters guard a serialised explore answer, the
      widgets come back out. */
  lemma ParseResultsRoundTrip(guard: string, widgets: Value,
                              parse: string -> Option<Value>, stringify: Value -> string)
    requires |guard| == ExploreGuardLength
    requires parse(stringify(Obj(map["widgets" := widgets]))) == Some(Obj(map["widgets" := widgets]))
    ensures ParseResults(guard + stringify(Obj(map["widgets" := widgets])), parse) == Success(widgets)
  {
    var text := stringify(Obj(map["widgets" := widgets]));
    assert DropPrefix(guard + text, ExploreGuardLength) == text by {
      if |text| == 0 {
        assert guard + text == guard;
      } else {
        assert (guard + text)[ExploreGuardLength..] == text;
      }
    }
  }

  /** Whatever five characters guard a serialised data answer, the step
      gives back the serialisation of the value. */
  lemma DataBodyRoundTrip(guard: string, v: Value,
                          parse: string -> Option<Value>, stringify: Value -> string)
    requires |guard| == DataGuardLength
    requires parse(stringify(v)) == Some(v)
    ensures DataBody(guard + stringify(v), parse, stringify) == stringify(v)
  {
    var text := stringify(v);
    assert DropPrefix(guard + text, DataGuardLength) == text by {
      if |text| == 0 {
        assert guard + text == guard;
      } else {
        assert (guard + text)[DataGuardLength..] == text;
      }
    }
  }

  /** The error raised by `parseResults` carries the whole answer, guard
      included, whatever went wrong. */
  lemma ParseFailureKeepsBody(results: string, parse: string -> Option<Value>)
    requires parse(DropPrefix(results, ExploreGuardLength)).None?
      || parse(DropPrefix(results, ExploreGuardLength)) == Some(Null)
    ensures ParseResults(results, parse) == Failure(PayloadError(results))
  {
  }

  /** A data answer whose text after the guard does not parse comes back
      unaltered, guard and all. */
  lemma DataBodyFallback(res: string, parse: string -> Option<Value>, stringify: Value -> string)
    requires parse(DropPrefix(res, DataGuardLength)).None?
    ensures DataBody(res, parse, stringify) == res
  {
  }
}
