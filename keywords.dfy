/** `formatKeywords` (src/utilities.js lines 112-128): the comparison items
    of a query, one per keyword. */
module Keywords {
  import opened JsValues

  /** The items a `reduce` over `keywords` pushes: for each keyword, in
      order, a shallow copy of the query whose `keyword` is that one. */
  function Expand(props: map<string, Value>, keywords: seq<Value>): (items: seq<Value>)
    ensures |items| == |keywords|
    ensures forall i :: 0 <= i < |keywords| ==> items[i] == Obj(props["keyword" := keywords[i]])
  {
    if keywords == [] then []
    else Expand(props, keywords[..|keywords| - 1]) + [Obj(props["keyword" := keywords[|keywords| - 1]])]
  }

  /** The comparison items of a query: the expansion of an array `keyword`,
      and otherwise the query itself as the only item. */
  function ComparisonItems(props: map<string, Value>): (items: seq<Value>)
    ensures Prop(props, "keyword").Arr? ==> |items| == |Prop(props, "keyword").elems|
    ensures !Prop(props, "keyword").Arr? ==> items == [Obj(props)]
  {
    var keyword := Prop(props, "keyword");
    if keyword.Arr? then Expand(props, keyword.elems) else [Obj(props)]
  }

  /** `formatKeywords(obj)`. It reads the query and changes nothing: each
      item is a new object. */
  method FormatKeywords(obj: JsObject) returns (items: seq<Value>)
    ensures items == ComparisonItems(obj.props)
  {
    var keyword := Prop(obj.props, "keyword");
    if keyword.Arr? {
      var arr: seq<Value> := [];
      var i := 0;
      while i < |keyword.elems|
        invariant 0 <= i <= |keyword.elems|
        invariant arr == Expand(obj.props, keyword.elems[..i])
      {
        arr := arr + [Obj(obj.props["keyword" := keyword.elems[i]])];
        i := i + 1;
        assert keyword.elems[..i][..i - 1] == keyword.elems[..i - 1];
      }
      assert keyword.elems[..i] == keyword.elems;
      items := arr;
    } else {
      items := [Obj(obj.props)];
    }
  }

  /** Item `i` of an array query carries keyword `i`, and every other field,
      and no other, of the query. */
  lemma {:induction false} ItemCopiesQuery(props: map<string, Value>, i: int)
    requires Prop(props, "keyword").Arr?
    requires 0 <= i < |Prop(props, "keyword").elems|
    ensures var item := ComparisonItems(props)[i];
      && item.Obj?
      && item.fields.Keys == props.Keys
      && item.fields["keyword"] == props["keyword"].elems[i]
      && (forall k :: k in props && k != "keyword" ==> item.fields[k] == props[k])
  {
    var keywords := props["keyword"].elems;
    assert ComparisonItems(props) == Expand(props, keywords);
    assert ComparisonItems(props)[i] == Obj(props["keyword" := keywords[i]]);
  }

  /** Splitting the keyword list splits the items the same way. */
  lemma {:induction false} ExpandAppend(props: map<string, Value>, a: seq<Value>, b: seq<Value>)
    ensures Expand(props, a + b) == Expand(props, a) + Expand(props, b)
  {
    var x, y, z := Expand(props, a + b), Expand(props, a), Expand(props, b);
    assert |x| == |y + z|;
    forall i | 0 <= i < |x| ensures x[i] == (y + z)[i] {
      if i < |a| {
        assert (a + b)[i] == a[i];
      } else {
        assert (a + b)[i] == b[i - |a|];
      }
    }
  }
}
