/** LoadStates: the states file is a JSON object whose property names are postal codes
    and whose values are coordinate arrays. Each property whose value decodes becomes a
    state, in document order; one that does not decode is skipped. */
module StateLoader {
  import opened Options
  import opened Records
  import opened NestedLists
  import opened Rings
  import opened Lists

  /** The state one property gives: none when its value does not decode. */
  function PropertyStates(narrow: real -> real, prop: Property): (r: seq<State>)
    ensures |r| <= 1
  {
    match TryParseNestedLists(narrow, prop.value)
    case Some(data) => [State(prop.name, ConvertToMultiPolygon(data))]
    case None => []
  }

  /** The property decoder with its number conversion fixed. */
  function PropertyLoader(narrow: real -> real): Property -> seq<State> {
    prop => PropertyStates(narrow, prop)
  }

  /** The states of a JSON object's properties, in document order. */
  function StatesOf(narrow: real -> real, props: seq<Property>): (r: seq<State>)
    ensures |r| <= |props|
  {
    FlatMap(PropertyLoader(narrow), props)
  }

  /** The number of properties whose value has a decodable shape. */
  function WellShapedCount(props: seq<Property>): nat
    decreases |props|
  {
    if |props| == 0 then 0 else (if WellShaped(props[0].value) then 1 else 0) + WellShapedCount(props[1..])
  }

  /** Exactly the well-shaped properties become states. */
  lemma {:induction false} StatesOfCount(narrow: real -> real, props: seq<Property>)
    ensures |StatesOf(narrow, props)| == WellShapedCount(props)
    decreases |props|
  {
    if |props| > 0 {
      StatesOfCons(narrow, props);
      StatesOfCount(narrow, props[1..]);
    }
  }

  /** Each state is named after a property whose value decoded, and its shape is the
      multipolygon of that decoded value. */
  lemma {:induction false} StatesOfOrigin(narrow: real -> real, props: seq<Property>, k: nat)
    requires k < |StatesOf(narrow, props)|
    ensures exists j :: 0 <= j < |props|
              && StatesOf(narrow, props)[k].postalCode == props[j].name
              && TryParseNestedLists(narrow, props[j].value).Some?
              && StatesOf(narrow, props)[k].shape == ConvertToMultiPolygon(TryParseNestedLists(narrow, props[j].value).value)
    decreases |props|
  {
    var rest := props[1..];
    var first := PropertyStates(narrow, props[0]);
    StatesOfCons(narrow, props);
    if k < |first| {
      assert StatesOf(narrow, props)[k] == first[k];
      assert TryParseNestedLists(narrow, props[0].value).Some?;
    } else {
      var k' := k - |first|;
      assert StatesOf(narrow, props)[k] == StatesOf(narrow, rest)[k'];
      StatesOfOrigin(narrow, rest, k');
      var j :| 0 <= j < |rest|
        && StatesOf(narrow, rest)[k'].postalCode == rest[j].name
        && TryParseNestedLists(narrow, rest[j].value).Some?
        && StatesOf(narrow, rest)[k'].shape == ConvertToMultiPolygon(TryParseNestedLists(narrow, rest[j].value).value);
      assert props[j + 1] == rest[j];
    }
  }

  /** The states keep the document order of their properties. */
  lemma StatesOfAppend(narrow: real -> real, a: seq<Property>, b: seq<Property>)
    ensures StatesOf(narrow, a + b) == StatesOf(narrow, a) + StatesOf(narrow, b)
  {
    FlatMapAppend(PropertyLoader(narrow), a, b);
  }

  /** The first property contributes its own state, if any, in front of the rest. */
  lemma StatesOfCons(narrow: real -> real, props: seq<Property>)
    requires |props| > 0
    ensures StatesOf(narrow, props) == PropertyStates(narrow, props[0]) + StatesOf(narrow, props[1..])
  {
  }

  /** The states of a parsed document. EnumerateObject throws unless the root is an
      object; that failure is None. */
  function LoadStatesFromRoot(narrow: real -> real, root: Json): (r: Option<seq<State>>)
    ensures r.None? <==> !root.JObject?
    ensures r.Some? ==> |r.value| <= |root.props| && |r.value| == WellShapedCount(root.props)
  {
    if root.JObject? then
      StatesOfCount(narrow, root.props);
      Some(StatesOf(narrow, root.props))
    else None
  }

  /** LoadStates: a file that does not exist (None) gives no states; an existing file
      gives the states of its document, or fails when its root is not an object. */
  function LoadStates(narrow: real -> real, file: Option<Json>): (r: Option<seq<State>>)
    ensures file.None? ==> r == Some([])
    ensures r.None? <==> file.Some? && !file.value.JObject?
    ensures r.Some? && file.Some? ==> |r.value| == WellShapedCount(file.value.props)
  {
    match file
    case None => Some([])
    case Some(root) => LoadStatesFromRoot(narrow, root)
  }
}
