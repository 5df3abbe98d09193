/** TryParseNestedLists: decodes a state's coordinates, a JSON array nested three or
    four deep, into a list of point lists, one per top-level item. Four nested `foreach`
    loops share a result, a polygon and a coordinate buffer, and one `isLevel4` flag that
    is set on the first level-3 array and never cleared. JsonElement.GetSingle, which
    narrows a number to single precision, is supplied as `narrow`. */
module NestedLists {
  import opened Options

  /** A JSON value as System.Text.Json's JsonElement exposes it. */
  datatype Json =
    | JNull
    | JBool(b: bool)
    | JNumber(n: real)
    | JString(s: string)
    | JArray(items: seq<Json>)
    | JObject(props: seq<Property>)

  datatype Property = Property(name: string, value: Json)

  /** List<List<List<double>>>: per top-level item, a list of points, each a list of
      numbers. */
  type Coordinates = seq<seq<seq<real>>>

  /** The decoder's local variables. */
  datatype Acc = Acc(result: Coordinates, polygon: seq<seq<real>>, coordinates: seq<real>, isLevel4: bool)

  /** The level-4 loop: every item must be a number, appended to the buffer. */
  function Level4(narrow: real -> real, items: seq<Json>, acc: Acc): Option<Acc>
    decreases |items|
  {
    if |items| == 0 then Some(acc)
    else if items[0].JNumber? then
      Level4(narrow, items[1..], acc.(coordinates := acc.coordinates + [narrow(items[0].n)]))
    else None
  }

  /** The level-3 loop: an array sets the flag, appends its numbers to the buffer and
      flushes the buffer into the polygon; a number is appended to the buffer; anything
      else fails. */
  function Level3(narrow: real -> real, items: seq<Json>, acc: Acc): Option<Acc>
    decreases |items|
  {
    if |items| == 0 then Some(acc)
    else if items[0].JArray? then
      match Level4(narrow, items[0].items, acc.(isLevel4 := true))
      case None => None
      case Some(a) => Level3(narrow, items[1..], a.(polygon := a.polygon + [a.coordinates], coordinates := []))
    else if items[0].JNumber? then
      Level3(narrow, items[1..], acc.(coordinates := acc.coordinates + [narrow(items[0].n)]))
    else None
  }

  /** The level-2 loop: an array is decoded and, while the flag is clear, the buffer is
      flushed into the polygon; other items are skipped. */
  function Level2(narrow: real -> real, items: seq<Json>, acc: Acc): Option<Acc>
    decreases |items|
  {
    if |items| == 0 then Some(acc)
    else if items[0].JArray? then
      match Level3(narrow, items[0].items, acc)
      case None => None
      case Some(a) =>
        var flushed := if !a.isLevel4 then a.(polygon := a.polygon + [a.coordinates], coordinates := []) else a;
        Level2(narrow, items[1..], flushed)
    else Level2(narrow, items[1..], acc)
  }

  /** The level-1 loop: an array is decoded and its polygon moved into the result; other
      items are skipped. */
  function Level1(narrow: real -> real, items: seq<Json>, acc: Acc): Option<Acc>
    decreases |items|
  {
    if |items| == 0 then Some(acc)
    else if items[0].JArray? then
      match Level2(narrow, items[0].items, acc)
      case None => None
      case Some(a) => Level1(narrow, items[1..], a.(result := a.result + [a.polygon], polygon := []))
    else Level1(narrow, items[1..], acc)
  }

  /** TryParseNestedLists, with None standing for `false`. Decoding fails exactly when the
      element is not an array, a level-4 item is not a number, or a level-3 item is neither
      an array nor a number; on success there is one entry per array-valued top-level item. */
  function TryParseNestedLists(narrow: real -> real, element: Json): (r: Option<Coordinates>)
    ensures r.Some? <==> WellShaped(element)
    ensures r.Some? ==> |r.value| == ArrayCount(element.items)
  {
    if !element.JArray? then None
    else
      Level1SomeIff(narrow, element.items, Acc([], [], [], false));
      match Level1(narrow, element.items, Acc([], [], [], false))
      case Some(a) => Some(a.result)
      case None => None
  }

  // ---------------------------------------------------------------------------
  // When decoding succeeds
  // ---------------------------------------------------------------------------

  predicate NumbersOnly(items: seq<Json>) {
    forall k :: 0 <= k < |items| ==> items[k].JNumber?
  }

  /** Level-3 items are numbers or arrays of numbers. */
  predicate Level3Ok(items: seq<Json>) {
    forall k :: 0 <= k < |items| ==> items[k].JNumber? || (items[k].JArray? && NumbersOnly(items[k].items))
  }

  predicate Level2Ok(items: seq<Json>) {
    forall k :: 0 <= k < |items| ==> items[k].JArray? ==> Level3Ok(items[k].items)
  }

  predicate Level1Ok(items: seq<Json>) {
    forall k :: 0 <= k < |items| ==> items[k].JArray? ==> Level2Ok(items[k].items)
  }

  /** The shapes the decoder accepts: an array whose level-4 items are all numbers and
      whose level-3 items are all numbers or arrays; anything at levels 1 and 2 that is not
      an array is skipped. */
  predicate WellShaped(element: Json) {
    element.JArray? && Level1Ok(element.items)
  }

  lemma {:induction false} Level4SomeIff(narrow: real -> real, items: seq<Json>, acc: Acc)
    ensures Level4(narrow, items, acc).Some? <==> NumbersOnly(items)
    ensures Level4(narrow, items, acc).Some? ==>
              && Level4(narrow, items, acc).value.result == acc.result
              && Level4(narrow, items, acc).value.polygon == acc.polygon
    decreases |items|
  {
    if |items| > 0 && items[0].JNumber? {
      Level4SomeIff(narrow, items[1..], acc.(coordinates := acc.coordinates + [narrow(items[0].n)]));
      assert forall k :: 1 <= k < |items| ==> items[k] == items[1..][k - 1];
    }
  }

  lemma {:induction false} Level3SomeIff(narrow: real -> real, items: seq<Json>, acc: Acc)
    ensures Level3(narrow, items, acc).Some? <==> Level3Ok(items)
    ensures Level3(narrow, items, acc).Some? ==>
              Level3(narrow, items, acc).value.result == acc.result
    decreases |items|
  {
    if |items| > 0 {
      assert forall k :: 1 <= k < |items| ==> items[k] == items[1..][k - 1];
      if items[0].JArray? {
        Level4SomeIff(narrow, items[0].items, acc.(isLevel4 := true));
        match Level4(narrow, items[0].items, acc.(isLevel4 := true))
        case None =>
        case Some(a) =>
          Level3SomeIff(narrow, items[1..], a.(polygon := a.polygon + [a.coordinates], coordinates := []));
      } else if items[0].JNumber? {
        Level3SomeIff(narrow, items[1..], acc.(coordinates := acc.coordinates + [narrow(items[0].n)]));
      }
    }
  }

  lemma {:induction false} Level2SomeIff(narrow: real -> real, items: seq<Json>, acc: Acc)
    ensures Level2(narrow, items, acc).Some? <==> Level2Ok(items)
    ensures Level2(narrow, items, acc).Some? ==>
              Level2(narrow, items, acc).value.result == acc.result
    decreases |items|
  {
    if |items| > 0 {
      assert forall k :: 1 <= k < |items| ==> items[k] == items[1..][k - 1];
      if items[0].JArray? {
        Level3SomeIff(narrow, items[0].items, acc);
        match Level3(narrow, items[0].items, acc)
        case None =>
        case Some(a) =>
          var flushed := if !a.isLevel4 then a.(polygon := a.polygon + [a.coordinates], coordinates := []) else a;
          Level2SomeIff(narrow, items[1..], flushed);
      } else {
        Level2SomeIff(narrow, items[1..], acc);
      }
    }
  }

  /** The number of array items. */
  function ArrayCount(items: seq<Json>): nat
    decreases |items|
  {
    if |items| == 0 then 0 else (if items[0].JArray? then 1 else 0) + ArrayCount(items[1..])
  }

  lemma {:induction false} Level1SomeIff(narrow: real -> real, items: seq<Json>, acc: Acc)
    ensures Level1(narrow, items, acc).Some? <==> Level1Ok(items)
    ensures Level1(narrow, items, acc).Some? ==>
              |Level1(narrow, items, acc).value.result| == |acc.result| + ArrayCount(items)
    decreases |items|
  {
    if |items| > 0 {
      assert forall k :: 1 <= k < |items| ==> items[k] == items[1..][k - 1];
      if items[0].JArray? {
        Level2SomeIff(narrow, items[0].items, acc);
        match Level2(narrow, items[0].items, acc)
        case None =>
        case Some(a) =>
          Level1SomeIff(narrow, items[1..], a.(result := a.result + [a.polygon], polygon := []));
      } else {
        Level1SomeIff(narrow, items[1..], acc);
      }
    }
  }

  // ---------------------------------------------------------------------------
  // What decoding yields
  // ---------------------------------------------------------------------------

  /** The numbers of an all-number array, narrowed. */
  function Numbers(narrow: real -> real, items: seq<Json>): seq<real>
    requires NumbersOnly(items)
    decreases |items|
  {
    if |items| == 0 then [] else [narrow(items[0].n)] + Numbers(narrow, items[1..])
  }

  lemma {:induction false} Level4Numbers(narrow: real -> real, items: seq<Json>, acc: Acc)
    requires NumbersOnly(items)
    ensures Level4(narrow, items, acc) == Some(acc.(coordinates := acc.coordinates + Numbers(narrow, items)))
    decreases |items|
  {
    if |items| > 0 {
      var next := acc.(coordinates := acc.coordinates + [narrow(items[0].n)]);
      Level4Numbers(narrow, items[1..], next);
      assert next.coordinates + Numbers(narrow, items[1..]) == acc.coordinates + Numbers(narrow, items);
    } else {
      assert acc.coordinates + Numbers(narrow, items) == acc.coordinates;
    }
  }

  /** Every item is an array of numbers: a point, in the four-deep form or in the
      three-deep form. */
  predicate ArraysOfNumbers(items: seq<Json>) {
    forall k :: 0 <= k < |items| ==> items[k].JArray? && NumbersOnly(items[k].items)
  }

  /** One point per array, in order. */
  function Points(narrow: real -> real, items: seq<Json>): seq<seq<real>>
    requires ArraysOfNumbers(items)
    decreases |items|
  {
    if |items| == 0 then [] else [Numbers(narrow, items[0].items)] + Points(narrow, items[1..])
  }

  lemma {:induction false} Level3Points(narrow: real -> real, items: seq<Json>, acc: Acc)
    requires ArraysOfNumbers(items)
    requires acc.coordinates == []
    ensures Level3(narrow, items, acc) ==
              Some(acc.(polygon := acc.polygon + Points(narrow, items), isLevel4 := acc.isLevel4 || |items| > 0))
    decreases |items|
  {
    if |items| > 0 {
      var a := acc.(isLevel4 := true, coordinates := Numbers(narrow, items[0].items));
      var next := a.(polygon := a.polygon + [a.coordinates], coordinates := []);
      assert Level3(narrow, items, acc) == Level3(narrow, items[1..], next) by {
        Level4Numbers(narrow, items[0].items, acc.(isLevel4 := true));
        assert acc.coordinates + Numbers(narrow, items[0].items) == a.coordinates;
        assert Level4(narrow, items[0].items, acc.(isLevel4 := true)) == Some(a);
      }
      assert ArraysOfNumbers(items[1..]) by {
        assert forall k :: 1 <= k < |items| ==> items[k] == items[1..][k - 1];
      }
      Level3Points(narrow, items[1..], next);
      assert next.polygon + Points(narrow, items[1..]) == acc.polygon + Points(narrow, items) by {
        assert Points(narrow, items) == [Numbers(narrow, items[0].items)] + Points(narrow, items[1..]);
      }
    } else {
      assert acc.polygon + Points(narrow, items) == acc.polygon;
    }
  }

  /** A top-level item of the four-deep form: rings given as arrays of points. */
  predicate FourDeep(items: seq<Json>) {
    forall k :: 0 <= k < |items| ==>
      items[k].JArray? && |items[k].items| > 0 && ArraysOfNumbers(items[k].items)
  }

  /** The points of all rings of a four-deep item, one after another. */
  function AllPoints(narrow: real -> real, items: seq<Json>): seq<seq<real>>
    requires FourDeep(items)
    decreases |items|
  {
    if |items| == 0 then [] else Points(narrow, items[0].items) + AllPoints(narrow, items[1..])
  }

  lemma {:induction false} Level2FourDeep(narrow: real -> real, items: seq<Json>, acc: Acc)
    requires FourDeep(items)
    requires acc.coordinates == []
    ensures Level2(narrow, items, acc) ==
              Some(acc.(polygon := acc.polygon + AllPoints(narrow, items), isLevel4 := acc.isLevel4 || |items| > 0))
    decreases |items|
  {
    if |items| > 0 {
      var a := acc.(polygon := acc.polygon + Points(narrow, items[0].items), isLevel4 := true);
      assert Level2(narrow, items, acc) == Level2(narrow, items[1..], a) by {
        Level3Points(narrow, items[0].items, acc);
      }
      assert FourDeep(items[1..]) by {
        assert forall k :: 1 <= k < |items| ==> items[k] == items[1..][k - 1];
      }
      Level2FourDeep(narrow, items[1..], a);
      assert a.polygon + AllPoints(narrow, items[1..]) == acc.polygon + AllPoints(narrow, items) by {
        assert AllPoints(narrow, items) == Points(narrow, items[0].items) + AllPoints(narrow, items[1..]);
      }
    } else {
      assert acc.polygon + AllPoints(narrow, items) == acc.polygon;
    }
  }

  /** Every top-level item is a four-deep array. */
  predicate AllFourDeep(items: seq<Json>) {
    forall k :: 0 <= k < |items| ==> items[k].JArray? && FourDeep(items[k].items)
  }

  /** The decoded entries of four-deep top-level items: each item's points, rings merged. */
  function FourDeepEntries(narrow: real -> real, items: seq<Json>): Coordinates
    requires AllFourDeep(items)
    decreases |items|
  {
    if |items| == 0 then [] else [AllPoints(narrow, items[0].items)] + FourDeepEntries(narrow, items[1..])
  }

  lemma {:induction false} Level1FourDeep(narrow: real -> real, items: seq<Json>, acc: Acc)
    requires AllFourDeep(items)
    requires acc.coordinates == [] && acc.polygon == []
    ensures Level1(narrow, items, acc).Some?
    ensures Level1(narrow, items, acc).value.result == acc.result + FourDeepEntries(narrow, items)
    decreases |items|
  {
    if |items| > 0 {
      var a := acc.(polygon := AllPoints(narrow, items[0].items), isLevel4 := acc.isLevel4 || |items[0].items| > 0);
      var next := a.(result := a.result + [a.polygon], polygon := []);
      assert Level1(narrow, items, acc) == Level1(narrow, items[1..], next) by {
        Level2FourDeep(narrow, items[0].items, acc);
        assert acc.polygon + AllPoints(narrow, items[0].items) == a.polygon;
        assert Level2(narrow, items[0].items, acc) == Some(a);
      }
      assert AllFourDeep(items[1..]) by {
        assert forall k :: 1 <= k < |items| ==> items[k] == items[1..][k - 1];
      }
      Level1FourDeep(narrow, items[1..], next);
      assert next.result + FourDeepEntries(narrow, items[1..]) == acc.result + FourDeepEntries(narrow, items) by {
        assert FourDeepEntries(narrow, items) == [AllPoints(narrow, items[0].items)] + FourDeepEntries(narrow, items[1..]);
      }
    } else {
      assert acc.result + FourDeepEntries(narrow, items) == acc.result;
    }
  }

  /** With four-deep nesting, each top-level item becomes one list holding the points of
      all its rings one after another: holes are merged into the shell's list. */
  lemma FourDeepMergesRings(narrow: real -> real, items: seq<Json>)
    requires AllFourDeep(items)
    ensures TryParseNestedLists(narrow, JArray(items)) == Some(FourDeepEntries(narrow, items))
  {
    Level1FourDeep(narrow, items, Acc([], [], [], false));
    assert [] + FourDeepEntries(narrow, items) == FourDeepEntries(narrow, items);
  }

  /** Three-deep items: each top-level item is a ring, an array of points, each point an
      array of numbers. */
  predicate AllThreeDeep(items: seq<Json>) {
    forall k :: 0 <= k < |items| ==> items[k].JArray? && ArraysOfNumbers(items[k].items)
  }

  /** The decoded entries of three-deep items: each point's numbers become one list, and
      each top-level item becomes its list of points. */
  function ThreeDeepEntries(narrow: real -> real, items: seq<Json>): Coordinates
    requires AllThreeDeep(items)
    decreases |items|
  {
    if |items| == 0 then [] else [Points(narrow, items[0].items)] + ThreeDeepEntries(narrow, items[1..])
  }

  lemma {:induction false} Level2ThreeDeep(narrow: real -> real, items: seq<Json>, acc: Acc)
    requires ArraysOfNumbers(items)
    requires acc.coordinates == [] && !acc.isLevel4
    ensures Level2(narrow, items, acc) == Some(acc.(polygon := acc.polygon + Points(narrow, items)))
    decreases |items|
  {
    if |items| > 0 {
      var point := items[0].items;
      var a := acc.(polygon := acc.polygon + [Numbers(narrow, point)]);
      assert Level2(narrow, items, acc) == Level2(narrow, items[1..], a) by {
        Level3Numbers(narrow, point, acc);
        var filled := acc.(coordinates := Numbers(narrow, point));
        assert acc.coordinates + Numbers(narrow, point) == filled.coordinates;
        assert Level3(narrow, point, acc) == Some(filled);
        assert filled.(polygon := filled.polygon + [filled.coordinates], coordinates := []) == a;
      }
      assert ArraysOfNumbers(items[1..]) by {
        assert forall k :: 1 <= k < |items| ==> items[k] == items[1..][k - 1];
      }
      Level2ThreeDeep(narrow, items[1..], a);
      assert a.polygon + Points(narrow, items[1..]) == acc.polygon + Points(narrow, items) by {
        assert Points(narrow, items) == [Numbers(narrow, point)] + Points(narrow, items[1..]);
      }
    } else {
      assert acc.polygon + Points(narrow, items) == acc.polygon;
    }
  }

  lemma {:induction false} Level3Numbers(narrow: real -> real, items: seq<Json>, acc: Acc)
    requires NumbersOnly(items)
    ensures Level3(narrow, items, acc) == Some(acc.(coordinates := acc.coordinates + Numbers(narrow, items)))
    decreases |items|
  {
    if |items| > 0 {
      var next := acc.(coordinates := acc.coordinates + [narrow(items[0].n)]);
      Level3Numbers(narrow, items[1..], next);
      assert next.coordinates + Numbers(narrow, items[1..]) == acc.coordinates + Numbers(narrow, items);
    } else {
      assert acc.coordinates + Numbers(narrow, items) == acc.coordinates;
    }
  }

  lemma {:induction false} Level1ThreeDeep(narrow: real -> real, items: seq<Json>, acc: Acc)
    requires AllThreeDeep(items)
    requires acc.coordinates == [] && acc.polygon == [] && !acc.isLevel4
    ensures Level1(narrow, items, acc).Some?
    ensures Level1(narrow, items, acc).value.result == acc.result + ThreeDeepEntries(narrow, items)
    decreases |items|
  {
    if |items| > 0 {
      var a := acc.(polygon := Points(narrow, items[0].items));
      var next := a.(result := a.result + [a.polygon], polygon := []);
      assert Level1(narrow, items, acc) == Level1(narrow, items[1..], next) by {
        Level2ThreeDeep(narrow, items[0].items, acc);
        assert acc.polygon + Points(narrow, items[0].items) == a.polygon;
        assert Level2(narrow, items[0].items, acc) == Some(a);
      }
      assert AllThreeDeep(items[1..]) by {
        assert forall k :: 1 <= k < |items| ==> items[k] == items[1..][k - 1];
      }
      Level1ThreeDeep(narrow, items[1..], next);
      assert next.result + ThreeDeepEntries(narrow, items[1..]) == acc.result + ThreeDeepEntries(narrow, items) by {
        assert ThreeDeepEntries(narrow, items) == [Points(narrow, items[0].items)] + ThreeDeepEntries(narrow, items[1..]);
      }
    } else {
      assert acc.result + ThreeDeepEntries(narrow, items) == acc.result;
    }
  }

  /** With three-deep nesting throughout, each point's numbers become one list, and each
      top-level item becomes its list of points. */
  lemma ThreeDeepKeepsPoints(narrow: real -> real, items: seq<Json>)
    requires AllThreeDeep(items)
    ensures TryParseNestedLists(narrow, JArray(items)) == Some(ThreeDeepEntries(narrow, items))
  {
    Level1ThreeDeep(narrow, items, Acc([], [], [], false));
    assert [] + ThreeDeepEntries(narrow, items) == ThreeDeepEntries(narrow, items);
  }
}
