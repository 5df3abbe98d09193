/** FindTweetState and ReverseCoordinates: the state of a tweet is the first state, in
    list order, whose shape contains the tweet's location with its axes swapped.
    Shape containment is NetTopologySuite's `MultiPolygon.Contains`, supplied as the
    `contains` parameter and left uninterpreted. */
module Locator {
  import opened Options
  import opened Records

  /** ReverseCoordinates: the point with X and Y exchanged; doing it twice gives the
      point back. */
  function ReverseCoordinates(p: Point): (r: Point)
    ensures r.x == p.y && r.y == p.x
    ensures Point(r.y, r.x) == p
  {
    Point(p.y, p.x)
  }

  /** The index of the first state whose shape contains `p`. */
  function FirstContaining(contains: (MultiPolygon, Point) -> bool, states: seq<State>, p: Point): (r: Option<nat>)
    ensures r.Some? ==> r.value < |states|
    decreases |states|
  {
    if |states| == 0 then None
    else if contains(states[0].shape, p) then Some(0)
    else
      match FirstContaining(contains, states[1..], p)
      case Some(j) => Some(j + 1)
      case None => None
  }

  /** The index found is that of a state containing the point with no earlier state
      containing it; there is none exactly when no state contains the point. */
  lemma {:induction false} FirstContainingIsFirst(contains: (MultiPolygon, Point) -> bool, states: seq<State>, p: Point)
    ensures var r := FirstContaining(contains, states, p);
            && (r.Some? ==> r.value < |states| && contains(states[r.value].shape, p))
            && (r.Some? ==> forall j :: 0 <= j < r.value ==> !contains(states[j].shape, p))
            && (r.None? <==> forall j :: 0 <= j < |states| ==> !contains(states[j].shape, p))
    decreases |states|
  {
    if |states| > 0 && !contains(states[0].shape, p) {
      FirstContainingIsFirst(contains, states[1..], p);
      assert forall j :: 1 <= j < |states| ==> states[j] == states[1..][j - 1];
    }
  }

  /** FindTweetState: `null` (None) when no state contains the location with its axes
      swapped, else the first state that does. */
  function FindTweetState(contains: (MultiPolygon, Point) -> bool, tweet: Tweet, states: seq<State>): (r: Option<State>)
    ensures r.Some? ==> r.value in states && contains(r.value.shape, ReverseCoordinates(tweet.location))
  {
    FirstContainingIsFirst(contains, states, ReverseCoordinates(tweet.location));
    match FirstContaining(contains, states, ReverseCoordinates(tweet.location))
    case Some(i) => Some(states[i])
    case None => None
  }

  /** `null` exactly when no state contains the swapped location; otherwise a listed state
      that contains it, with no earlier state containing it. */
  lemma FindTweetStateIsFirst(contains: (MultiPolygon, Point) -> bool, tweet: Tweet, states: seq<State>)
    ensures FindTweetState(contains, tweet, states).None? <==>
              forall j :: 0 <= j < |states| ==> !contains(states[j].shape, ReverseCoordinates(tweet.location))
    ensures FindTweetState(contains, tweet, states).Some? ==>
              exists i :: 0 <= i < |states| && states[i] == FindTweetState(contains, tweet, states).value
                && contains(states[i].shape, ReverseCoordinates(tweet.location))
                && forall j :: 0 <= j < i ==> !contains(states[j].shape, ReverseCoordinates(tweet.location))
  {
    FirstContainingIsFirst(contains, states, ReverseCoordinates(tweet.location));
  }

  /** The list order breaks ties: a state that contains the point wins over every later
      one, and a state in front that does not contain it changes nothing. */
  lemma FindTweetStateOrder(contains: (MultiPolygon, Point) -> bool, tweet: Tweet, s: State, states: seq<State>)
    ensures contains(s.shape, ReverseCoordinates(tweet.location)) ==>
              FindTweetState(contains, tweet, [s] + states) == Some(s)
    ensures !contains(s.shape, ReverseCoordinates(tweet.location)) ==>
              FindTweetState(contains, tweet, [s] + states) == FindTweetState(contains, tweet, states)
  {
    assert ([s] + states)[1..] == states;
  }
}
