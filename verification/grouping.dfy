/** GroupTweetsByState and CalculateStateSentiment. The source groups with a parallel
    loop under a lock, so the order inside a group is not fixed; the model runs the loop
    sequentially and states the grouping up to order, with multisets and counts. */
module Grouping {
  import opened Options
  import opened Stats
  import opened Records
  import opened Locator
  import opened Lists

  /** Tweet lists by postal code; .NET's default (ordinal) string comparer, so keys
      are compared exactly. */
  type Groups = map<string, seq<Tweet>>

  /** The postal code of the state FindTweetState finds for the tweet, if any. */
  function Locate(contains: (MultiPolygon, Point) -> bool, tweet: Tweet, states: seq<State>): Option<string> {
    match FindTweetState(contains, tweet, states)
    case Some(s) => Some(s.postalCode)
    case None => None
  }

  /** The tweets located in the state with postal code `code`, in input order. */
  function LocatedAt(contains: (MultiPolygon, Point) -> bool, tweets: seq<Tweet>, states: seq<State>, code: string): seq<Tweet>
    decreases |tweets|
  {
    if |tweets| == 0 then []
    else
      var last := tweets[|tweets| - 1];
      LocatedAt(contains, tweets[..|tweets| - 1], states, code)
        + (if Locate(contains, last, states) == Some(code) then [last] else [])
  }

  /** The tweets no state contains, in input order. */
  function Unlocated(contains: (MultiPolygon, Point) -> bool, tweets: seq<Tweet>, states: seq<State>): seq<Tweet>
    decreases |tweets|
  {
    if |tweets| == 0 then []
    else
      var last := tweets[|tweets| - 1];
      Unlocated(contains, tweets[..|tweets| - 1], states)
        + (if Locate(contains, last, states).None? then [last] else [])
  }

  /** The body of the lock: create the list on first use, then append the tweet. */
  function AddToGroup(g: Groups, code: string, tweet: Tweet): Groups {
    g[code := (if code in g then g[code] else []) + [tweet]]
  }

  /** GroupTweetsByState, the loop run sequentially: locate each tweet and append it to
      its state's list. */
  function GroupTweetsByState(contains: (MultiPolygon, Point) -> bool, tweets: seq<Tweet>, states: seq<State>): (g: Groups)
    ensures forall code :: code in g ==> |g[code]| > 0
    decreases |tweets|
  {
    if |tweets| == 0 then map[]
    else
      var last := tweets[|tweets| - 1];
      var g := GroupTweetsByState(contains, tweets[..|tweets| - 1], states);
      match Locate(contains, last, states)
      case Some(code) => AddToGroup(g, code, last)
      case None => g
  }

  /** The keys are exactly the postal codes of the located tweets. */
  lemma {:induction false} GroupKeysAreLocatedCodes(contains: (MultiPolygon, Point) -> bool, tweets: seq<Tweet>, states: seq<State>, code: string)
    ensures code in GroupTweetsByState(contains, tweets, states) <==>
              exists k :: 0 <= k < |tweets| && Locate(contains, tweets[k], states) == Some(code)
    decreases |tweets|
  {
    if |tweets| > 0 {
      var prefix := tweets[..|tweets| - 1];
      var last := tweets[|tweets| - 1];
      GroupKeysAreLocatedCodes(contains, prefix, states, code);
      assert code in GroupTweetsByState(contains, tweets, states) <==>
               code in GroupTweetsByState(contains, prefix, states) || Locate(contains, last, states) == Some(code);
      if k :| 0 <= k < |tweets| && Locate(contains, tweets[k], states) == Some(code) {
        if k < |prefix| {
          assert prefix[k] == tweets[k];
        }
      }
      if k :| 0 <= k < |prefix| && Locate(contains, prefix[k], states) == Some(code) {
        assert tweets[k] == prefix[k];
      }
    }
  }

  /** Each group holds, up to order, exactly the tweets located in its state; so no
      group is empty, and a tweet appears in its group as often as in the input. */
  lemma {:induction false} GroupsHoldLocatedTweets(contains: (MultiPolygon, Point) -> bool, tweets: seq<Tweet>, states: seq<State>, code: string)
    ensures code in GroupTweetsByState(contains, tweets, states) ==>
              && multiset(GroupTweetsByState(contains, tweets, states)[code]) == multiset(LocatedAt(contains, tweets, states, code))
              && |GroupTweetsByState(contains, tweets, states)[code]| > 0
    ensures code !in GroupTweetsByState(contains, tweets, states) ==> LocatedAt(contains, tweets, states, code) == []
    decreases |tweets|
  {
    if |tweets| > 0 {
      var prefix := tweets[..|tweets| - 1];
      GroupsHoldLocatedTweets(contains, prefix, states, code);
    }
  }

  // ---------------------------------------------------------------------------
  // Conservation
  // ---------------------------------------------------------------------------

  /** The number of tweets held in all groups together. */
  ghost function TotalSize(g: Groups): nat
    decreases |g.Keys|
  {
    if g == map[] then 0
    else
      var c :| c in g;
      |g[c]| + TotalSize(g - {c})
  }

  lemma {:induction false} TotalSizeRemove(g: Groups, c: string)
    requires c in g
    ensures TotalSize(g) == |g[c]| + TotalSize(g - {c})
    decreases |g.Keys|
  {
    var d :| d in g && TotalSize(g) == |g[d]| + TotalSize(g - {d});
    if d != c {
      assert |(g - {d}).Keys| < |g.Keys| by {
        assert g.Keys == (g - {d}).Keys + {d};
      }
      TotalSizeRemove(g - {d}, c);
      assert |(g - {c}).Keys| < |g.Keys| by {
        assert g.Keys == (g - {c}).Keys + {c};
      }
      TotalSizeRemove(g - {c}, d);
      assert (g - {d}) - {c} == (g - {c}) - {d};
    }
  }

  /** Appending a tweet to one group adds one to the total. */
  lemma AddToGroupTotal(g: Groups, code: string, tweet: Tweet)
    ensures TotalSize(AddToGroup(g, code, tweet)) == TotalSize(g) + 1
  {
    var h := AddToGroup(g, code, tweet);
    TotalSizeRemove(h, code);
    if code in g {
      TotalSizeRemove(g, code);
      assert h - {code} == g - {code};
    } else {
      assert h - {code} == g;
    }
  }

  /** Every tweet ends up either in exactly one group or among the unlocated ones: the
      group sizes plus the unlocated count make up the whole input. */
  lemma {:induction false} GroupingConservesTweets(contains: (MultiPolygon, Point) -> bool, tweets: seq<Tweet>, states: seq<State>)
    ensures TotalSize(GroupTweetsByState(contains, tweets, states)) + |Unlocated(contains, tweets, states)| == |tweets|
    decreases |tweets|
  {
    if |tweets| > 0 {
      var prefix := tweets[..|tweets| - 1];
      var last := tweets[|tweets| - 1];
      GroupingConservesTweets(contains, prefix, states);
      var g := GroupTweetsByState(contains, prefix, states);
      match Locate(contains, last, states)
      case Some(code) =>
        AddToGroupTotal(g, code, last);
      case None =>
    }
  }

  // ---------------------------------------------------------------------------
  // CalculateStateSentiment
  // ---------------------------------------------------------------------------

  /** A tweet's sentiment, if it has one. */
  function SentimentOf(t: Tweet): (r: seq<real>)
    ensures |r| <= 1
  {
    if t.sentiment.Some? then [t.sentiment.value] else []
  }

  /** The defined sentiments of a group, in order: Where(HasValue).Select(Value). */
  function Defined(ts: seq<Tweet>): seq<real> {
    FlatMap(SentimentOf, ts)
  }

  /** A state's sentiment: None exactly when no tweet of the group has a sentiment, else
      the mean of the defined sentiments, between the smallest and the largest of them. */
  function StateMean(ts: seq<Tweet>): (r: Option<real>)
    ensures r.None? <==> forall k :: 0 <= k < |ts| ==> ts[k].sentiment.None?
    ensures r.Some? ==> |Defined(ts)| > 0 && MinOf(Defined(ts)) <= r.value <= MaxOf(Defined(ts))
  {
    DefinedEmptyIff(ts);
    var s := Defined(ts);
    if |s| == 0 then None else MeanBetweenMinAndMax(s); Some(Mean(s))
  }

  /** A group has no defined sentiment exactly when none of its tweets has one. */
  lemma {:induction false} DefinedEmptyIff(ts: seq<Tweet>)
    ensures |Defined(ts)| == 0 <==> forall k :: 0 <= k < |ts| ==> ts[k].sentiment.None?
    decreases |ts|
  {
    if |ts| > 0 {
      assert forall k :: 1 <= k < |ts| ==> ts[k] == ts[1..][k - 1];
      DefinedEmptyIff(ts[1..]);
      assert Defined(ts) == SentimentOf(ts[0]) + Defined(ts[1..]);
    }
  }

  /** CalculateStateSentiment: the same keys as the groups, each with its state's mean. */
  method CalculateStateSentiment(tweetsByState: Groups) returns (stateSentiments: map<string, Option<real>>)
    ensures stateSentiments.Keys == tweetsByState.Keys
    ensures forall code :: code in stateSentiments ==> stateSentiments[code] == StateMean(tweetsByState[code])
  {
    stateSentiments := map[];
    var remaining := tweetsByState.Keys;
    while remaining != {}
      invariant remaining <= tweetsByState.Keys
      invariant stateSentiments.Keys == tweetsByState.Keys - remaining
      invariant forall code :: code in stateSentiments ==> stateSentiments[code] == StateMean(tweetsByState[code])
      decreases |remaining|
    {
      var code :| code in remaining;
      var sentiments := Defined(tweetsByState[code]);
      if |sentiments| > 0 {
        stateSentiments := stateSentiments[code := Some(Mean(sentiments))];
      } else {
        stateSentiments := stateSentiments[code := None];
      }
      remaining := remaining - {code};
    }
  }

  /** Defined distributes over concatenation. */
  lemma DefinedAppend(ts: seq<Tweet>, us: seq<Tweet>)
    ensures Defined(ts + us) == Defined(ts) + Defined(us)
  {
    FlatMapAppend(SentimentOf, ts, us);
  }

  /** Reordering a group reorders its defined sentiments. */
  lemma {:induction false} DefinedPermutation(ts: seq<Tweet>, us: seq<Tweet>)
    requires multiset(ts) == multiset(us)
    ensures multiset(Defined(ts)) == multiset(Defined(us))
    decreases |ts|
  {
    if |ts| > 0 {
      assert ts[0] in multiset(us);
      var j :| 0 <= j < |us| && us[j] == ts[0];
      var rest := us[..j] + us[j + 1..];
      assert multiset(ts[1..]) == multiset(rest) by {
        RemoveAt(ts, 0);
        RemoveAt(us, j);
        assert ts[..0] + ts[1..] == ts[1..];
      }
      DefinedPermutation(ts[1..], rest);
      DefinedRemoveAt(ts, 0);
      DefinedRemoveAt(us, j);
      assert ts[..0] + ts[1..] == ts[1..];
    } else {
      assert |us| == |multiset(us)| == 0;
    }
  }

  /** Taking one tweet out of a group takes its sentiment, if any, out of the defined ones. */
  lemma DefinedRemoveAt(ts: seq<Tweet>, j: nat)
    requires j < |ts|
    ensures multiset(Defined(ts)) == multiset(Defined([ts[j]])) + multiset(Defined(ts[..j] + ts[j + 1..]))
  {
    var before, x, after := ts[..j], [ts[j]], ts[j + 1..];
    var db, dx, da := Defined(before), Defined(x), Defined(after);
    assert Defined(ts) == db + dx + da by {
      assert ts == before + x + after;
      DefinedAppend(before + x, after);
      DefinedAppend(before, x);
    }
    assert Defined(before + after) == db + da by {
      DefinedAppend(before, after);
    }
    calc {
      multiset(Defined(ts));
      multiset(db + dx + da);
      multiset(db) + multiset(dx) + multiset(da);
      multiset(dx) + multiset(db + da);
    }
  }

  /** The state's sentiment does not depend on the order inside its group. */
  lemma StateMeanPermutation(ts: seq<Tweet>, us: seq<Tweet>)
    requires multiset(ts) == multiset(us)
    ensures StateMean(ts) == StateMean(us)
  {
    DefinedPermutation(ts, us);
    var a, b := Defined(ts), Defined(us);
    assert |a| == |multiset(a)| == |multiset(b)| == |b|;
    if |a| > 0 {
      MeanPermutation(a, b);
    }
  }

  /** A defined state sentiment lies within any bounds on the tweets' sentiments. */
  lemma StateMeanWithin(ts: seq<Tweet>, lo: real, hi: real)
    requires forall k :: 0 <= k < |ts| && ts[k].sentiment.Some? ==> lo <= ts[k].sentiment.value <= hi
    requires StateMean(ts).Some?
    ensures lo <= StateMean(ts).value <= hi
  {
    DefinedWithin(ts, lo, hi);
    MeanWithin(Defined(ts), lo, hi);
  }

  lemma {:induction false} DefinedWithin(ts: seq<Tweet>, lo: real, hi: real)
    requires forall k :: 0 <= k < |ts| && ts[k].sentiment.Some? ==> lo <= ts[k].sentiment.value <= hi
    ensures forall k :: 0 <= k < |Defined(ts)| ==> lo <= Defined(ts)[k] <= hi
    decreases |ts|
  {
    if |ts| > 0 {
      assert forall k :: 1 <= k < |ts| ==> ts[k] == ts[1..][k - 1];
      DefinedWithin(ts[1..], lo, hi);
      var head := SentimentOf(ts[0]);
      assert Defined(ts) == head + Defined(ts[1..]);
      forall k | 0 <= k < |Defined(ts)| ensures lo <= Defined(ts)[k] <= hi {
        if k >= |head| {
          assert Defined(ts)[k] == Defined(ts[1..])[k - |head|];
        }
      }
    }
  }

  /** Whatever order the parallel grouping appended in, each state's sentiment is the
      mean over the tweets located in it. */
  lemma StateSentimentOfGroup(contains: (MultiPolygon, Point) -> bool, tweets: seq<Tweet>, states: seq<State>, code: string)
    requires code in GroupTweetsByState(contains, tweets, states)
    ensures StateMean(GroupTweetsByState(contains, tweets, states)[code])
            == StateMean(LocatedAt(contains, tweets, states, code))
  {
    GroupsHoldLocatedTweets(contains, tweets, states, code);
    StateMeanPermutation(GroupTweetsByState(contains, tweets, states)[code], LocatedAt(contains, tweets, states, code));
  }
}
