/** Worked examples over a concrete ASCII character table. */
module Scenarios {
  import opened Options
  import opened Text
  import opened Stats
  import opened Lexicon
  import opened Tokenizer
  import opened Sentiment
  import opened Records
  import opened Grouping
  import opened NestedLists

  /** ASCII letters, space and tab as white space, and ASCII case mapping. */
  const Ascii := CharModel(
    c => 'a' <= c <= 'z' || 'A' <= c <= 'Z',
    c => c == ' ' || c == '\t',
    c => if 'A' <= c <= 'Z' then (c as int + 32) as char else c,
    c => if 'a' <= c <= 'z' then (c as int - 32) as char else c)

  const NotGood: Dictionary := [Entry("not good", -1.0), Entry("good", 1.0)]

  lemma NotGoodLongestPhraseIsTwoWords()
    ensures MaxPhraseLength(NotGood) == 2
  {
    SplitWithoutSeparator("not", ' ');
    SplitWithoutSeparator("good", ' ');
    SplitAppend("not", "good", ' ');
    assert "not good" == "not" + [' '] + "good";
    assert WordCount("not good") == 2;
    assert WordCount("good") == 1;
  }

  /** A phrase the dictionary does not hold, told apart from both keys by its length or
      its first letter. */
  lemma Misses(phrase: string)
    requires |phrase| != 8
    requires |phrase| != 4 || Ascii.toUpper(phrase[0]) != 'G'
    ensures TryGetValue(Ascii, NotGood, phrase) == None
  {
    assert |Fold(Ascii, phrase)| == |phrase|;
    assert !SameIgnoringCase(Ascii, NotGood[0].key, phrase);
    if |phrase| == 4 {
      assert Fold(Ascii, "good")[0] == 'G';
      assert Fold(Ascii, phrase)[0] != 'G';
    }
    assert !SameIgnoringCase(Ascii, NotGood[1].key, phrase);
  }

  const Words: seq<string> := ["this", "is", "not", "good"]

  lemma NoPhraseAtZero()
    ensures LongestMatch(Ascii, NotGood, Words, 0, 2) == None
  {
    assert Candidate(Words, 0, 2) == "this is";
    assert Candidate(Words, 0, 1) == "this";
    Misses("this is");
    Misses("this");
  }

  lemma NoPhraseAtOne()
    ensures LongestMatch(Ascii, NotGood, Words, 1, 2) == None
  {
    assert Candidate(Words, 1, 2) == "is not";
    assert Candidate(Words, 1, 1) == "is";
    Misses("is not");
    Misses("is");
  }

  lemma NotGoodAtTwo()
    ensures LongestMatch(Ascii, NotGood, Words, 2, 2) == Some(Match(2, -1.0))
  {
    assert Words[2..4] == ["not", "good"];
    assert Join(["good"], ' ') == "good";
    assert Candidate(Words, 2, 2) == "not" + [' '] + "good" == "not good";
    assert TryGetValue(Ascii, NotGood, "not good") == Some(-1.0);
  }

  lemma WalkFromTwo()
    ensures Segments(Ascii, NotGood, 2, Words, 2) == [Matched(2, 2, -1.0)]
  {
    NotGoodAtTwo();
  }

  lemma WalkFromOne()
    ensures Segments(Ascii, NotGood, 2, Words, 1) == [Skipped(1), Matched(2, 2, -1.0)]
  {
    NoPhraseAtOne();
    WalkFromTwo();
  }

  /** The walk skips "this" and "is", then consumes "not good" in one step. */
  lemma WalkOfNotGood()
    ensures Walk(Ascii, NotGood, Words) == [Skipped(0), Skipped(1), Matched(2, 2, -1.0)]
  {
    NotGoodLongestPhraseIsTwoWords();
    NoPhraseAtZero();
    WalkFromOne();
  }

  /** The scorer prefers the two-word phrase "not good" over the single word "good":
      "this is not good" scores -1. */
  lemma NotGoodScoresMinusOne()
    ensures ScoreWords(Ascii, NotGood, Words) == Some(-1.0)
  {
    var walk := Walk(Ascii, NotGood, Words);
    assert Weights(walk) == [-1.0] by {
      WalkOfNotGood();
      WeightsOfNotGoodWalk();
    }
    assert Mean([-1.0]) == -1.0 by {
      assert [-1.0][1..] == [];
    }
  }

  lemma WeightsOfNotGoodWalk()
    ensures Weights([Skipped(0), Skipped(1), Matched(2, 2, -1.0)]) == [-1.0]
  {
    var segs := [Skipped(0), Skipped(1), Matched(2, 2, -1.0)];
    assert segs[1..] == [Skipped(1), Matched(2, 2, -1.0)];
    assert segs[1..][1..] == [Matched(2, 2, -1.0)];
    assert segs[1..][1..][1..] == [];
  }

  const SampleTweet: string := "this is not good"

  lemma RunsOfTweetFromEight()
    ensures Runs(Ascii, SampleTweet, 8) == [Span(8, 11), Span(12, 16)]
  {
    assert RunEnd(Ascii, SampleTweet, 12) == 16;
    assert Runs(Ascii, SampleTweet, 16) == [];
    assert RunEnd(Ascii, SampleTweet, 8) == 11;
    assert Runs(Ascii, SampleTweet, 11) == Runs(Ascii, SampleTweet, 12);
  }

  lemma RunsOfTweetFromFive()
    ensures Runs(Ascii, SampleTweet, 5) == [Span(5, 7), Span(8, 11), Span(12, 16)]
  {
    assert Runs(Ascii, SampleTweet, 5) == [Span(5, 7)] + Runs(Ascii, SampleTweet, 7) by {
      assert RunEnd(Ascii, SampleTweet, 5) == 7;
    }
    assert Runs(Ascii, SampleTweet, 7) == Runs(Ascii, SampleTweet, 8) by {
      assert SampleTweet[7] == ' ';
    }
    RunsOfTweetFromEight();
  }

  lemma RunsOfTweet()
    ensures Runs(Ascii, SampleTweet, 0) == [Span(0, 4), Span(5, 7), Span(8, 11), Span(12, 16)]
  {
    assert Runs(Ascii, SampleTweet, 0) == [Span(0, 4)] + Runs(Ascii, SampleTweet, 4) by {
      assert RunEnd(Ascii, SampleTweet, 0) == 4;
    }
    assert Runs(Ascii, SampleTweet, 4) == Runs(Ascii, SampleTweet, 5) by {
      assert SampleTweet[4] == ' ';
    }
    RunsOfTweetFromFive();
  }

  lemma LowerKeepsLowercase(w: string)
    requires forall k :: 0 <= k < |w| ==> 'a' <= w[k] <= 'z'
    ensures Lower(Ascii, w) == w
  {
  }

  lemma FirstWordsOfTweet()
    ensures Lower(Ascii, SampleTweet[0..4]) == "this" && Lower(Ascii, SampleTweet[5..7]) == "is"
  {
    assert SampleTweet[0..4] == "this";
    assert SampleTweet[5..7] == "is";
    LowerKeepsLowercase("this");
    LowerKeepsLowercase("is");
  }

  lemma LastWordsOfTweet()
    ensures Lower(Ascii, SampleTweet[8..11]) == "not" && Lower(Ascii, SampleTweet[12..16]) == "good"
  {
    assert SampleTweet[8..11] == "not";
    assert SampleTweet[12..16] == "good";
    LowerKeepsLowercase("not");
    LowerKeepsLowercase("good");
  }

  /** "this is not good" tokenizes to its four words. */
  lemma TokensOfTweet()
    ensures TokenizeTweet(Ascii, SampleTweet) == Words
  {
    RunsOfTweet();
    FirstWordsOfTweet();
    LastWordsOfTweet();
    var tokens := TokenizeTweet(Ascii, SampleTweet);
    assert |tokens| == 4;
    assert tokens[0] == "this" && tokens[1] == "is" && tokens[2] == "not" && tokens[3] == "good";
  }

  /** With {"not good": -1, "good": 1}, the tweet "this is not good" scores -1. */
  lemma TweetScoresMinusOne()
    ensures Score(Ascii, NotGood, SampleTweet) == Some(-1.0)
  {
    TokensOfTweet();
    NotGoodScoresMinusOne();
  }

  function Rated(v: Option<real>): Tweet {
    Tweet("", Point(0.0, 0.0), DefaultDate, v)
  }

  /** A state whose tweets scored 1, nothing, -1 and 3 has sentiment 1: the tweet
      without a sentiment is left out of the mean. */
  lemma StateMeanSkipsUndefined()
    ensures StateMean([Rated(Some(1.0)), Rated(None), Rated(Some(-1.0)), Rated(Some(3.0))]) == Some(1.0)
  {
    var ts := [Rated(Some(1.0)), Rated(None), Rated(Some(-1.0)), Rated(Some(3.0))];
    assert ts[1..] == [Rated(None), Rated(Some(-1.0)), Rated(Some(3.0))];
    assert ts[1..][1..] == [Rated(Some(-1.0)), Rated(Some(3.0))];
    assert ts[1..][1..][1..] == [Rated(Some(3.0))];
    assert Defined(ts) == [1.0, -1.0, 3.0];
    assert Sum([1.0, -1.0, 3.0]) == 3.0;
  }

  function Num(x: real): Json {
    JNumber(x)
  }

  /** A top-level item in the four-deep form: one ring of the points (1, 2) and (3, 4). */
  const FourDeepItem := JArray([JArray([JArray([Num(1.0), Num(2.0)]), JArray([Num(3.0), Num(4.0)])])])

  /** A top-level item in the three-deep form: a ring of one point whose numbers are 5, 6,
      7 and 8. */
  const ThreeDeepItem := JArray([JArray([Num(5.0), Num(6.0), Num(7.0), Num(8.0)])])

  /** Single precision is exact on small integers. */
  function Same(x: real): real {
    x
  }

  /** On its own, a three-deep item decodes to its list of points. */
  lemma ThreeDeepItemAlone()
    ensures TryParseNestedLists(Same, JArray([ThreeDeepItem])) == Some([[[5.0, 6.0, 7.0, 8.0]]])
  {
    var point := [Num(5.0), Num(6.0), Num(7.0), Num(8.0)];
    assert Numbers(Same, point) == [5.0, 6.0, 7.0, 8.0];
    assert Points(Same, [JArray(point)]) == [[5.0, 6.0, 7.0, 8.0]];
    assert ThreeDeepEntries(Same, [ThreeDeepItem]) == [[[5.0, 6.0, 7.0, 8.0]]];
    ThreeDeepKeepsPoints(Same, [ThreeDeepItem]);
  }

  lemma FourDeepItemPoints()
    ensures AllPoints(Same, FourDeepItem.items) == [[1.0, 2.0], [3.0, 4.0]]
  {
    var points := [JArray([Num(1.0), Num(2.0)]), JArray([Num(3.0), Num(4.0)])];
    assert Numbers(Same, [Num(1.0), Num(2.0)]) == [1.0, 2.0];
    assert Numbers(Same, [Num(3.0), Num(4.0)]) == [3.0, 4.0];
    assert Points(Same, points) == [[1.0, 2.0], [3.0, 4.0]];
  }

  /** The four-deep item leaves its entry in the result and the flag set. */
  lemma FourDeepItemFirst()
    ensures Level1(Same, [FourDeepItem, ThreeDeepItem], Acc([], [], [], false))
            == Level1(Same, [ThreeDeepItem], Acc([[[1.0, 2.0], [3.0, 4.0]]], [], [], true))
  {
    var start := Acc([], [], [], false);
    FourDeepItemPoints();
    Level2FourDeep(Same, FourDeepItem.items, start);
    var a := Acc([], [[1.0, 2.0], [3.0, 4.0]], [], true);
    assert start.polygon + AllPoints(Same, FourDeepItem.items) == a.polygon;
    assert Level2(Same, FourDeepItem.items, start) == Some(a);
    assert [FourDeepItem, ThreeDeepItem][1..] == [ThreeDeepItem];
    assert a.(result := a.result + [a.polygon], polygon := []) == Acc([[[1.0, 2.0], [3.0, 4.0]]], [], [], true);
  }

  /** With the flag set, the three-deep item's numbers stay in the buffer. */
  lemma ThreeDeepItemAfterFlag()
    ensures Level1(Same, [ThreeDeepItem], Acc([[[1.0, 2.0], [3.0, 4.0]]], [], [], true))
            == Some(Acc([[[1.0, 2.0], [3.0, 4.0]], []], [], [5.0, 6.0, 7.0, 8.0], true))
  {
    var afterFirst := Acc([[[1.0, 2.0], [3.0, 4.0]]], [], [], true);
    var point := [Num(5.0), Num(6.0), Num(7.0), Num(8.0)];
    Level3Numbers(Same, point, afterFirst);
    assert Numbers(Same, point) == [5.0, 6.0, 7.0, 8.0];
    assert afterFirst.coordinates + Numbers(Same, point) == [5.0, 6.0, 7.0, 8.0];
    var filled := afterFirst.(coordinates := [5.0, 6.0, 7.0, 8.0]);
    assert Level3(Same, point, afterFirst) == Some(filled);
    assert Level2(Same, ThreeDeepItem.items, afterFirst) == Some(filled);
    assert [ThreeDeepItem][1..] == [];
    assert filled.(result := filled.result + [filled.polygon], polygon := [])
           == Acc([[[1.0, 2.0], [3.0, 4.0]], []], [], [5.0, 6.0, 7.0, 8.0], true);
  }

  /** After a four-deep item, the flag stays set: the points of a following three-deep item
      are never flushed into its polygon, and that item decodes to an empty list. */
  lemma FlagIsSticky()
    ensures TryParseNestedLists(Same, JArray([FourDeepItem, ThreeDeepItem]))
            == Some([[[1.0, 2.0], [3.0, 4.0]], []])
  {
    FourDeepItemFirst();
    ThreeDeepItemAfterFlag();
  }
}
