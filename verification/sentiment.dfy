/** AnalyzeSentiment: greedy longest-match phrase scoring of a tweet against the
    dictionary, averaged over the matched phrases; and AnalyzeTweetsSentiment, which
    scores every tweet. */
module Sentiment {
  import opened Options
  import opened Text
  import opened Stats
  import opened Tokenizer
  import opened Lexicon
  import opened Records

  /** A dictionary hit: the number of words it spans and its weight. */
  datatype Match = Match(len: nat, weight: real)

  /** The candidate phrase: `len` words from position `i`, joined by single spaces. */
  function Candidate(words: seq<string>, i: nat, len: nat): string
    requires i + len <= |words|
  {
    Join(words[i..i + len], ' ')
  }

  /** Math.Min(maxPhraseLength, words.Count - i): how far the scorer looks ahead. */
  function Lookahead(maxLen: nat, words: seq<string>, i: nat): nat
    requires i <= |words|
  {
    if maxLen < |words| - i then maxLen else |words| - i
  }

  /** The inner for-loop: tries lengths `len`, `len - 1`, ..., 1 and stops at the first
      candidate the dictionary holds, which is therefore the longest one. */
  function LongestMatch(cm: CharModel, d: Dictionary, words: seq<string>, i: nat, len: nat): (m: Option<Match>)
    requires i + len <= |words|
    ensures m.Some? ==> 1 <= m.value.len <= len
    decreases len
  {
    if len == 0 then None
    else match TryGetValue(cm, d, Candidate(words, i, len))
      case Some(w) => Some(Match(len, w))
      case None => LongestMatch(cm, d, words, i, len - 1)
  }

  /** The match found is a dictionary phrase, and no longer candidate within the
      look-ahead is one: it is the longest. */
  lemma {:induction false} LongestMatchIsLongest(cm: CharModel, d: Dictionary, words: seq<string>, i: nat, len: nat)
    requires i + len <= |words|
    ensures var m := LongestMatch(cm, d, words, i, len);
            && (m.Some? ==> TryGetValue(cm, d, Candidate(words, i, m.value.len)) == Some(m.value.weight))
            && forall l :: (if m.Some? then m.value.len else 0) < l <= len ==>
                 TryGetValue(cm, d, Candidate(words, i, l)).None?
    decreases len
  {
    if len > 0 && TryGetValue(cm, d, Candidate(words, i, len)).None? {
      LongestMatchIsLongest(cm, d, words, i, len - 1);
    }
  }

  /** What the scorer does at one position: consume a matched phrase, or skip one word. */
  datatype Segment = Matched(start: nat, len: nat, weight: real) | Skipped(start: nat) {
    function End(): nat {
      if Matched? then start + len else start + 1
    }
  }

  /** The segments cover positions `from` to `to` one after another without gap or
      overlap, each at least one word long: every word is consumed exactly once. */
  predicate Tiles(segs: seq<Segment>, from: nat, to: nat)
    decreases |segs|
  {
    if |segs| == 0 then from == to
    else segs[0].start == from && from < segs[0].End() && Tiles(segs[1..], segs[0].End(), to)
  }

  /** `seg` is the greedy choice at its position: the longest candidate within the
      lookahead that the dictionary holds, or a skip when it holds none. */
  predicate Greedy(cm: CharModel, d: Dictionary, maxLen: nat, words: seq<string>, seg: Segment) {
    && seg.start < |words|
    && LongestMatch(cm, d, words, seg.start, Lookahead(maxLen, words, seg.start))
       == (if seg.Matched? then Some(Match(seg.len, seg.weight)) else None)
  }

  /** The scorer's walk from position `i` to the end of the words. */
  function Segments(cm: CharModel, d: Dictionary, maxLen: nat, words: seq<string>, i: nat): (segs: seq<Segment>)
    requires maxLen >= 1 && i <= |words|
    decreases |words| - i
  {
    if i == |words| then []
    else
      var seg := Step(cm, d, maxLen, words, i);
      [seg] + Segments(cm, d, maxLen, words, seg.End())
  }

  /** The segment the scorer produces at position `i`. */
  function Step(cm: CharModel, d: Dictionary, maxLen: nat, words: seq<string>, i: nat): (seg: Segment)
    requires maxLen >= 1 && i < |words|
    ensures seg.start == i && i < seg.End() <= |words|
  {
    match LongestMatch(cm, d, words, i, Lookahead(maxLen, words, i))
    case Some(m) => Matched(i, m.len, m.weight)
    case None => Skipped(i)
  }

  /** The walk consumes every word exactly once, and at every position makes the greedy
      longest-match choice. */
  lemma {:induction false} SegmentsTileGreedily(cm: CharModel, d: Dictionary, maxLen: nat, words: seq<string>, i: nat)
    requires maxLen >= 1 && i <= |words|
    ensures Tiles(Segments(cm, d, maxLen, words, i), i, |words|)
    ensures forall k :: 0 <= k < |Segments(cm, d, maxLen, words, i)| ==>
              Greedy(cm, d, maxLen, words, Segments(cm, d, maxLen, words, i)[k])
    decreases |words| - i
  {
    if i < |words| {
      var seg := Step(cm, d, maxLen, words, i);
      var rest := Segments(cm, d, maxLen, words, seg.End());
      SegmentsTileGreedily(cm, d, maxLen, words, seg.End());
      var segs := Segments(cm, d, maxLen, words, i);
      assert segs == [seg] + rest;
      assert segs[1..] == rest;
      forall k | 0 <= k < |segs| ensures Greedy(cm, d, maxLen, words, segs[k]) {
        if k > 0 {
          assert segs[k] == rest[k - 1];
        }
      }
    }
  }

  /** The weights of the matched segments, in order. */
  function Weights(segs: seq<Segment>): seq<real>
    decreases |segs|
  {
    if |segs| == 0 then []
    else (if segs[0].Matched? then [segs[0].weight] else []) + Weights(segs[1..])
  }

  lemma {:induction false} WeightsEmpty(segs: seq<Segment>)
    ensures |Weights(segs)| == 0 <==> forall k :: 0 <= k < |segs| ==> segs[k].Skipped?
    decreases |segs|
  {
    if |segs| > 0 {
      WeightsEmpty(segs[1..]);
      assert forall k :: 1 <= k < |segs| ==> segs[k] == segs[1..][k - 1];
    }
  }

  lemma {:induction false} WeightsAreMatchedWeights(segs: seq<Segment>, k: nat)
    requires k < |Weights(segs)|
    ensures exists j :: 0 <= j < |segs| && segs[j].Matched? && segs[j].weight == Weights(segs)[k]
    decreases |segs|
  {
    var rest := Weights(segs[1..]);
    if segs[0].Matched? {
      if k == 0 {
        assert segs[0].weight == Weights(segs)[0];
      } else {
        WeightsAreMatchedWeights(segs[1..], k - 1);
        var j :| 0 <= j < |segs[1..]| && segs[1..][j].Matched? && segs[1..][j].weight == rest[k - 1];
        assert segs[j + 1] == segs[1..][j];
      }
    } else {
      WeightsAreMatchedWeights(segs[1..], k);
      var j :| 0 <= j < |segs[1..]| && segs[1..][j].Matched? && segs[1..][j].weight == rest[k];
      assert segs[j + 1] == segs[1..][j];
    }
  }

  /** The scorer's walk over the tokens of a tweet, looking ahead at most as many words as
      the longest dictionary key has. */
  function Walk(cm: CharModel, d: Dictionary, words: seq<string>): seq<Segment> {
    Segments(cm, d, MaxPhraseLength(d), words, 0)
  }

  /** The sentiment of a token list: the mean weight of the matched phrases, each phrase
      counting once however many words it spans; None when there are no tokens or no
      matches. */
  function ScoreWords(cm: CharModel, d: Dictionary, words: seq<string>): Option<real> {
    if |words| == 0 then None
    else
      var ws := Weights(Walk(cm, d, words));
      if |ws| == 0 then None else Some(Mean(ws))
  }

  /** The sentiment of a tweet's text: none when the text has no tokens or the walk over
      them matches no phrase, else a value between the smallest and the largest matched
      weight. */
  function Score(cm: CharModel, d: Dictionary, tweet: string): (r: Option<real>)
    ensures var words := TokenizeTweet(cm, tweet);
            r.None? <==> |words| == 0 || forall k :: 0 <= k < |Walk(cm, d, words)| ==> Walk(cm, d, words)[k].Skipped?
    ensures var ws := Weights(Walk(cm, d, TokenizeTweet(cm, tweet)));
            r.Some? ==> |ws| > 0 && MinOf(ws) <= r.value <= MaxOf(ws)
  {
    var words := TokenizeTweet(cm, tweet);
    ScoreNoneIff(cm, d, words);
    var r := ScoreWords(cm, d, words);
    if r.Some? then MeanBetweenMinAndMax(Weights(Walk(cm, d, words))); r else r
  }

  /** The weights the walk from position `i` still has to add. */
  function Remaining(cm: CharModel, d: Dictionary, maxLen: nat, words: seq<string>, i: nat): seq<real>
    requires maxLen >= 1 && i <= |words|
  {
    Weights(Segments(cm, d, maxLen, words, i))
  }

  /** A step of the walk that matches a phrase contributes its weight and jumps past it. */
  lemma WalkMatch(cm: CharModel, d: Dictionary, maxLen: nat, words: seq<string>, i: nat, length: nat, weight: real)
    requires maxLen >= 1 && i < |words|
    requires LongestMatch(cm, d, words, i, Lookahead(maxLen, words, i)) == Some(Match(length, weight))
    ensures i < i + length <= |words|
    ensures Remaining(cm, d, maxLen, words, i) == [weight] + Remaining(cm, d, maxLen, words, i + length)
  {
    var segs := Segments(cm, d, maxLen, words, i);
    assert segs[1..] == Segments(cm, d, maxLen, words, i + length);
  }

  /** A step of the walk that matches nothing contributes nothing and moves one word on. */
  lemma WalkSkip(cm: CharModel, d: Dictionary, maxLen: nat, words: seq<string>, i: nat)
    requires maxLen >= 1 && i < |words|
    requires LongestMatch(cm, d, words, i, Lookahead(maxLen, words, i)).None?
    ensures Remaining(cm, d, maxLen, words, i) == Remaining(cm, d, maxLen, words, i + 1)
  {
    var segs := Segments(cm, d, maxLen, words, i);
    assert segs[1..] == Segments(cm, d, maxLen, words, i + 1);
  }

  /** The fallback lookup of the current word after the inner loop cannot succeed: the
      length-1 candidate the loop tried last is that very word. */
  lemma FallbackNeverMatches(cm: CharModel, d: Dictionary, words: seq<string>, i: nat, len: nat)
    requires 1 <= len && i + len <= |words|
    requires LongestMatch(cm, d, words, i, len).None?
    ensures TryGetValue(cm, d, words[i]).None?
  {
    assert words[i..i + 1] == [words[i]];
    assert Candidate(words, i, 1) == words[i];
  }

  /** The inner for-loop of AnalyzeSentiment: lengths from `currentMaxLength` down to 1,
      stopping at the first candidate phrase the dictionary holds. */
  method FindLongestPhrase(cm: CharModel, d: Dictionary, words: seq<string>, i: nat, currentMaxLength: nat)
    returns (found: Option<Match>)
    requires i + currentMaxLength <= |words|
    ensures found == LongestMatch(cm, d, words, i, currentMaxLength)
  {
    var length := currentMaxLength;
    while length >= 1
      invariant 0 <= length <= currentMaxLength
      invariant LongestMatch(cm, d, words, i, currentMaxLength) == LongestMatch(cm, d, words, i, length)
      decreases length
    {
      var phrase := Join(words[i..i + length], ' ');
      match TryGetValue(cm, d, phrase) {
        case Some(weight) =>
          return Some(Match(length, weight));
        case None =>
      }
      length := length - 1;
    }
    return None;
  }

  /** One iteration of the while-loop that finds a phrase, as the walk sees it: the
      phrase's weight is added and the position jumps past it. */
  lemma LoopStepMatch(cm: CharModel, d: Dictionary, maxLen: nat, words: seq<string>, i: nat, length: nat, weight: real)
    requires maxLen >= 1 && i < |words|
    requires LongestMatch(cm, d, words, i, Lookahead(maxLen, words, i)) == Some(Match(length, weight))
    ensures i < i + length <= |words|
    ensures Sum(Remaining(cm, d, maxLen, words, i)) == weight + Sum(Remaining(cm, d, maxLen, words, i + length))
    ensures |Remaining(cm, d, maxLen, words, i)| == 1 + |Remaining(cm, d, maxLen, words, i + length)|
  {
    WalkMatch(cm, d, maxLen, words, i, length, weight);
    SumCons(weight, Remaining(cm, d, maxLen, words, i + length));
  }

  /** One iteration of the while-loop that finds no phrase: the fallback lookup of the
      current word misses, nothing is added, and the position moves one word on. */
  lemma LoopStepSkip(cm: CharModel, d: Dictionary, maxLen: nat, words: seq<string>, i: nat)
    requires maxLen >= 1 && i < |words|
    requires LongestMatch(cm, d, words, i, Lookahead(maxLen, words, i)).None?
    ensures TryGetValue(cm, d, words[i]).None?
    ensures Sum(Remaining(cm, d, maxLen, words, i)) == Sum(Remaining(cm, d, maxLen, words, i + 1))
    ensures |Remaining(cm, d, maxLen, words, i)| == |Remaining(cm, d, maxLen, words, i + 1)|
  {
    WalkSkip(cm, d, maxLen, words, i);
    FallbackNeverMatches(cm, d, words, i, Lookahead(maxLen, words, i));
  }

  /** One iteration of the while-loop: the inner search, then either the jump past the
      phrase found or the fallback lookup and a one-word step. What it adds to the sum
      and the count is what the walk loses from its remaining weights. */
  method Iterate(cm: CharModel, d: Dictionary, words: seq<string>, maxPhraseLength: nat, i: nat)
    returns (next: nat, added: real, counted: nat)
    requires maxPhraseLength >= 1 && i < |words|
    ensures i < next <= |words|
    ensures Sum(Remaining(cm, d, maxPhraseLength, words, i)) == added + Sum(Remaining(cm, d, maxPhraseLength, words, next))
    ensures |Remaining(cm, d, maxPhraseLength, words, i)| == counted + |Remaining(cm, d, maxPhraseLength, words, next)|
  {
    var currentMaxLength := Lookahead(maxPhraseLength, words, i);
    var found := FindLongestPhrase(cm, d, words, i, currentMaxLength);
    match found {
      case Some(Match(length, weight)) =>
        LoopStepMatch(cm, d, maxPhraseLength, words, i, length, weight);
        next, added, counted := i + length, weight, 1;
      case None =>
        // The source falls back to a single-word lookup here; LoopStepSkip shows that it
        // always misses, so it adds nothing.
        LoopStepSkip(cm, d, maxPhraseLength, words, i);
        next, added, counted := i + 1, 0.0, 0;
    }
  }

  /** The while-loop of AnalyzeSentiment: it accumulates exactly the weights of the
      greedy walk over `words`. */
  method SumPhraseWeights(cm: CharModel, d: Dictionary, words: seq<string>, maxPhraseLength: nat)
    returns (sum: real, count: nat)
    requires maxPhraseLength >= 1
    ensures sum == Sum(Weights(Segments(cm, d, maxPhraseLength, words, 0)))
    ensures count == |Weights(Segments(cm, d, maxPhraseLength, words, 0))|
  {
    sum := 0.0;
    count := 0;
    var i: nat := 0;
    while i < |words|
      invariant i <= |words|
      invariant sum + Sum(Remaining(cm, d, maxPhraseLength, words, i)) == Sum(Remaining(cm, d, maxPhraseLength, words, 0))
      invariant count + |Remaining(cm, d, maxPhraseLength, words, i)| == |Remaining(cm, d, maxPhraseLength, words, 0)|
      decreases |words| - i
    {
      var next, added, counted := Iterate(cm, d, words, maxPhraseLength, i);
      sum, count, i := sum + added, count + counted, next;
    }
    assert Remaining(cm, d, maxPhraseLength, words, i) == [];
  }

  /** AnalyzeSentiment: tokenize, bound the phrase length by the dictionary, walk, and
      average; it computes Score. */
  method AnalyzeSentiment(cm: CharModel, tweet: string, d: Dictionary) returns (r: Option<real>)
    ensures r == Score(cm, d, tweet)
  {
    var words := TokenizeTweet(cm, tweet);
    if |words| == 0 {
      return None;
    }
    var maxPhraseLength: nat := GetMaxPhraseLength(d);
    assert maxPhraseLength == MaxPhraseLength(d);
    var sum, count := SumPhraseWeights(cm, d, words, maxPhraseLength);
    if count > 0 {
      r := Some(sum / (count as real));
    } else {
      r := None;
    }
  }

  /** No sentiment exactly when the text has no tokens or the walk matched no phrase: a
      tweet without matches is never scored 0. */
  lemma ScoreNoneIff(cm: CharModel, d: Dictionary, words: seq<string>)
    ensures ScoreWords(cm, d, words).None? <==>
              |words| == 0 || forall k :: 0 <= k < |Walk(cm, d, words)| ==> Walk(cm, d, words)[k].Skipped?
  {
    WeightsEmpty(Walk(cm, d, words));
  }

  /** A score lies within any bounds on the weights of the matched phrases; in particular
      between the smallest and the largest matched weight. */
  lemma ScoreBetweenMatchedWeights(cm: CharModel, d: Dictionary, words: seq<string>, lo: real, hi: real)
    requires forall k :: 0 <= k < |Walk(cm, d, words)| && Walk(cm, d, words)[k].Matched? ==>
               lo <= Walk(cm, d, words)[k].weight <= hi
    requires ScoreWords(cm, d, words).Some?
    ensures lo <= ScoreWords(cm, d, words).value <= hi
  {
    var segs := Walk(cm, d, words);
    var ws := Weights(segs);
    forall k | 0 <= k < |ws| ensures lo <= ws[k] <= hi {
      WeightsAreMatchedWeights(segs, k);
    }
    MeanWithin(ws, lo, hi);
  }

  /** With an empty dictionary nothing matches and no tweet gets a sentiment. */
  lemma EmptyDictionaryScoresNone(cm: CharModel, words: seq<string>)
    ensures ScoreWords(cm, [], words) == None
  {
    var segs := Walk(cm, [], words);
    SegmentsTileGreedily(cm, [], MaxPhraseLength([]), words, 0);
    forall k | 0 <= k < |segs| ensures segs[k].Skipped? {
      assert Greedy(cm, [], MaxPhraseLength([]), words, segs[k]);
    }
    WeightsEmpty(segs);
  }

  // ---------------------------------------------------------------------------
  // AnalyzeTweetsSentiment
  // ---------------------------------------------------------------------------

  /** The tweet with its sentiment set from its text. */
  function Scored(cm: CharModel, tweet: Tweet, d: Dictionary): Tweet {
    tweet.(sentiment := Score(cm, d, tweet.text))
  }

  /** AnalyzeTweetsSentiment, its parallel loop read as a map over the positions: every
      tweet gets the score of its own text, and nothing else about the list changes. */
  function AnalyzeTweetsSentiment(cm: CharModel, tweets: seq<Tweet>, d: Dictionary): (r: seq<Tweet>)
    ensures |r| == |tweets|
    ensures forall k :: 0 <= k < |r| ==>
              && r[k].sentiment == Score(cm, d, tweets[k].text)
              && r[k].text == tweets[k].text
              && r[k].location == tweets[k].location
              && r[k].date == tweets[k].date
  {
    seq(|tweets|, k requires 0 <= k < |tweets| => Scored(cm, tweets[k], d))
  }

  /** Each tweet is scored independently: scoring a concatenation scores each part. */
  lemma AnalyzeTweetsSentimentAppend(cm: CharModel, a: seq<Tweet>, b: seq<Tweet>, d: Dictionary)
    ensures AnalyzeTweetsSentiment(cm, a + b, d) ==
            AnalyzeTweetsSentiment(cm, a, d) + AnalyzeTweetsSentiment(cm, b, d)
  {
    var whole := AnalyzeTweetsSentiment(cm, a + b, d);
    var parts := AnalyzeTweetsSentiment(cm, a, d) + AnalyzeTweetsSentiment(cm, b, d);
    forall k | 0 <= k < |whole| ensures whole[k] == parts[k] {
      if k < |a| {
        assert (a + b)[k] == a[k];
      } else {
        assert (a + b)[k] == b[k - |a|];
      }
    }
  }
}
