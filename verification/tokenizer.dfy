/** TokenizeTweet: the matches of the regular expression [\p{L}'-]+, lower-cased, in order.
    With a context-free character class, the leftmost-greedy matches are exactly the
    maximal runs of class characters. */
module Tokenizer {
  import opened Text

  /** The class [\p{L}'-]: a letter, an apostrophe or a hyphen. */
  predicate IsTokenChar(cm: CharModel, c: char) {
    cm.isLetter(c) || c == '\'' || c == '-'
  }

  /** A half-open range [start, end) of positions in the text. */
  datatype Span = Span(start: nat, end: nat)

  /** `sp` is a maximal run of class characters in `s`: non-empty, made of class characters
      only, and not extendable to the left or to the right. */
  predicate IsMaximalRun(cm: CharModel, s: string, sp: Span) {
    && sp.start < sp.end <= |s|
    && (forall k :: sp.start <= k < sp.end ==> IsTokenChar(cm, s[k]))
    && (sp.start == 0 || !IsTokenChar(cm, s[sp.start - 1]))
    && (sp.end == |s| || !IsTokenChar(cm, s[sp.end]))
  }

  /** `spans` lists, left to right, every maximal run of `s` that starts at or after `from`. */
  predicate AllMaximalRunsFrom(cm: CharModel, s: string, spans: seq<Span>, from: nat) {
    && (forall k :: 0 <= k < |spans| ==> IsMaximalRun(cm, s, spans[k]) && from <= spans[k].start)
    && (forall k :: 0 <= k < |spans| - 1 ==> spans[k].end < spans[k + 1].start)
    && (forall p :: from <= p < |s| && IsTokenChar(cm, s[p]) ==>
          exists k :: 0 <= k < |spans| && spans[k].start <= p < spans[k].end)
  }

  /** Position `i` is not strictly inside a run of class characters. */
  predicate AtRunBoundary(cm: CharModel, s: string, i: nat)
    requires i <= |s|
  {
    i == 0 || i == |s| || !IsTokenChar(cm, s[i - 1]) || !IsTokenChar(cm, s[i])
  }

  /** The end of the run of class characters that starts at `i`. */
  function RunEnd(cm: CharModel, s: string, i: nat): (e: nat)
    requires i <= |s|
    ensures i <= e <= |s|
    ensures forall k :: i <= k < e ==> IsTokenChar(cm, s[k])
    ensures e == |s| || !IsTokenChar(cm, s[e])
    decreases |s| - i
  {
    if i < |s| && IsTokenChar(cm, s[i]) then RunEnd(cm, s, i + 1) else i
  }

  /** The regex scan: skip non-class characters, take the longest run, repeat. */
  function Runs(cm: CharModel, s: string, i: nat): (spans: seq<Span>)
    requires i <= |s| && AtRunBoundary(cm, s, i)
    ensures forall k :: 0 <= k < |spans| ==> IsMaximalRun(cm, s, spans[k]) && i <= spans[k].start
    ensures forall k :: 0 <= k < |spans| - 1 ==> spans[k].end < spans[k + 1].start
    decreases |s| - i
  {
    if i == |s| then []
    else if !IsTokenChar(cm, s[i]) then Runs(cm, s, i + 1)
    else
      var e := RunEnd(cm, s, i);
      var rest := Runs(cm, s, e);
      assert forall k :: 0 <= k < |rest| ==> e < rest[k].start by {
        forall k | 0 <= k < |rest| ensures e < rest[k].start {
          assert IsTokenChar(cm, s[rest[k].start]);
        }
      }
      [Span(i, e)] + rest
  }

  /** Every class character from `i` on lies inside one of the scanned runs. */
  lemma {:induction false} RunsCover(cm: CharModel, s: string, i: nat, p: nat)
    requires i <= |s| && AtRunBoundary(cm, s, i)
    requires i <= p < |s| && IsTokenChar(cm, s[p])
    ensures exists k :: 0 <= k < |Runs(cm, s, i)| && Runs(cm, s, i)[k].start <= p < Runs(cm, s, i)[k].end
    decreases |s| - i
  {
    var spans := Runs(cm, s, i);
    if !IsTokenChar(cm, s[i]) {
      RunsCover(cm, s, i + 1, p);
    } else {
      var e := RunEnd(cm, s, i);
      if p < e {
        assert spans[0] == Span(i, e);
      } else {
        RunsCover(cm, s, e, p);
        var rest := Runs(cm, s, e);
        var k :| 0 <= k < |rest| && rest[k].start <= p < rest[k].end;
        assert spans[k + 1] == rest[k];
      }
    }
  }

  /** The scan from the start of the text finds exactly its maximal runs, left to right. */
  lemma ScanFindsAllMaximalRuns(cm: CharModel, s: string)
    ensures AllMaximalRunsFrom(cm, s, Runs(cm, s, 0), 0)
  {
    forall p | 0 <= p < |s| && IsTokenChar(cm, s[p])
      ensures exists k :: 0 <= k < |Runs(cm, s, 0)| && Runs(cm, s, 0)[k].start <= p < Runs(cm, s, 0)[k].end
    {
      RunsCover(cm, s, 0, p);
    }
  }

  /** Number of positions where a run of class characters begins. */
  function RunStarts(cm: CharModel, s: string, i: nat): nat
    requires i <= |s|
    decreases |s| - i
  {
    if i == |s| then 0
    else
      (if IsTokenChar(cm, s[i]) && (i == 0 || !IsTokenChar(cm, s[i - 1])) then 1 else 0)
        + RunStarts(cm, s, i + 1)
  }

  lemma {:induction false} RunStartsInsideRun(cm: CharModel, s: string, i: nat, e: nat)
    requires i <= e <= |s|
    requires forall k :: i <= k < e ==> IsTokenChar(cm, s[k])
    requires 0 < i
    requires IsTokenChar(cm, s[i - 1])
    ensures RunStarts(cm, s, i) == RunStarts(cm, s, e)
    decreases e - i
  {
    if i < e {
      RunStartsInsideRun(cm, s, i + 1, e);
    }
  }

  /** One token per run start. */
  lemma {:induction false} RunsCount(cm: CharModel, s: string, i: nat)
    requires i <= |s| && AtRunBoundary(cm, s, i)
    ensures |Runs(cm, s, i)| == RunStarts(cm, s, i)
    decreases |s| - i
  {
    if i < |s| {
      if !IsTokenChar(cm, s[i]) {
        RunsCount(cm, s, i + 1);
      } else {
        var e := RunEnd(cm, s, i);
        if i + 1 < e {
          RunStartsInsideRun(cm, s, i + 1, e);
        }
        RunsCount(cm, s, e);
      }
    }
  }

  /** TokenizeTweet: the maximal runs of [\p{L}'-], each lower-cased, left to right. */
  function TokenizeTweet(cm: CharModel, tweet: string): (tokens: seq<string>)
    ensures |tweet| == 0 ==> tokens == []
    ensures forall k :: 0 <= k < |tokens| ==> |tokens[k]| > 0
  {
    var spans := Runs(cm, tweet, 0);
    seq(|spans|, k requires 0 <= k < |spans| => Lower(cm, tweet[spans[k].start..spans[k].end]))
  }

  /** The tokens are the lower-cased maximal runs of the text, in order, one per run. */
  lemma TokensAreLoweredMaximalRuns(cm: CharModel, tweet: string)
    ensures var spans := Runs(cm, tweet, 0);
            && AllMaximalRunsFrom(cm, tweet, spans, 0)
            && |TokenizeTweet(cm, tweet)| == |spans| == RunStarts(cm, tweet, 0)
            && forall k :: 0 <= k < |spans| ==>
                 TokenizeTweet(cm, tweet)[k] == Lower(cm, tweet[spans[k].start..spans[k].end])
  {
    ScanFindsAllMaximalRuns(cm, tweet);
    RunsCount(cm, tweet, 0);
  }

  /** When lower-casing keeps class characters in the class, no token holds any character
      outside [\p{L}'-]. */
  lemma TokensHoldOnlyClassCharacters(cm: CharModel, tweet: string)
    requires forall c :: IsTokenChar(cm, c) ==> IsTokenChar(cm, cm.toLower(c))
    ensures forall k, j :: 0 <= k < |TokenizeTweet(cm, tweet)| && 0 <= j < |TokenizeTweet(cm, tweet)[k]| ==>
              IsTokenChar(cm, TokenizeTweet(cm, tweet)[k][j])
  {
    var spans := Runs(cm, tweet, 0);
    var tokens := TokenizeTweet(cm, tweet);
    forall k, j | 0 <= k < |tokens| && 0 <= j < |tokens[k]|
      ensures IsTokenChar(cm, tokens[k][j])
    {
      var sp := spans[k];
      assert tokens[k][j] == cm.toLower(tweet[sp.start + j]);
      assert IsTokenChar(cm, tweet[sp.start + j]);
    }
  }
}
