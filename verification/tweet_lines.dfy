/** The per-line logic of LoadTweets: a line "[lat, lon]<TAB>_<TAB>date<TAB>text" becomes a
    tweet, or is skipped. Number parsing (double.TryParse with the invariant culture) and
    date parsing (DateTime.TryParse) are supplied as parameters. */
module TweetLines {
  import opened Options
  import opened Text
  import opened Records
  import opened Lists

  predicate IsBracket(c: char) {
    c == '[' || c == ']'
  }

  /** line.Split('\t') */
  function Fields(line: string): seq<string> {
    Split(line, '\t')
  }

  /** parts[0].Trim().Trim('[', ']').Split(',') */
  function CoordinateParts(cm: CharModel, field: string): seq<string> {
    Split(TrimBy(Trim(cm, field), IsBracket), ',')
  }

  /** One line of the tweets file. A blank line, fewer than four fields, fewer than two
      coordinate parts, or a coordinate that is not a number skips the line; a date that
      does not parse does not. The record's X is the latitude and Y the longitude, its
      text is the trimmed fourth field, and it has no sentiment yet. */
  function ParseTweetLine(
    cm: CharModel, parseNumber: string -> Option<real>, parseDate: string -> Option<DateTime>, line: string
  ): (r: Option<Tweet>)
    ensures IsBlank(cm, line) ==> r.None?
    ensures |Fields(line)| < 4 ==> r.None?
    ensures r.Some? ==>
              var coords := CoordinateParts(cm, Fields(line)[0]);
              && |coords| >= 2
              && parseNumber(Trim(cm, coords[0])) == Some(r.value.location.x)
              && parseNumber(Trim(cm, coords[1])) == Some(r.value.location.y)
              && r.value.text == Trim(cm, Fields(line)[3])
              && r.value.date == parseDate(Trim(cm, Fields(line)[2])).GetOr(DefaultDate)
              && r.value.sentiment.None?
    ensures r.None? && !IsBlank(cm, line) && |Fields(line)| >= 4 ==>
              var coords := CoordinateParts(cm, Fields(line)[0]);
              |coords| < 2 || parseNumber(Trim(cm, coords[0])).None? || parseNumber(Trim(cm, coords[1])).None?
  {
    if IsBlank(cm, line) then None
    else
      var parts := Fields(line);
      if |parts| < 4 then None
      else
        var coords := CoordinateParts(cm, parts[0]);
        if |coords| < 2 then None
        else
          match (parseNumber(Trim(cm, coords[0])), parseNumber(Trim(cm, coords[1])))
          case (Some(latitude), Some(longitude)) =>
            var tweetDate := parseDate(Trim(cm, parts[2])).GetOr(DefaultDate);
            Some(Tweet(Trim(cm, parts[3]), Point(latitude, longitude), tweetDate, None))
          case _ => None
  }

  /** Fields after the fourth are ignored. */
  lemma ExtraFieldsIgnored(
    cm: CharModel, parseNumber: string -> Option<real>, parseDate: string -> Option<DateTime>,
    line: string, extra: string)
    requires !IsBlank(cm, line) && |Fields(line)| >= 4
    ensures ParseTweetLine(cm, parseNumber, parseDate, line + ['\t'] + extra)
            == ParseTweetLine(cm, parseNumber, parseDate, line)
  {
    var longer := line + ['\t'] + extra;
    SplitAppend(line, extra, '\t');
    assert Fields(longer) == Fields(line) + Fields(extra);
    assert Fields(longer)[0] == Fields(line)[0];
    assert Fields(longer)[2] == Fields(line)[2];
    assert Fields(longer)[3] == Fields(line)[3];
    var k :| 0 <= k < |line| && !cm.isWhiteSpace(line[k]);
    assert longer[k] == line[k];
    assert !IsBlank(cm, longer);
  }

  /** A date that fails to parse never rejects a line: the record is the one a parser
      that rejects every date gives, except for its date. */
  lemma DateFailureIsNotFatal(
    cm: CharModel, parseNumber: string -> Option<real>, parseDate: string -> Option<DateTime>, line: string)
    ensures ParseTweetLine(cm, parseNumber, parseDate, line).Some?
            <==> ParseTweetLine(cm, parseNumber, _ => None, line).Some?
    ensures ParseTweetLine(cm, parseNumber, parseDate, line).Some? ==>
              && ParseTweetLine(cm, parseNumber, _ => None, line).value.date == DefaultDate
              && ParseTweetLine(cm, parseNumber, _ => None, line).value
                 == ParseTweetLine(cm, parseNumber, parseDate, line).value.(date := DefaultDate)
  {
  }

  /** The record one line gives: none when it is skipped. */
  function LineTweets(
    cm: CharModel, parseNumber: string -> Option<real>, parseDate: string -> Option<DateTime>, line: string
  ): (r: seq<Tweet>)
    ensures |r| <= 1
  {
    match ParseTweetLine(cm, parseNumber, parseDate, line)
    case Some(t) => [t]
    case None => []
  }

  /** The line parser with its number and date parsers fixed. */
  function LineParser(
    cm: CharModel, parseNumber: string -> Option<real>, parseDate: string -> Option<DateTime>
  ): string -> seq<Tweet> {
    line => LineTweets(cm, parseNumber, parseDate, line)
  }

  /** The records of LoadTweets, one per accepted line, in line order. */
  function LoadTweets(
    cm: CharModel, parseNumber: string -> Option<real>, parseDate: string -> Option<DateTime>, lines: seq<string>
  ): (r: seq<Tweet>)
    ensures |r| <= |lines|
  {
    FlatMap(LineParser(cm, parseNumber, parseDate), lines)
  }

  /** The records of two files' worth of lines are the records of each, in order. */
  lemma LoadTweetsAppend(
    cm: CharModel, parseNumber: string -> Option<real>, parseDate: string -> Option<DateTime>,
    a: seq<string>, b: seq<string>)
    ensures LoadTweets(cm, parseNumber, parseDate, a + b)
            == LoadTweets(cm, parseNumber, parseDate, a) + LoadTweets(cm, parseNumber, parseDate, b)
  {
    FlatMapAppend(LineParser(cm, parseNumber, parseDate), a, b);
  }

  /** A single line yields its record, or nothing when it is skipped. */
  lemma LoadTweetsOfLine(
    cm: CharModel, parseNumber: string -> Option<real>, parseDate: string -> Option<DateTime>, line: string)
    ensures LoadTweets(cm, parseNumber, parseDate, [line])
            == match ParseTweetLine(cm, parseNumber, parseDate, line)
               case Some(t) => [t]
               case None => []
  {
    assert [line][1..] == [];
  }
}
