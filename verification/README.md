# Twitter-Trends core in Dafny

Twitter-Trends reads a file of geotagged tweets, a sentiment dictionary of words and
phrases with weights, and a JSON file of US state outlines. It scores each tweet by
greedy longest-phrase matching against the dictionary and places it in the first
state whose outline contains it. Each state then gets the mean sentiment of its tweets.

This project models the two core classes, `DataAnalyzer` and `DataParser` of
`Twitter-Trends.Core`, as pure Dafny functions and short methods, and proves properties
of them:

- **Tokenizer**: the matches of `[\p{L}'-]+` are the maximal runs of class characters,
  lower-cased.
- **Lexicon**: the `OrdinalIgnoreCase` dictionary, its lookup and indexer assignment, and
  `GetMaxPhraseLength`.
- **Sentiment**: the scorer of `AnalyzeSentiment` as a walk of segments. At every
  position the walk takes the longest dictionary phrase within the look-ahead, or skips
  one word. The score is the mean of the matched weights. `AnalyzeTweetsSentiment`
  applies it to every tweet.
- **Locator** and **Grouping**: `FindTweetState`, `ReverseCoordinates`,
  `GroupTweetsByState` and `CalculateStateSentiment`.
- **TweetLines**, **SentimentLines** and **StateLoader**: the line and property logic
  of `LoadTweets`, `LoadSentiments` and `LoadStates`.
- **NestedLists**: `TryParseNestedLists` over a JSON value tree, with its shared buffers
  and its `isLevel4` flag.
- **Rings**: `ConvertToMultiPolygon`.
- **Lists**: `FlatMap`, the shape shared by the loops that append zero or one result per
  input item (lines, properties, point entries, rings, defined sentiments).
- **Text** and **Stats**: the runtime string operations (`Split`, `Join`, `Trim`,
  `IsNullOrWhiteSpace`) and the arithmetic mean the core relies on.
- **Scenarios**: concrete runs. Among them, "this is not good" scores -1 against
  `{"good": 1, "not good": -1}`, and one example shows the sticky `isLevel4` flag.

The runtime's behaviour is passed in as parameters and left uninterpreted:

- Character classification and case mapping come in a `CharModel`.
- Number and date parsing are `string -> Option<...>`.
- `JsonElement.GetSingle` is `narrow: real -> real`.
- NetTopologySuite's `MultiPolygon.Contains` is `contains: (MultiPolygon, Point) -> bool`.
- A file that may not exist is an `Option` of its lines or of its parsed document.

## Model

| member | source | states |
|---|---|---|
| Tokenizer.Runs | Twitter-Trends.Core/DataAnalyzer.cs:14-19 | the regex scan yields maximal runs of `[\p{L}'-]`, left to right and separated by at least one other character |
| Tokenizer.ScanFindsAllMaximalRuns | Twitter-Trends.Core/DataAnalyzer.cs:14-19 | the scan misses no run: every class character of the text lies inside one of the spans found |
| Tokenizer.RunsCount | Twitter-Trends.Core/DataAnalyzer.cs:14-19 | there is exactly one match per position where a run of class characters begins |
| Tokenizer.TokensAreLoweredMaximalRuns | Twitter-Trends.Core/DataAnalyzer.cs:16-21 | the tokens are the lower-cased maximal runs, one per run start, in text order |
| Tokenizer.TokenizeTweet | Twitter-Trends.Core/DataAnalyzer.cs:14-21 | an empty text has no tokens, and no token is empty, since `+` matches at least one character |
| Tokenizer.TokensHoldOnlyClassCharacters | Twitter-Trends.Core/DataAnalyzer.cs:14-21 | if lower-casing keeps class characters in the class, no token contains a character outside `[\p{L}'-]` |
| Lexicon.FindKey | Twitter-Trends.Core/DataParser.cs:66 | the position found is the first key equal to the query ignoring case; None means no key equals it |
| Lexicon.TryGetValue | Twitter-Trends.Core/DataAnalyzer.cs:45 | a weight found is the weight of a key equal to the query ignoring case |
| Lexicon.TryGetValueFinds | Twitter-Trends.Core/DataAnalyzer.cs:45 | a lookup succeeds iff some key equals the query ignoring case; with distinct keys it returns that key's weight |
| Lexicon.TryGetValueIgnoresCase | Twitter-Trends.Core/DataParser.cs:66 | two queries equal ignoring case find the same weight |
| Lexicon.SetWeight | Twitter-Trends.Core/DataParser.cs:87 | `d[key] = w` adds at most one entry, keeps every existing key's spelling and place, and keeps keys distinct ignoring case |
| Lexicon.SetWeightLookup | Twitter-Trends.Core/DataParser.cs:87 | after `d[key] = w` the key maps to w, and every key that differs from it ignoring case keeps its lookup |
| Lexicon.RemoveEmpty | Twitter-Trends.Core/DataAnalyzer.cs:86 | every part kept is a non-empty input part, and every non-empty input part is kept |
| Lexicon.RemoveEmptyCounts | Twitter-Trends.Core/DataAnalyzer.cs:86 | each non-empty part is kept as many times as it occurs, and no empty part is kept, so the word count counts repeated words |
| Lexicon.MaxPhraseLength | Twitter-Trends.Core/DataAnalyzer.cs:81-91 | at least 1, no key has more words, and it equals some key's word count unless it is 1 |
| Lexicon.GetMaxPhraseLength | Twitter-Trends.Core/DataAnalyzer.cs:81-91 | the loop computes MaxPhraseLength: at least 1 and the largest word count of any key |
| Sentiment.LongestMatch | Twitter-Trends.Core/DataAnalyzer.cs:42-53 | a match is between one word and the look-ahead long |
| Sentiment.LongestMatchIsLongest | Twitter-Trends.Core/DataAnalyzer.cs:42-53 | the match found is a dictionary phrase with that phrase's weight, and no longer candidate within the look-ahead is in the dictionary |
| Sentiment.FindLongestPhrase | Twitter-Trends.Core/DataAnalyzer.cs:42-53 | the downward for-loop stops at the longest candidate the dictionary holds, with its length and weight, and finds nothing when none is held |
| Sentiment.SegmentsTileGreedily | Twitter-Trends.Core/DataAnalyzer.cs:36-65 | the walk consumes every word exactly once, and at each position it takes the greedy longest match or skips one word |
| Sentiment.FallbackNeverMatches | Twitter-Trends.Core/DataAnalyzer.cs:55-64 | once the length loop has failed, the single-word fallback lookup cannot succeed |
| Sentiment.WalkMatch | Twitter-Trends.Core/DataAnalyzer.cs:45-51 | a matched phrase adds its weight once and moves the position past the whole phrase |
| Sentiment.WalkSkip | Twitter-Trends.Core/DataAnalyzer.cs:55-63 | a position without a match adds nothing and moves one word on |
| Sentiment.LoopStepMatch | Twitter-Trends.Core/DataAnalyzer.cs:45-51 | an iteration that finds a phrase adds that phrase's weight and one match, and the walk left from past the phrase holds the rest |
| Sentiment.LoopStepSkip | Twitter-Trends.Core/DataAnalyzer.cs:55-64 | an iteration that finds no phrase misses in the fallback lookup too, and the walk left from the next word holds all the rest |
| Sentiment.Iterate | Twitter-Trends.Core/DataAnalyzer.cs:38-64 | one iteration moves forward, and what it adds to the sum and count is exactly what the walk left behind it loses |
| Sentiment.SumPhraseWeights | Twitter-Trends.Core/DataAnalyzer.cs:32-65 | the while-loop's sum and count are the sum and the number of the walk's matched weights |
| Sentiment.AnalyzeSentiment | Twitter-Trends.Core/DataAnalyzer.cs:23-68 | the method returns the walk's mean matched weight, or null when there are no tokens or no matches |
| Sentiment.Score | Twitter-Trends.Core/DataAnalyzer.cs:23-68 | a tweet's score is null iff its text has no tokens or the walk over them matches no phrase; otherwise it lies between the smallest and the largest matched weight |
| Sentiment.ScoreNoneIff | Twitter-Trends.Core/DataAnalyzer.cs:26-27 | the score is null iff the text has no tokens or every step of the walk skipped, so an unmatched tweet never scores 0 |
| Sentiment.ScoreBetweenMatchedWeights | Twitter-Trends.Core/DataAnalyzer.cs:67 | the score lies within any bounds that hold for the matched weights |
| Sentiment.WeightsAreMatchedWeights | Twitter-Trends.Core/DataAnalyzer.cs:47 | every weight summed is the weight of a matched segment of the walk |
| Sentiment.EmptyDictionaryScoresNone | Twitter-Trends.Core/DataAnalyzer.cs:23-68 | with an empty dictionary no tweet gets a sentiment |
| Sentiment.AnalyzeTweetsSentiment | Twitter-Trends.Core/DataAnalyzer.cs:70-78 | every tweet gets the score of its own text; the count, texts, locations and dates are unchanged |
| Sentiment.AnalyzeTweetsSentimentAppend | Twitter-Trends.Core/DataAnalyzer.cs:72-75 | tweets are scored independently, so scoring a concatenation scores each part |
| Locator.ReverseCoordinates | Twitter-Trends.Core/DataAnalyzer.cs:108-111 | X and Y are exchanged; exchanging them back gives the original point |
| Locator.FirstContainingIsFirst | Twitter-Trends.Core/DataAnalyzer.cs:97-105 | the index returned is the first state that contains the point; None iff no state contains it |
| Locator.FindTweetState | Twitter-Trends.Core/DataAnalyzer.cs:93-106 | a state found is one of the listed states, and its shape contains the tweet's location with the axes swapped |
| Locator.FindTweetStateIsFirst | Twitter-Trends.Core/DataAnalyzer.cs:93-106 | null iff no state contains the swapped location; otherwise a listed state that contains it, with no earlier state containing it |
| Locator.FindTweetStateOrder | Twitter-Trends.Core/DataAnalyzer.cs:97-103 | a front state that contains the point wins; a front state that does not is passed over |
| Grouping.GroupTweetsByState | Twitter-Trends.Core/DataAnalyzer.cs:113-137 | no group is empty: a state's list is created only when a tweet is added to it |
| Grouping.GroupKeysAreLocatedCodes | Twitter-Trends.Core/DataAnalyzer.cs:113-137 | a postal code is a key iff some tweet is located in that state |
| Grouping.GroupsHoldLocatedTweets | Twitter-Trends.Core/DataAnalyzer.cs:118-134 | up to order, each group holds exactly its state's tweets with multiplicity; groups are never empty |
| Grouping.GroupingConservesTweets | Twitter-Trends.Core/DataAnalyzer.cs:118-134 | the group sizes plus the unlocated tweets add up to the input count: no tweet is lost or duplicated |
| Grouping.AddToGroupTotal | Twitter-Trends.Core/DataAnalyzer.cs:126-131 | one locked append adds exactly one tweet across all groups |
| Grouping.CalculateStateSentiment | Twitter-Trends.Core/DataAnalyzer.cs:139-161 | the result has the groups' keys, and each value is the mean of that group's defined sentiments, or null |
| Grouping.StateMean | Twitter-Trends.Core/DataAnalyzer.cs:145-157 | a state's sentiment is null iff none of its tweets has a sentiment; otherwise it lies between the smallest and the largest defined sentiment |
| Grouping.StateMeanWithin | Twitter-Trends.Core/DataAnalyzer.cs:150-153 | a state's sentiment lies within any bounds on its tweets' sentiments |
| Grouping.DefinedPermutation | Twitter-Trends.Core/DataAnalyzer.cs:145-148 | reordering a group reorders its defined sentiments |
| Grouping.StateMeanPermutation | Twitter-Trends.Core/DataAnalyzer.cs:145-153 | a state's sentiment does not depend on the order within its group |
| Grouping.StateSentimentOfGroup | Twitter-Trends.Core/DataAnalyzer.cs:113-161 | whatever order the parallel grouping appended in, a state's sentiment is the mean over the tweets located in it |
| Stats.MeanWithin | Twitter-Trends.Core/DataAnalyzer.cs:152 | an average lies within any bounds on its elements |
| Stats.MeanPermutation | Twitter-Trends.Core/DataAnalyzer.cs:152 | an average does not depend on the order of its elements |
| Stats.MeanBetweenMinAndMax | Twitter-Trends.Core/DataAnalyzer.cs:152 | an average lies between the least and the greatest element |
| Text.Split | Twitter-Trends.Core/DataParser.cs:27 | at least one part, and no part contains the separator |
| Text.JoinSplit | Twitter-Trends.Core/DataParser.cs:27 | joining the parts of a split with the separator gives back the string |
| Text.SplitJoin | Twitter-Trends.Core/DataAnalyzer.cs:44 | splitting a join of separator-free parts gives back the parts |
| Text.SplitCount | Twitter-Trends.Core/DataParser.cs:80-81 | a split has one more part than the string has separators |
| Text.SplitAppend | Twitter-Trends.Core/DataParser.cs:27 | splitting across a separator splits each side |
| TweetLines.ParseTweetLine | Twitter-Trends.Core/DataParser.cs:23-58 | blank lines, lines with fewer than 4 fields or 2 coordinates, and unparsable coordinates are skipped; otherwise X is the parsed latitude, Y the parsed longitude, the text is the trimmed 4th field, the date falls back to the default, and there is no sentiment |
| TweetLines.DateFailureIsNotFatal | Twitter-Trends.Core/DataParser.cs:47-48 | the result of the date parse is ignored: a line is accepted iff it is accepted when no date parses, and then the record differs only in its date, which falls back to the default |
| TweetLines.ExtraFieldsIgnored | Twitter-Trends.Core/DataParser.cs:27-51 | fields after the fourth do not affect the record |
| TweetLines.LoadTweets | Twitter-Trends.Core/DataParser.cs:15-62 | there are never more tweets than lines |
| TweetLines.LoadTweetsAppend | Twitter-Trends.Core/DataParser.cs:21-59 | lines are handled independently and in order |
| TweetLines.LoadTweetsOfLine | Twitter-Trends.Core/DataParser.cs:21-59 | a single line gives its record, or nothing when it is skipped |
| SentimentLines.ParseSentimentLine | Twitter-Trends.Core/DataParser.cs:77-88 | a line counts iff it is not blank, has exactly two comma fields and its weight parses; the key is the trimmed first field |
| SentimentLines.LoadSentimentLines | Twitter-Trends.Core/DataParser.cs:73-91 | the keys are distinct ignoring case, and there are no more entries than lines |
| SentimentLines.LoadSentiments | Twitter-Trends.Core/DataParser.cs:64-92 | a missing file gives an empty dictionary; keys are always distinct ignoring case |
| SentimentLines.LookupIsLastWeight | Twitter-Trends.Core/DataParser.cs:75-89 | looking up a phrase gives the weight of the last accepted line for it in any case, so later lines overwrite earlier ones |
| SentimentLines.LaterLinesOverwrite | Twitter-Trends.Core/DataParser.cs:87 | lines that set a phrase override every earlier file content for it |
| SentimentLines.LastWeightAppend | Twitter-Trends.Core/DataParser.cs:75-89 | the last weight over appended lines comes from the later lines when they set it |
| NestedLists.Level4SomeIff | Twitter-Trends.Core/DataParser.cs:146-156 | the level-4 loop succeeds iff every item is a number, and it leaves the result and the polygon unchanged |
| NestedLists.Level3SomeIff | Twitter-Trends.Core/DataParser.cs:140-169 | the level-3 loop succeeds iff every item is a number or an array of numbers |
| NestedLists.Level2SomeIff | Twitter-Trends.Core/DataParser.cs:136-177 | the level-2 loop succeeds iff every array item passes the level-3 check; other items are skipped |
| NestedLists.Level1SomeIff | Twitter-Trends.Core/DataParser.cs:132-182 | the level-1 loop succeeds iff every array item passes the level-2 check, adding one entry per array item |
| NestedLists.TryParseNestedLists | Twitter-Trends.Core/DataParser.cs:122-185 | the decode returns true iff the element is an array of the accepted shape, with one entry per array item |
| NestedLists.Level4Numbers | Twitter-Trends.Core/DataParser.cs:146-156 | the level-4 loop appends the narrowed numbers to the buffer |
| NestedLists.FourDeepMergesRings | Twitter-Trends.Core/DataParser.cs:140-160 | with four-deep nesting and non-empty rings, each top-level item becomes one list of all its rings' points: holes merge into the shell |
| NestedLists.ThreeDeepKeepsPoints | Twitter-Trends.Core/DataParser.cs:161-175 | with three-deep nesting and the flag clear, each point's numbers become one list, and each top-level item becomes its point list |
| Rings.RingPoints | Twitter-Trends.Core/DataParser.cs:195-203 | a point list never has more points than entries |
| Rings.RingPointsOrigin | Twitter-Trends.Core/DataParser.cs:197-201 | each point is the first two numbers of an entry that has at least two |
| Rings.RingPointsAppend | Twitter-Trends.Core/DataParser.cs:195-203 | points keep the order of their entries |
| Rings.CloseRing | Twitter-Trends.Core/DataParser.cs:205-209 | a non-empty ring comes out closed; a closed ring is unchanged; an open one gets its first point appended |
| Rings.ToPolygonIff | Twitter-Trends.Core/DataParser.cs:195-215 | an entry gives a polygon iff it has at least four usable points, or three whose first and last differ, so that closing the ring makes four |
| Rings.ToPolygon | Twitter-Trends.Core/DataParser.cs:191-215 | at most one polygon per input; its shell is the closed ring, has at least 4 points and no holes |
| Rings.PolygonsOrigin | Twitter-Trends.Core/DataParser.cs:191-216 | every polygon's shell is closed, has at least 4 points and no holes, and is the closed ring of one of the inputs |
| Rings.ConvertToMultiPolygon | Twitter-Trends.Core/DataParser.cs:187-219 | no more polygons than inputs; every shell is closed, has at least 4 points and no holes |
| Rings.PolygonsAppend | Twitter-Trends.Core/DataParser.cs:191-216 | polygons keep the order of their inputs |
| StateLoader.StatesOfCount | Twitter-Trends.Core/DataParser.cs:106-116 | exactly the properties whose value decodes become states |
| StateLoader.StatesOfOrigin | Twitter-Trends.Core/DataParser.cs:108-115 | each state is named after a property whose value decoded, and its shape is the multipolygon of that value |
| StateLoader.StatesOfAppend | Twitter-Trends.Core/DataParser.cs:106-116 | states keep the document order of their properties |
| StateLoader.LoadStatesFromRoot | Twitter-Trends.Core/DataParser.cs:105-119 | a root that is not an object fails; otherwise there is one state per property whose value decodes, never more than there are properties |
| StateLoader.LoadStates | Twitter-Trends.Core/DataParser.cs:93-120 | a missing file gives no states; a root that is not an object fails; otherwise there is one state per decodable property |
| Scenarios.NotGoodScoresMinusOne | Twitter-Trends.Core/DataAnalyzer.cs:36-67 | "this is not good" against {good: 1, not good: -1} matches the two-word phrase once and scores -1 |
| Scenarios.TweetScoresMinusOne | Twitter-Trends.Core/DataAnalyzer.cs:16-67 | the same sentence as tweet text scores -1 end to end |
| Scenarios.StateMeanSkipsUndefined | Twitter-Trends.Core/DataAnalyzer.cs:145-153 | tweets without a sentiment are left out of the state mean, not counted as 0 |
| Scenarios.FlagIsSticky | Twitter-Trends.Core/DataParser.cs:128-175 | once a four-deep item has set the flag, a later three-deep item's points are never flushed and that item decodes to an empty list |

## Left out

- File I/O: `File.ReadAllLines`, `File.Exists` and `File.ReadAllText` become the lines or the parsed document, wrapped in `Option` where the source checks for a missing file.
- LoadTweets: the core version has no missing-file check. A missing file throws there, so the model takes the lines as given.
- JSON text parsing (`JsonDocument.Parse`) is not modelled; the model starts from the JSON value tree. Duplicate property names are kept in document order, as `EnumerateObject` yields them.
- Number and date parsing, `GetSingle`, and the Unicode and culture tables behind `\p{L}`, `IsWhiteSpace`, `ToLower` and `OrdinalIgnoreCase` are parameters. Their definitions are not modelled.
- Point containment, `MultiPolygon.Contains`, is a parameter, so geometric properties of it are not proved.
- `LinearRing` and `Polygon` validation in NetTopologySuite is not modelled. A shell of four points that is still not a valid ring is kept.
- NestedLists.TryParseNestedLists: `GetSingle` throws a `FormatException` when a number is outside the single-precision range, such as `1e39`. The exception escapes TryParseNestedLists and LoadStates. The model's `narrow` is total, so such a document yields a state where the program throws.
- Characters: a .NET `string` is a sequence of UTF-16 code units, and `\p{L}` never matches a lone surrogate. A Dafny `char` is a Unicode scalar value, so a `CharModel` that matches .NET must classify characters outside the Basic Multilingual Plane as non-letters.
- Floating point: weights, coordinates and means are exact reals. `double` rounding and the widening of `GetSingle`'s single-precision value are not modelled.
- Concurrency: `Parallel.ForEach`, `AsParallel().ForAll` and the lock are modelled as sequential loops. The grouping is stated up to order within each group, which is all the lock guarantees.
- The order in which a .NET `Dictionary` enumerates its keys is not modelled; the groups are a map.
- Tokenizer.TokenizeTweet: the regex class also matches tokens made only of apostrophes or hyphens, such as "--". The model keeps this as the code does. The comment at Twitter-Trends.Core/DataAnalyzer.cs:18 only says that apostrophes and hyphens are taken into account.
- Sentiment.AnalyzeTweetsSentiment: the source sets `Sentiment` on the tweet objects in place and returns the same list. The model returns new records, which is the same as long as no one else holds the list.
- Sentiment.SumPhraseWeights: the single-word fallback lookup after a failed search is not executed, because it is proved never to succeed (Sentiment.FallbackNeverMatches).
- NestedLists.TryParseNestedLists: the `isLevel4` flag is never reset, not even between top-level items. The model keeps this as written, and Scenarios.FlagIsSticky shows its effect.
- Lexicon.GetMaxPhraseLength: its ensures ties the result to Lexicon.MaxPhraseLength instead of repeating the bounds. The bounds are stated on MaxPhraseLength.
- Console output and the UI and map-drawing code are outside the core and not modelled.
