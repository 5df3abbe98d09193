/** The per-line logic of LoadSentiments: a line "phrase,weight" sets the weight of the
    phrase in a case-insensitive dictionary, later lines overwriting earlier ones. Number
    parsing (double.TryParse with the invariant culture) is supplied as a parameter. */
module SentimentLines {
  import opened Options
  import opened Text
  import opened Lexicon

  /** One line of the sentiments file: it counts only when it is not blank, splits into
      exactly two comma fields and its second field parses; the key is the trimmed first
      field. */
  function ParseSentimentLine(cm: CharModel, parseNumber: string -> Option<real>, line: string): (r: Option<Entry>)
    ensures r.Some? ==>
              && !IsBlank(cm, line)
              && |Split(line, ',')| == 2
              && r.value.key == Trim(cm, Split(line, ',')[0])
              && parseNumber(Trim(cm, Split(line, ',')[1])) == Some(r.value.weight)
    ensures r.None? ==>
              || IsBlank(cm, line)
              || |Split(line, ',')| != 2
              || parseNumber(Trim(cm, Split(line, ',')[1])).None?
  {
    if IsBlank(cm, line) then None
    else
      var parts := Split(line, ',');
      if |parts| != 2 then None
      else
        match parseNumber(Trim(cm, parts[1]))
        case Some(weight) => Some(Entry(Trim(cm, parts[0]), weight))
        case None => None
  }

  /** The loop over the lines: each accepted line is an indexer assignment. */
  function LoadSentimentLines(cm: CharModel, parseNumber: string -> Option<real>, lines: seq<string>): (d: Dictionary)
    ensures KeysDistinct(cm, d)
    ensures |d| <= |lines|
    decreases |lines|
  {
    if |lines| == 0 then []
    else
      var d := LoadSentimentLines(cm, parseNumber, lines[..|lines| - 1]);
      match ParseSentimentLine(cm, parseNumber, lines[|lines| - 1])
      case Some(e) => SetWeight(cm, d, e.key, e.weight)
      case None => d
  }

  /** LoadSentiments: a missing file (None) gives the empty dictionary. */
  function LoadSentiments(cm: CharModel, parseNumber: string -> Option<real>, file: Option<seq<string>>): (d: Dictionary)
    ensures file.None? ==> d == []
    ensures KeysDistinct(cm, d)
  {
    match file
    case None => []
    case Some(lines) => LoadSentimentLines(cm, parseNumber, lines)
  }

  /** The weight one line gives `q`: its own, if it is accepted and its key equals `q`
      ignoring case. */
  function LineWeight(cm: CharModel, parseNumber: string -> Option<real>, line: string, q: string): Option<real> {
    match ParseSentimentLine(cm, parseNumber, line)
    case Some(e) => if SameIgnoringCase(cm, e.key, q) then Some(e.weight) else None
    case None => None
  }

  /** The first of two options that is present. */
  function FirstOf(later: Option<real>, earlier: Option<real>): Option<real> {
    if later.Some? then later else earlier
  }

  /** The weight the last accepted line for `q`, compared ignoring case, gives it. */
  function LastWeight(cm: CharModel, parseNumber: string -> Option<real>, lines: seq<string>, q: string): Option<real>
    decreases |lines|
  {
    if |lines| == 0 then None
    else FirstOf(LineWeight(cm, parseNumber, lines[|lines| - 1], q), LastWeight(cm, parseNumber, lines[..|lines| - 1], q))
  }

  /** Looking a phrase up in the loaded dictionary gives the weight of the last line for
      that phrase, whatever the case of either: later lines overwrite earlier ones. */
  lemma {:induction false} LookupIsLastWeight(cm: CharModel, parseNumber: string -> Option<real>, lines: seq<string>, q: string)
    ensures TryGetValue(cm, LoadSentimentLines(cm, parseNumber, lines), q) == LastWeight(cm, parseNumber, lines, q)
    decreases |lines|
  {
    if |lines| > 0 {
      var prefix := lines[..|lines| - 1];
      LookupIsLastWeight(cm, parseNumber, prefix, q);
      var d := LoadSentimentLines(cm, parseNumber, prefix);
      match ParseSentimentLine(cm, parseNumber, lines[|lines| - 1])
      case Some(e) =>
        SetWeightLookup(cm, d, e.key, e.weight);
        if SameIgnoringCase(cm, e.key, q) {
          TryGetValueIgnoresCase(cm, SetWeight(cm, d, e.key, e.weight), e.key, q);
        }
      case None =>
    }
  }

  /** Lines appended after the ones that set `q` leave its weight alone unless they set
      it again. */
  lemma {:induction false} LaterLinesOverwrite(cm: CharModel, parseNumber: string -> Option<real>, lines: seq<string>, more: seq<string>, q: string)
    requires LastWeight(cm, parseNumber, more, q).Some?
    ensures TryGetValue(cm, LoadSentimentLines(cm, parseNumber, lines + more), q) == LastWeight(cm, parseNumber, more, q)
  {
    LookupIsLastWeight(cm, parseNumber, lines + more, q);
    LastWeightAppend(cm, parseNumber, lines, more, q);
  }

  lemma {:induction false} LastWeightAppend(cm: CharModel, parseNumber: string -> Option<real>, lines: seq<string>, more: seq<string>, q: string)
    ensures LastWeight(cm, parseNumber, lines + more, q)
            == FirstOf(LastWeight(cm, parseNumber, more, q), LastWeight(cm, parseNumber, lines, q))
    decreases |more|
  {
    if |more| == 0 {
      assert lines + more == lines;
    } else {
      var all := lines + more;
      var front := more[..|more| - 1];
      var hit := LineWeight(cm, parseNumber, more[|more| - 1], q);
      calc {
        LastWeight(cm, parseNumber, all, q);
        { assert all[..|all| - 1] == lines + front && all[|all| - 1] == more[|more| - 1]; }
        FirstOf(hit, LastWeight(cm, parseNumber, lines + front, q));
        { LastWeightAppend(cm, parseNumber, lines, front, q); }
        FirstOf(hit, FirstOf(LastWeight(cm, parseNumber, front, q), LastWeight(cm, parseNumber, lines, q)));
        FirstOf(FirstOf(hit, LastWeight(cm, parseNumber, front, q)), LastWeight(cm, parseNumber, lines, q));
        FirstOf(LastWeight(cm, parseNumber, more, q), LastWeight(cm, parseNumber, lines, q));
      }
    }
  }
}
