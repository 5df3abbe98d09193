/** The sentiment dictionary: a Dictionary<string, double> built with
    StringComparer.OrdinalIgnoreCase. Entries are kept in insertion order, which is also
    the order a .NET dictionary without removals enumerates them in. */
module Lexicon {
  import opened Options
  import opened Text

  datatype Entry = Entry(key: string, weight: real)

  type Dictionary = seq<Entry>

  /** No two keys are equal ignoring case, as the comparer guarantees. */
  predicate KeysDistinct(cm: CharModel, d: Dictionary) {
    forall i, j :: 0 <= i < j < |d| ==> !SameIgnoringCase(cm, d[i].key, d[j].key)
  }

  /** Position of the entry whose key equals `key` ignoring case. */
  function FindKey(cm: CharModel, d: Dictionary, key: string): (r: Option<nat>)
    ensures r.Some? ==> r.value < |d| && SameIgnoringCase(cm, d[r.value].key, key)
    ensures r.Some? ==> forall j :: 0 <= j < r.value ==> !SameIgnoringCase(cm, d[j].key, key)
    ensures r.None? ==> forall j :: 0 <= j < |d| ==> !SameIgnoringCase(cm, d[j].key, key)
    decreases |d|
  {
    if |d| == 0 then None
    else if SameIgnoringCase(cm, d[0].key, key) then Some(0)
    else match FindKey(cm, d[1..], key)
      case None => None
      case Some(j) => Some(j + 1)
  }

  /** TryGetValue: the weight stored under `key`, compared ignoring case. */
  function TryGetValue(cm: CharModel, d: Dictionary, key: string): (r: Option<real>)
    ensures r.Some? ==> exists j :: 0 <= j < |d| && SameIgnoringCase(cm, d[j].key, key) && r.value == d[j].weight
  {
    match FindKey(cm, d, key)
    case None => None
    case Some(j) => Some(d[j].weight)
  }

  /** A lookup succeeds exactly when some key equals the query ignoring case, and with
      distinct keys it yields that key's weight. */
  lemma TryGetValueFinds(cm: CharModel, d: Dictionary, key: string)
    ensures TryGetValue(cm, d, key).Some? <==> exists j :: 0 <= j < |d| && SameIgnoringCase(cm, d[j].key, key)
    ensures KeysDistinct(cm, d) ==>
              forall j :: 0 <= j < |d| && SameIgnoringCase(cm, d[j].key, key) ==> TryGetValue(cm, d, key) == Some(d[j].weight)
  {
  }

  /** The indexer `d[key] = weight`: an existing entry keeps its key spelling and its place
      and takes the new weight; otherwise a new entry is appended. */
  function SetWeight(cm: CharModel, d: Dictionary, key: string, weight: real): (r: Dictionary)
    ensures |r| == |d| || |r| == |d| + 1
    ensures forall j :: 0 <= j < |d| ==> r[j].key == d[j].key
    ensures KeysDistinct(cm, d) ==> KeysDistinct(cm, r)
  {
    match FindKey(cm, d, key)
    case Some(j) => d[j := Entry(d[j].key, weight)]
    case None => d + [Entry(key, weight)]
  }

  /** After storing a weight, looking the key up gives that weight, and looking up any
      key that differs from it ignoring case gives what it gave before. */
  lemma SetWeightLookup(cm: CharModel, d: Dictionary, key: string, weight: real)
    ensures TryGetValue(cm, SetWeight(cm, d, key, weight), key) == Some(weight)
    ensures forall q :: !SameIgnoringCase(cm, q, key) ==>
              TryGetValue(cm, SetWeight(cm, d, key, weight), q) == TryGetValue(cm, d, q)
  {
    var r := SetWeight(cm, d, key, weight);
    match FindKey(cm, d, key)
    case Some(j) =>
      forall q | !SameIgnoringCase(cm, q, key) ensures FindKey(cm, r, q) == FindKey(cm, d, q) {
        FindKeyUnchanged(cm, d, r, q, j);
      }
      FindKeyUnchanged(cm, d, r, key, j);
    case None =>
      forall q | !SameIgnoringCase(cm, q, key) ensures FindKey(cm, r, q) == FindKey(cm, d, q) {
        FindKeyAppend(cm, d, Entry(key, weight), q);
      }
      FindKeyAppend(cm, d, Entry(key, weight), key);
  }

  lemma {:induction false} FindKeyUnchanged(cm: CharModel, d: Dictionary, r: Dictionary, q: string, j: nat)
    requires |r| == |d| && j < |d|
    requires forall i :: 0 <= i < |d| && i != j ==> r[i] == d[i]
    requires r[j].key == d[j].key
    ensures FindKey(cm, r, q) == FindKey(cm, d, q)
    decreases |d|
  {
    if |d| > 0 && j > 0 {
      FindKeyUnchanged(cm, d[1..], r[1..], q, j - 1);
    }
  }

  lemma {:induction false} FindKeyAppend(cm: CharModel, d: Dictionary, e: Entry, q: string)
    ensures FindKey(cm, d + [e], q) ==
              match FindKey(cm, d, q)
              case Some(j) => Some(j)
              case None => if SameIgnoringCase(cm, e.key, q) then Some(|d|) else None
    decreases |d|
  {
    if |d| > 0 {
      assert (d + [e])[1..] == d[1..] + [e];
      FindKeyAppend(cm, d[1..], e, q);
    }
  }

  /** Lookups do not see case: two keys equal ignoring case find the same weight. */
  lemma {:induction false} TryGetValueIgnoresCase(cm: CharModel, d: Dictionary, a: string, b: string)
    requires SameIgnoringCase(cm, a, b)
    ensures TryGetValue(cm, d, a) == TryGetValue(cm, d, b)
  {
    FindKeyIgnoresCase(cm, d, a, b);
  }

  lemma {:induction false} FindKeyIgnoresCase(cm: CharModel, d: Dictionary, a: string, b: string)
    requires SameIgnoringCase(cm, a, b)
    ensures FindKey(cm, d, a) == FindKey(cm, d, b)
    decreases |d|
  {
    if |d| > 0 {
      FindKeyIgnoresCase(cm, d[1..], a, b);
    }
  }

  // ---------------------------------------------------------------------------
  // GetMaxPhraseLength
  // ---------------------------------------------------------------------------

  /** The non-empty parts, as StringSplitOptions.RemoveEmptyEntries keeps them. */
  function RemoveEmpty(parts: seq<string>): (r: seq<string>)
    ensures forall k :: 0 <= k < |r| ==> r[k] != "" && r[k] in parts
    ensures forall p :: p in parts && p != "" ==> p in r
    decreases |parts|
  {
    if |parts| == 0 then []
    else if parts[0] == "" then RemoveEmpty(parts[1..])
    else [parts[0]] + RemoveEmpty(parts[1..])
  }

  /** Every non-empty part is kept as often as it occurs, and no empty part is kept. */
  lemma {:induction false} RemoveEmptyCounts(parts: seq<string>)
    ensures multiset(RemoveEmpty(parts)) == multiset(parts)["" := 0]
    decreases |parts|
  {
    if |parts| > 0 {
      RemoveEmptyCounts(parts[1..]);
      assert parts == [parts[0]] + parts[1..];
      assert multiset(parts) == multiset{parts[0]} + multiset(parts[1..]);
    }
  }

  /** key.Split(' ', RemoveEmptyEntries).Length: the number of space-separated words. */
  function WordCount(key: string): nat {
    |RemoveEmpty(Split(key, ' '))|
  }

  /** The longest word count of any key, and at least 1. */
  function MaxPhraseLength(d: Dictionary): (m: nat)
    ensures m >= 1
    ensures forall j :: 0 <= j < |d| ==> WordCount(d[j].key) <= m
    ensures m == 1 || exists j :: 0 <= j < |d| && WordCount(d[j].key) == m
    decreases |d|
  {
    if |d| == 0 then 1
    else
      var prefix := MaxPhraseLength(d[..|d| - 1]);
      var last := WordCount(d[|d| - 1].key);
      assert forall j :: 0 <= j < |d| - 1 ==> d[..|d| - 1][j] == d[j];
      if last > prefix then last else prefix
  }

  /** GetMaxPhraseLength, the foreach over the keys. */
  method GetMaxPhraseLength(d: Dictionary) returns (maxLength: int)
    ensures maxLength >= 1
    ensures maxLength == MaxPhraseLength(d)
  {
    maxLength := 1;
    var i := 0;
    while i < |d|
      invariant 0 <= i <= |d|
      invariant maxLength == MaxPhraseLength(d[..i])
    {
      var length := WordCount(d[i].key);
      if length > maxLength {
        maxLength := length;
      }
      assert d[..i + 1][..i] == d[..i];
      i := i + 1;
    }
    assert d[..i] == d;
  }
}
