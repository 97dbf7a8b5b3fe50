/** The filter resource: a stemming algorithm and a stop-word set fixed at
    construction, and the three token pipelines it exposes. Each pipeline
    lowercases every token first; stop words are dropped next, judged on the
    lowercased token; stemming, where it happens, comes last. */
module SoyStemmer {
  import opened Results
  import opened Language
  import opened StopWords
  import Iter

  datatype FilterEx = FilterEx(algo: Algorithm, stopwords: StopWordsSet)

  /** Builds a filter. Only an unsupported language code fails; any stop-word
      list is accepted, including an empty one or one with repeats. */
  function New(lower: Lowercase, lang: string, stopwords: seq<string>): (r: Result<FilterEx>)
    ensures r.Ok? <==> lang in SupportedCodes
    ensures r.Ok? ==> Code(r.value.algo) == lang
    ensures r.Ok? ==> forall w :: Contains(r.value.stopwords, w) <==>
                                  exists i :: 0 <= i < |stopwords| && lower(stopwords[i]) == w
    ensures r.Err? ==> r.message == NotSupported + lang
  {
    var algo :- LangNameToAlgo(lang);
    Ok(FilterEx(algo, From(lower, stopwords)))
  }

  /** The stop-word test on a lowercased token, as the closure the pipelines filter by */
  function Keeper(f: FilterEx): string -> bool {
    (w: string) => !Contains(f.stopwords, w)
  }

  /** The stemmer the filter was built with, as the closure the pipelines map */
  function Stemmer(stem: Stemming, f: FilterEx): string -> string {
    (w: string) => stem(f.algo, w)
  }

  /** lowercase, then stem */
  function FilterStem(lower: Lowercase, stem: Stemming, f: FilterEx, words: seq<string>): (r: seq<string>)
    ensures |r| == |words|
    ensures forall i :: 0 <= i < |words| ==> r[i] == stem(f.algo, lower(words[i]))
  {
    Iter.Map(Stemmer(stem, f), Iter.Map(lower, words))
  }

  /** lowercase, then drop stop words */
  function RemoveStopwords(lower: Lowercase, f: FilterEx, words: seq<string>): (r: seq<string>)
    ensures |r| <= |words|
    ensures forall k :: 0 <= k < |r| ==> !Contains(f.stopwords, r[k])
    ensures forall k :: 0 <= k < |r| ==> exists i :: 0 <= i < |words| && lower(words[i]) == r[k]
  {
    var lowered := Iter.Map(lower, words);
    var r := Iter.Filter(Keeper(f), lowered);
    assert forall k :: 0 <= k < |r| ==> exists i :: 0 <= i < |words| && lower(words[i]) == r[k] by {
      forall k | 0 <= k < |r|
        ensures exists i :: 0 <= i < |words| && lower(words[i]) == r[k]
      {
        var i :| 0 <= i < |lowered| && lowered[i] == r[k];
        assert lower(words[i]) == r[k];
      }
    }
    r
  }

  /** lowercase, then drop stop words, then stem: the stems of what
      RemoveStopwords keeps */
  function RemoveStopwordsAndStem(lower: Lowercase, stem: Stemming, f: FilterEx, words: seq<string>): (r: seq<string>)
    ensures |r| == |RemoveStopwords(lower, f, words)| <= |words|
    ensures forall k :: 0 <= k < |r| ==> r[k] == stem(f.algo, RemoveStopwords(lower, f, words)[k])
  {
    var kept := Iter.Filter(Keeper(f), Iter.Map(lower, words));
    Iter.Map(Stemmer(stem, f), kept)
  }

  /** The positions of `words` whose lowercased token is not a stop word, in increasing order */
  function Survivors(lower: Lowercase, f: FilterEx, words: seq<string>): seq<nat> {
    Iter.Kept(Keeper(f), Iter.Map(lower, words), 0)
  }

  /** RemoveStopwords is the input, lowercased, read at the strictly
      increasing positions listed by Survivors */
  lemma RemoveStopwordsInOrder(lower: Lowercase, f: FilterEx, words: seq<string>)
    ensures |Survivors(lower, f, words)| == |RemoveStopwords(lower, f, words)|
    ensures Iter.Increasing(Survivors(lower, f, words))
    ensures forall k :: 0 <= k < |RemoveStopwords(lower, f, words)| ==>
              Survivors(lower, f, words)[k] < |words| &&
              RemoveStopwords(lower, f, words)[k] == lower(words[Survivors(lower, f, words)[k]])
  {
    Iter.FilterEmbeds(Keeper(f), Iter.Map(lower, words));
  }

  /** Survivors lists exactly the positions whose lowercased token is not a stop word */
  lemma SurvivorsExactly(lower: Lowercase, f: FilterEx, words: seq<string>)
    ensures forall i :: 0 <= i < |words| ==>
              (i in Survivors(lower, f, words) <==> !Contains(f.stopwords, lower(words[i])))
  {
    Iter.KeptExactly(Keeper(f), Iter.Map(lower, words));
  }

  /** Every lowercased token that is not a stop word survives */
  lemma NonStopWordsSurvive(lower: Lowercase, f: FilterEx, words: seq<string>)
    ensures forall i :: 0 <= i < |words| && !Contains(f.stopwords, lower(words[i])) ==>
              lower(words[i]) in RemoveStopwords(lower, f, words)
  {
    var lowered := Iter.Map(lower, words);
    Iter.FilterKeepsSatisfying(Keeper(f), lowered);
    assert forall i :: 0 <= i < |words| ==> lowered[i] == lower(words[i]);
  }

  /** Stop words are decided before stemming: the stemmed output is FilterStem
      read at the positions whose lowercased (unstemmed) token is not a stop word */
  lemma StemmedSurvivorsInOrder(lower: Lowercase, stem: Stemming, f: FilterEx, words: seq<string>)
    ensures forall k :: 0 <= k < |RemoveStopwordsAndStem(lower, stem, f, words)| ==>
              k < |Survivors(lower, f, words)| && Survivors(lower, f, words)[k] < |words| &&
              RemoveStopwordsAndStem(lower, stem, f, words)[k] ==
              FilterStem(lower, stem, f, words)[Survivors(lower, f, words)[k]]
  {
    RemoveStopwordsInOrder(lower, f, words);
    var idx, kept := Survivors(lower, f, words), RemoveStopwords(lower, f, words);
    var r := RemoveStopwordsAndStem(lower, stem, f, words);
    forall k | 0 <= k < |r|
      ensures k < |idx| && idx[k] < |words| && r[k] == FilterStem(lower, stem, f, words)[idx[k]]
    {
      assert r[k] == stem(f.algo, kept[k]);
      assert kept[k] == lower(words[idx[k]]);
    }
  }

  /** A single token is dropped exactly when its lowercased form is a stop
      word, whatever the stemmer would have made of it; otherwise its stem is
      the whole output */
  lemma SingleToken(lower: Lowercase, stem: Stemming, f: FilterEx, t: string)
    ensures RemoveStopwords(lower, f, [t]) == [] <==> Contains(f.stopwords, lower(t))
    ensures RemoveStopwordsAndStem(lower, stem, f, [t]) == [] <==> Contains(f.stopwords, lower(t))
    ensures !Contains(f.stopwords, lower(t)) ==>
              RemoveStopwordsAndStem(lower, stem, f, [t]) == [stem(f.algo, lower(t))]
  {
    var r := RemoveStopwords(lower, f, [t]);
    if !Contains(f.stopwords, lower(t)) {
      NonStopWordsSurvive(lower, f, [t]);
      assert lower([t][0]) in r;
      assert |r| == 1;
    }
  }

  /** Case-insensitive stop words: for a filter built from list `stopwords`, a
      single token is dropped exactly when it lowercases to the lowercase of
      some list entry */
  lemma DroppedIffStopWord(lower: Lowercase, lang: string, stopwords: seq<string>, t: string)
    requires lang in SupportedCodes
    ensures RemoveStopwords(lower, New(lower, lang, stopwords).value, [t]) == [] <==>
            exists s :: s in stopwords && lower(s) == lower(t)
  {
    var f := New(lower, lang, stopwords).value;
    SingleToken(lower, (a: Algorithm, w: string) => w, f, t);
    if Contains(f.stopwords, lower(t)) {
      var i :| 0 <= i < |stopwords| && lower(stopwords[i]) == lower(t);
      assert stopwords[i] in stopwords;
    }
  }

  /** The stop-word list filters itself out entirely */
  lemma StopListRemovesItself(lower: Lowercase, lang: string, stopwords: seq<string>)
    requires lang in SupportedCodes
    ensures RemoveStopwords(lower, New(lower, lang, stopwords).value, stopwords) == []
  {
    var f := New(lower, lang, stopwords).value;
    var lowered := Iter.Map(lower, stopwords);
    forall i | 0 <= i < |lowered|
      ensures !Keeper(f)(lowered[i])
    {
      assert lower(stopwords[i]) == lowered[i];
    }
    Iter.FilterDropsAll(Keeper(f), lowered);
  }

  /** Every operation maps the empty input to the empty output */
  lemma EmptyInput(lower: Lowercase, stem: Stemming, f: FilterEx)
    ensures FilterStem(lower, stem, f, []) == []
    ensures RemoveStopwords(lower, f, []) == []
    ensures RemoveStopwordsAndStem(lower, stem, f, []) == []
  {
  }

  /** With no stop words nothing is dropped: the removing operations reduce to
      plain lowercasing and to FilterStem */
  lemma EmptyStopSetKeepsAll(lower: Lowercase, stem: Stemming, f: FilterEx, words: seq<string>)
    requires f.stopwords.words == {}
    ensures RemoveStopwords(lower, f, words) == Iter.Map(lower, words)
    ensures RemoveStopwordsAndStem(lower, stem, f, words) == FilterStem(lower, stem, f, words)
  {
    Iter.FilterKeepsAll(Keeper(f), Iter.Map(lower, words));
  }

  /** The operations work token by token: running them on two chunks of the
      input and joining the results is the same as running them on the whole */
  lemma Chunking(lower: Lowercase, stem: Stemming, f: FilterEx, a: seq<string>, b: seq<string>)
    ensures FilterStem(lower, stem, f, a + b) == FilterStem(lower, stem, f, a) + FilterStem(lower, stem, f, b)
    ensures RemoveStopwords(lower, f, a + b) == RemoveStopwords(lower, f, a) + RemoveStopwords(lower, f, b)
    ensures RemoveStopwordsAndStem(lower, stem, f, a + b) ==
            RemoveStopwordsAndStem(lower, stem, f, a) + RemoveStopwordsAndStem(lower, stem, f, b)
  {
    Iter.MapAppend(lower, a, b);
    Iter.FilterAppend(Keeper(f), Iter.Map(lower, a), Iter.Map(lower, b));
    Iter.MapAppend(Stemmer(stem, f), Iter.Map(lower, a), Iter.Map(lower, b));
    Iter.MapAppend(Stemmer(stem, f), RemoveStopwords(lower, f, a), RemoveStopwords(lower, f, b));
  }

  /** With an idempotent lowercasing, removing stop words a second time changes nothing */
  lemma RemoveStopwordsIdempotent(lower: Lowercase, f: FilterEx, words: seq<string>)
    requires Idempotent(lower)
    ensures RemoveStopwords(lower, f, RemoveStopwords(lower, f, words)) == RemoveStopwords(lower, f, words)
  {
    var once := RemoveStopwords(lower, f, words);
    assert Iter.Map(lower, once) == once;
    Iter.FilterKeepsAll(Keeper(f), once);
  }
}
