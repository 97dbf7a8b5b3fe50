/** End-to-end English scenarios. The lowercasing and the stemmer are only
    pinned down on the strings each scenario uses; everything else about them
    stays arbitrary. */
module Scenarios {
  import opened Results
  import opened Language
  import opened StopWords
  import opened SoyStemmer
  import Iter

  /** The lowercasing leaves the three stop words of the scenarios alone */
  ghost predicate KeepsStopList(lower: Lowercase) {
    lower("the") == "the" && lower("and") == "and" && lower("of") == "of"
  }

  /** The English filter with stop words "the", "and", "of" holds exactly those three */
  lemma StopListScenario(lower: Lowercase)
    requires KeepsStopList(lower)
    ensures New(lower, "en", ["the", "and", "of"]) == Ok(FilterEx(English, StopWordsSet({"the", "and", "of"})))
  {
    var list := ["the", "and", "of"];
    StopListWords(lower);
    CodeRoundTrip(English);
    assert New(lower, "en", list) == Ok(FilterEx(English, From(lower, list)));
  }

  /** The stop set of `StopListScenario`, computed from the list directly */
  lemma StopListWords(lower: Lowercase)
    requires KeepsStopList(lower)
    ensures From(lower, ["the", "and", "of"]).words == {"the", "and", "of"}
  {
    var list := ["the", "and", "of"];
    var s := From(lower, list);
    assert lower(list[0]) == "the" && lower(list[1]) == "and" && lower(list[2]) == "of";
    assert Contains(s, "the") && Contains(s, "and") && Contains(s, "of");
    forall w | w in s.words
      ensures w in {"the", "and", "of"}
    {
      assert Contains(s, w);
      var i :| 0 <= i < |list| && lower(list[i]) == w;
      assert i == 0 || i == 1 || i == 2;
    }
  }

  /** Stemming lowercases first and drops nothing, stop words included */
  lemma StemScenario(lower: Lowercase, stem: Stemming, f: FilterEx)
    requires KeepsStopList(lower) && New(lower, "en", ["the", "and", "of"]) == Ok(f)
    requires lower("Running") == "running" && lower("Jumps") == "jumps" && lower("THE") == "the"
    requires stem(English, "running") == "run" && stem(English, "jumps") == "jump" && stem(English, "the") == "the"
    ensures FilterStem(lower, stem, f, ["Running", "Jumps", "THE"]) == ["run", "jump", "the"]
  {
    StopListScenario(lower);
    var words := ["Running", "Jumps", "THE"];
    assert lower(words[0]) == "running" && lower(words[1]) == "jumps" && lower(words[2]) == "the";
  }

  /** Stop words are matched whatever their case in the input */
  lemma RemoveScenario(lower: Lowercase, f: FilterEx)
    requires KeepsStopList(lower) && New(lower, "en", ["the", "and", "of"]) == Ok(f)
    requires lower("The") == "the" && lower("quick") == "quick" && lower("AND") == "and" && lower("fox") == "fox"
    ensures RemoveStopwords(lower, f, ["The", "quick", "AND", "fox"]) == ["quick", "fox"]
  {
    StopListScenario(lower);
    RemoveWithStopList(lower, f);
  }

  /** `RemoveScenario` for any filter holding the literal stop set, a cheaper helper */
  lemma RemoveWithStopList(lower: Lowercase, f: FilterEx)
    requires f.stopwords.words == {"the", "and", "of"}
    requires lower("The") == "the" && lower("quick") == "quick" && lower("AND") == "and" && lower("fox") == "fox"
    ensures RemoveStopwords(lower, f, ["The", "quick", "AND", "fox"]) == ["quick", "fox"]
  {
    var words := ["The", "quick", "AND", "fox"];
    assert lower(words[0]) == "the" && lower(words[1]) == "quick";
    assert lower(words[2]) == "and" && lower(words[3]) == "fox";
    assert Iter.Map(lower, words) == ["the", "quick", "and", "fox"];
    var p := Keeper(f);
    assert !p("the") && p("quick") && !p("and") && p("fox");
    FilterFourTokens(p, "the", "quick", "and", "fox");
  }

  /** A stop word is dropped before the stemmer sees it; the survivors are stemmed */
  lemma RemoveAndStemScenario(lower: Lowercase, stem: Stemming, f: FilterEx)
    requires KeepsStopList(lower) && New(lower, "en", ["the", "and", "of"]) == Ok(f)
    requires lower("The") == "the" && lower("running") == "running" && lower("foxes") == "foxes"
    requires stem(English, "running") == "run" && stem(English, "foxes") == "fox"
    ensures RemoveStopwordsAndStem(lower, stem, f, ["The", "running", "foxes"]) == ["run", "fox"]
  {
    StopListScenario(lower);
    RemoveAndStemWithStopList(lower, stem, f);
  }

  /** `RemoveAndStemScenario` for the literal English filter, a cheaper helper */
  lemma RemoveAndStemWithStopList(lower: Lowercase, stem: Stemming, f: FilterEx)
    requires f == FilterEx(English, StopWordsSet({"the", "and", "of"}))
    requires lower("The") == "the" && lower("running") == "running" && lower("foxes") == "foxes"
    requires stem(English, "running") == "run" && stem(English, "foxes") == "fox"
    ensures RemoveStopwordsAndStem(lower, stem, f, ["The", "running", "foxes"]) == ["run", "fox"]
  {
    var words := ["The", "running", "foxes"];
    assert lower(words[0]) == "the" && lower(words[1]) == "running" && lower(words[2]) == "foxes";
    assert Iter.Map(lower, words) == ["the", "running", "foxes"];
    var p := Keeper(f);
    assert !p("the") && p("running") && p("foxes");
    FilterThreeTokens(p, "the", "running", "foxes");
    assert RemoveStopwords(lower, f, words) == ["running", "foxes"];
  }

  /** With no stop words every token is stemmed */
  lemma NoStopWordsScenario(lower: Lowercase, stem: Stemming)
    requires lower("Cats") == "cats" && stem(English, "cats") == "cat"
    ensures New(lower, "en", []).Ok?
    ensures RemoveStopwordsAndStem(lower, stem, New(lower, "en", []).value, ["Cats"]) == ["cat"]
  {
    var f := New(lower, "en", []).value;
    EmptyListEmptySet(lower);
    EmptyStopSetKeepsAll(lower, stem, f, ["Cats"]);
  }

  /** An unknown code is refused, naming the code */
  lemma UnknownLanguageScenario(lower: Lowercase)
    ensures New(lower, "zz", []) == Err("stemming language not supported: zz")
  {
  }

  /** Matching is exact after lowercasing: a trailing space keeps a token apart */
  lemma TrailingSpaceScenario(lower: Lowercase)
    requires lower("Hello") == "hello" && lower("hello") == "hello"
    requires lower("HELLO") == "hello" && lower("Hello ") == "hello "
    ensures New(lower, "en", ["Hello"]).Ok?
    ensures RemoveStopwords(lower, New(lower, "en", ["Hello"]).value, ["hello", "HELLO", "Hello "]) == ["hello "]
  {
    var f := New(lower, "en", ["Hello"]).value;
    assert lower(["Hello"][0]) == "hello";
    assert Contains(f.stopwords, "hello");
    assert f.stopwords.words == {"hello"};
    var words := ["hello", "HELLO", "Hello "];
    assert lower(words[0]) == "hello" && lower(words[1]) == "hello" && lower(words[2]) == "hello ";
    assert Iter.Map(lower, words) == ["hello", "hello", "hello "];
    var p := Keeper(f);
    assert !p("hello") && p("hello ");
    FilterThreeTokens(p, "hello", "hello", "hello ");
  }

  /** The stop-word test sees the lowercased token, not its stem: with the
      stop word "run", the token "running" survives and is stemmed to "run",
      where stemming before the test would have dropped it */
  lemma StemOfSurvivorMayBeStopWord(lower: Lowercase, stem: Stemming)
    requires lower("running") == "running" && stem(English, "running") == "run"
    ensures var f := FilterEx(English, StopWordsSet({"run"}));
            && RemoveStopwordsAndStem(lower, stem, f, ["running"]) == ["run"]
            && Iter.Filter(Keeper(f), FilterStem(lower, stem, f, ["running"])) == []
  {
    var f := FilterEx(English, StopWordsSet({"run"}));
    SingleToken(lower, stem, f, "running");
    assert FilterStem(lower, stem, f, ["running"]) == ["run"];
    Iter.FilterCons(Keeper(f), "run", []);
  }

  /** Filtering three tokens, one step at a time */
  lemma FilterThreeTokens(p: string -> bool, a: string, b: string, c: string)
    ensures Iter.Filter(p, [a, b, c]) ==
            (if p(a) then [a] else []) + (if p(b) then [b] else []) + (if p(c) then [c] else [])
  {
    Iter.FilterCons(p, c, []);
    Iter.FilterCons(p, b, [c]);
    Iter.FilterCons(p, a, [b, c]);
    assert [b, c] == [b] + [c] && [a, b, c] == [a] + [b, c];
  }

  /** Filtering four tokens, one step at a time */
  lemma FilterFourTokens(p: string -> bool, a: string, b: string, c: string, d: string)
    ensures Iter.Filter(p, [a, b, c, d]) ==
            (if p(a) then [a] else []) + (if p(b) then [b] else []) + (if p(c) then [c] else [])
            + (if p(d) then [d] else [])
  {
    FilterThreeTokens(p, b, c, d);
    Iter.FilterCons(p, a, [b, c, d]);
    assert [a, b, c, d] == [a] + [b, c, d];
  }
}
