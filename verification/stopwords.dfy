/** The stop-word set: the lowercased forms of a caller-supplied word list,
    built once and queried by exact membership. */
module StopWords {

  /** Unicode lowercasing, left abstract: the model holds for any such function */
  type Lowercase = string -> string

  /** A lowercasing that maps every lowercased string to itself */
  ghost predicate Idempotent(lower: Lowercase) {
    forall w :: lower(lower(w)) == lower(w)
  }

  datatype StopWordsSet = StopWordsSet(words: set<string>)

  /** Membership as queried: exact, with no lowercasing of `word` */
  predicate Contains(s: StopWordsSet, word: string) {
    word in s.words
  }

  /** Builds the set by inserting the lowercased form of each word in turn.
      It holds exactly the lowercased list entries, each once. */
  function From(lower: Lowercase, words: seq<string>): (r: StopWordsSet)
    ensures forall w :: Contains(r, w) <==> exists i :: 0 <= i < |words| && lower(words[i]) == w
    ensures |r.words| <= |words|
    decreases |words|
  {
    if |words| == 0 then StopWordsSet({})
    else
      var earlier := From(lower, words[..|words| - 1]);
      var r := StopWordsSet(earlier.words + {lower(words[|words| - 1])});
      assert forall w :: Contains(r, w) <==> exists i :: 0 <= i < |words| && lower(words[i]) == w by {
        forall w
          ensures Contains(r, w) <==> exists i :: 0 <= i < |words| && lower(words[i]) == w
        {
          if i :| 0 <= i < |words| && lower(words[i]) == w {
            if i < |words| - 1 {
              assert words[..|words| - 1][i] == words[i];
            }
          }
          if Contains(earlier, w) {
            var i :| 0 <= i < |words| - 1 && lower(words[..|words| - 1][i]) == w;
            assert words[i] == words[..|words| - 1][i];
          }
        }
      }
      r
  }

  /** The set built is the image of the list under lowercasing */
  lemma FromIsImage(lower: Lowercase, words: seq<string>)
    ensures From(lower, words).words == set w | w in words :: lower(w)
  {
    var image := set w | w in words :: lower(w);
    forall x | x in image
      ensures Contains(From(lower, words), x)
    {
      var w :| w in words && lower(w) == x;
      var i :| 0 <= i < |words| && words[i] == w;
      assert lower(words[i]) == x;
    }
  }

  /** Repeating an entry changes nothing: duplicates collapse */
  lemma DuplicateCollapses(lower: Lowercase, words: seq<string>, i: int)
    requires 0 <= i < |words|
    ensures From(lower, words + [words[i]]).words == From(lower, words).words
  {
    var more := words + [words[i]];
    assert more[..|more| - 1] == words;
    assert Contains(From(lower, words), lower(words[i]));
    assert From(lower, more).words == From(lower, words).words + {lower(words[i])};
  }

  /** An empty list gives the empty set */
  lemma EmptyListEmptySet(lower: Lowercase)
    ensures From(lower, []).words == {}
  {
  }

  /** There is no lowercasing at query time: a word is found in the set built
      from it alone exactly when lowercasing leaves it unchanged */
  lemma ContainsIsExact(lower: Lowercase, word: string)
    ensures Contains(From(lower, [word]), word) <==> lower(word) == word
  {
  }

  /** With an idempotent lowercasing every member of the set is already
      lowercase, so the lowercased tokens are compared against lowercase entries */
  lemma MembersAreLowercase(lower: Lowercase, words: seq<string>, w: string)
    requires Idempotent(lower)
    requires Contains(From(lower, words), w)
    ensures lower(w) == w
  {
  }
}
