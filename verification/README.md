# SoyStemmer filter core in Dafny

This project models the filter resource of `soy_stemmer`, a native text filter for a
search-indexing host runtime. A filter is built from a two-letter language code and a
stop-word list. It then transforms token sequences in three ways:

- `filter_stem`: lowercase each token, then stem it.
- `filter_remove_stopwords`: lowercase each token, then drop the stop words.
- `filter_remove_stopwords_and_stem`: lowercase, drop the stop words, then stem what is left.

Modules, following the source's structure:

- `Results` (`results.dfy`): the `Ok`/`Err` result of construction. The error carries the
  message the host receives.
- `Iter` (`iter.dfy`): the iterator adapters the pipelines are built from, `map` and
  `filter` followed by `collect`. It also gives an index-embedding characterisation of
  `filter`: the output is the input read at exactly the kept positions, in increasing order.
- `Language` (`language.dfy`): `lang_name_to_algo`, the closed table of 18 codes.
- `StopWords` (`stopwords.dfy`): `StopWordsSet::from` and `contains`.
- `SoyStemmer` (`filter.dfy`): `FilterEx::new` and the three pipelines, with lemmas relating them.
- `Scenarios` (`scenarios.dfy`): end-to-end English examples.

The two foreign collaborators are parameters, so every property holds for any choice of them:

- Unicode lowercasing (`str::to_lowercase`) is `lower: string -> string`.
- The Stemmer library (`rust_stemmers`, `Stemmer::create` followed by `stem`) is
  `stem: (Algorithm, string) -> string`.

A scenario pins these functions down only on the strings it uses.

Two consequences of the code that are easy to miss:

- Survivors are returned lowercased. With stop word "Hello", the tokens
  `["hello", "HELLO", "Hello "]` give `["hello "]` (lib.rs lines 92-94), as
  `Scenarios.TrailingSpaceScenario` states.
- `str::to_lowercase` applies context rules such as the Greek final sigma, so it is not a
  per-character map. `lower` therefore stays abstract rather than being defined character by
  character.

## Model

| member | source | states |
|---|---|---|
| `Language.LangNameToAlgo` | native/soy_stemmer/src/lib.rs:10-36 | A name is accepted iff it is one of the 18 supported codes. A success names the algorithm whose code is exactly that name. A failure's message is "stemming language not supported: " followed by the name. |
| `Language.Code` | native/soy_stemmer/src/lib.rs:13-30 | Every algorithm's selecting code is one of the supported codes. |
| `Language.CodeRoundTrip` | native/soy_stemmer/src/lib.rs:13-30 | Looking up an algorithm's code gives back that same algorithm, so all 18 algorithms are reachable. |
| `Language.AcceptedIffCode` | native/soy_stemmer/src/lib.rs:12-35 | A name is accepted iff it is the code of some algorithm. It then selects that algorithm and no other, so the codes are pairwise distinct. |
| `Language.OnlyLowerCaseAccepted` | native/soy_stemmer/src/lib.rs:12-34 | Matching is exact and case-sensitive. A name holding any character other than a lower-case ASCII letter, such as "EN", is rejected with its name in the message. |
| `StopWords.Contains` | native/soy_stemmer/src/lib.rs:53-55 | Exact set membership, with no lowercasing of the query. |
| `StopWords.From` | native/soy_stemmer/src/lib.rs:58-67 | The built set contains a word iff that word is the lowercase of some list entry. It has at most as many members as the list has entries. |
| `StopWords.FromIsImage` | native/soy_stemmer/src/lib.rs:58-67 | The built set equals the image of the list under lowercasing. |
| `StopWords.DuplicateCollapses` | native/soy_stemmer/src/lib.rs:61-64 | Appending a repeat of an entry leaves the built set unchanged. |
| `StopWords.EmptyListEmptySet` | native/soy_stemmer/src/lib.rs:58-67 | An empty list builds the empty set. |
| `StopWords.ContainsIsExact` | native/soy_stemmer/src/lib.rs:53-55 | The membership query does no lowercasing: a word is found in the set built from itself iff lowercasing leaves it unchanged. |
| `StopWords.MembersAreLowercase` | native/soy_stemmer/src/lib.rs:61-64 | With an idempotent lowercasing, every member of the set is its own lowercase. |
| `SoyStemmer.New` | native/soy_stemmer/src/lib.rs:39-45 | Construction succeeds iff the code is supported, whatever the stop-word list. The filter's algorithm is the one the code selects. Its stop words are exactly the lowercased list entries. A failure carries the offending code. |
| `Iter.Map` | native/soy_stemmer/src/lib.rs:80-84 | Mapping keeps the length, and element i of the output is f applied to element i of the input. |
| `Iter.Filter` | native/soy_stemmer/src/lib.rs:90-94 | Filtering never lengthens. Every output element is an input element that satisfies the predicate. |
| `Iter.FilterEmbeds` | native/soy_stemmer/src/lib.rs:90-94 | The filter output is the input read, in order, at the strictly increasing positions that `Kept` lists. |
| `Iter.KeptExactly` | native/soy_stemmer/src/lib.rs:93 | Those positions are exactly the ones whose element satisfies the predicate. |
| `Iter.FilterKeepsSatisfying` | native/soy_stemmer/src/lib.rs:93 | No input element that satisfies the predicate is dropped. |
| `Iter.FilterIsSubsequence` | native/soy_stemmer/src/lib.rs:90-94 | The filter output is an order-preserving subsequence of the input. |
| `Iter.FilterAppend` | native/soy_stemmer/src/lib.rs:90-94 | Filtering distributes over concatenation. |
| `SoyStemmer.Keeper` | native/soy_stemmer/src/lib.rs:93 | The filter closure keeps a lowercased token iff the stop-word set does not contain it. |
| `SoyStemmer.Stemmer` | native/soy_stemmer/src/lib.rs:83 | The stemmer closure: the external stem under the filter's algorithm. |
| `SoyStemmer.FilterStem` | native/soy_stemmer/src/lib.rs:78-85 | The output has the input's length. Element i is the filter's stemmer applied to the lowercase of input token i. |
| `SoyStemmer.RemoveStopwords` | native/soy_stemmer/src/lib.rs:88-95 | The output is no longer than the input. No output element is a stop word. Each output element is the lowercase of some input token. |
| `SoyStemmer.RemoveStopwordsInOrder` | native/soy_stemmer/src/lib.rs:88-95 | Output element k is the lowercase of input token `Survivors[k]`, and the survivor positions strictly increase. So the relative order of the input is kept. |
| `SoyStemmer.SurvivorsExactly` | native/soy_stemmer/src/lib.rs:93 | A position survives iff the lowercase of its token is not in the stop-word set. |
| `SoyStemmer.NonStopWordsSurvive` | native/soy_stemmer/src/lib.rs:92-94 | Every lowercased input token that is not a stop word appears in the output. |
| `SoyStemmer.RemoveStopwordsAndStem` | native/soy_stemmer/src/lib.rs:98-107 | The output has the same length as RemoveStopwords on the same input, at most the input's length. Element k is the stem of element k of RemoveStopwords. |
| `SoyStemmer.StemmedSurvivorsInOrder` | native/soy_stemmer/src/lib.rs:98-107 | Element k of the stemmed output is FilterStem's element at survivor position k. The positions are decided on the lowercased, unstemmed tokens. |
| `SoyStemmer.SingleToken` | native/soy_stemmer/src/lib.rs:98-107 | A single token is dropped by either removing operation iff its lowercase is a stop word, for any stemmer. Otherwise the stemming variant outputs exactly its stem. |
| `SoyStemmer.DroppedIffStopWord` | native/soy_stemmer/src/lib.rs:39-95 | For a filter built from list S, a single token t is dropped iff the lowercase of t equals the lowercase of some entry of S. |
| `SoyStemmer.StopListRemovesItself` | native/soy_stemmer/src/lib.rs:39-95 | Filtering a filter's own stop-word list removes every entry. |
| `SoyStemmer.EmptyInput` | native/soy_stemmer/src/lib.rs:78-107 | All three operations map the empty input to the empty output. |
| `SoyStemmer.EmptyStopSetKeepsAll` | native/soy_stemmer/src/lib.rs:88-107 | With no stop words nothing is dropped. RemoveStopwords is plain lowercasing, and RemoveStopwordsAndStem equals FilterStem. |
| `SoyStemmer.Chunking` | native/soy_stemmer/src/lib.rs:78-107 | Each operation on a concatenation equals the concatenation of the operation on the parts. |
| `SoyStemmer.RemoveStopwordsIdempotent` | native/soy_stemmer/src/lib.rs:88-95 | With an idempotent lowercasing, removing stop words a second time changes nothing. |
| `Scenarios.StopListScenario` | native/soy_stemmer/src/lib.rs:39-67 | "en" with list "the", "and", "of" builds an English filter whose stop words are exactly those three. |
| `Scenarios.StemScenario` | native/soy_stemmer/src/lib.rs:78-85 | "Running", "Jumps", "THE" stem to "run", "jump", "the". Stop words are not dropped. |
| `Scenarios.RemoveScenario` | native/soy_stemmer/src/lib.rs:88-95 | "The", "quick", "AND", "fox" become "quick", "fox". |
| `Scenarios.RemoveAndStemScenario` | native/soy_stemmer/src/lib.rs:98-107 | "The", "running", "foxes" become "run", "fox". |
| `Scenarios.NoStopWordsScenario` | native/soy_stemmer/src/lib.rs:98-107 | With an empty stop list, "Cats" becomes "cat". |
| `Scenarios.UnknownLanguageScenario` | native/soy_stemmer/src/lib.rs:31-34 | "zz" is refused with message "stemming language not supported: zz". |
| `Scenarios.TrailingSpaceScenario` | native/soy_stemmer/src/lib.rs:88-95 | With stop word "Hello", the tokens "hello", "HELLO", "Hello " become just "hello ". The surviving token is lowercased. |
| `Scenarios.StemOfSurvivorMayBeStopWord` | native/soy_stemmer/src/lib.rs:103-105 | The stop-word test sees the unstemmed token. For any lowercasing that leaves "running" alone and any stemmer taking it to "run", with stop word "run", "running" survives as "run", while stemming before the test would have dropped it. |

## Left out

- The host-runtime glue: the NIF attributes, `ResourceArc`, the `Filter` alias, `new_filter`'s
  boxing into a resource, `load` and `rustler::init!` (lib.rs lines 3, 70-75, 109-123). These are
  registration and resource lifecycle. The model's filter is a plain immutable value, and
  construction returns `Ok(filter)` directly.
- The error value: `NifError::Term` boxing a formatted string is modelled as `Err(message)` with
  the same text.
- The stemming algorithms: they belong to a foreign library, so `stem` is an arbitrary function
  parameter. `Stemmer::create(algo)` is the partial application of `stem` to the filter's algorithm.
- The Unicode semantics of `to_lowercase`, including context rules such as the final sigma:
  `lower` is an arbitrary function parameter. `StopWords.MembersAreLowercase` and
  `SoyStemmer.RemoveStopwordsIdempotent` assume only that it is idempotent.
- Hash-set capacity sizing and `shrink_to_fit` (lib.rs lines 60, 65): allocation only, with
  nothing observable. The set is a Dafny `set`.
- Sharing a filter across threads, and whether concurrent calls on one filter give the same results as
  sequential ones: the model is sequential, and every operation is a pure function of its
  arguments.
- Laziness of the iterator chain: collecting a finite iterator is modelled as computing the
  whole sequence. `SoyStemmer.Chunking` states the token-by-token behaviour this relies on.
