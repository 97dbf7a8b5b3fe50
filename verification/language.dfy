/** The language table: the closed mapping from the two-letter codes callers
    pass to the stemming algorithm the Stemmer library provides for them. */
module Language {
  import opened Results

  /** The stemming algorithms of the Stemmer library that the table reaches */
  datatype Algorithm =
    | Arabic | Danish | Dutch | English | Finnish | French | German | Greek | Hungarian
    | Italian | Norwegian | Portuguese | Romanian | Russian | Spanish | Swedish | Tamil | Turkish

  /** The Stemmer library, left abstract: the stem the algorithm produces for a word */
  type Stemming = (Algorithm, string) -> string

  /** The prefix of the message reporting an unsupported code */
  const NotSupported := "stemming language not supported: "

  /** The 18 codes the table accepts. "du" selects Dutch and "ge" German,
      not the ISO 639-1 codes "nl" and "de". */
  const SupportedCodes: set<string> :=
    {"en", "ar", "da", "du", "fi", "fr", "ge", "gr", "hu",
     "it", "no", "po", "ro", "ru", "sp", "sw", "ta", "tu"}

  /** The code that selects each algorithm */
  function Code(a: Algorithm): (c: string)
    ensures c in SupportedCodes
  {
    match a
    case English => "en"
    case Arabic => "ar"
    case Danish => "da"
    case Dutch => "du"
    case Finnish => "fi"
    case French => "fr"
    case German => "ge"
    case Greek => "gr"
    case Hungarian => "hu"
    case Italian => "it"
    case Norwegian => "no"
    case Portuguese => "po"
    case Romanian => "ro"
    case Russian => "ru"
    case Spanish => "sp"
    case Swedish => "sw"
    case Tamil => "ta"
    case Turkish => "tu"
  }

  /** Looks a code up, matching it exactly: a success names the algorithm whose
      code it is, a failure carries the offending name in its message. */
  function LangNameToAlgo(name: string): (r: Result<Algorithm>)
    ensures r.Ok? <==> name in SupportedCodes
    ensures r.Ok? ==> Code(r.value) == name
    ensures r.Err? ==> r.message == NotSupported + name
  {
    match name
    case "en" => Ok(English)
    case "ar" => Ok(Arabic)
    case "da" => Ok(Danish)
    case "du" => Ok(Dutch)
    case "fi" => Ok(Finnish)
    case "fr" => Ok(French)
    case "ge" => Ok(German)
    case "gr" => Ok(Greek)
    case "hu" => Ok(Hungarian)
    case "it" => Ok(Italian)
    case "no" => Ok(Norwegian)
    case "po" => Ok(Portuguese)
    case "ro" => Ok(Romanian)
    case "ru" => Ok(Russian)
    case "sp" => Ok(Spanish)
    case "sw" => Ok(Swedish)
    case "ta" => Ok(Tamil)
    case "tu" => Ok(Turkish)
    case _ => Err(NotSupported + name)
  }

  /** Every algorithm is reached, through its own code */
  lemma CodeRoundTrip(a: Algorithm)
    ensures LangNameToAlgo(Code(a)) == Ok(a)
  {
  }

  /** A name is accepted exactly when it is the code of some algorithm, and
      then it selects that algorithm and no other */
  lemma AcceptedIffCode(name: string)
    ensures LangNameToAlgo(name).Ok? <==> exists a :: Code(a) == name
    ensures forall a :: Code(a) == name ==> LangNameToAlgo(name) == Ok(a)
  {
    if LangNameToAlgo(name).Ok? {
      assert Code(LangNameToAlgo(name).value) == name;
    }
    forall a | Code(a) == name
      ensures LangNameToAlgo(name) == Ok(a)
    {
      CodeRoundTrip(a);
    }
  }

  /** Matching is case-sensitive: a name holding any character other than a
      lower-case ASCII letter, such as "EN", is rejected */
  lemma OnlyLowerCaseAccepted(name: string, i: int)
    requires 0 <= i < |name| && !('a' <= name[i] <= 'z')
    ensures LangNameToAlgo(name) == Err(NotSupported + name)
  {
  }
}
