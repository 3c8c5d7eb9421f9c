/** A worked run of the dictionary extractor on the sentence "Jean Dupont
    et Marie Curie sont venus.": with both "jean" and "marie" as reference
    first names it finds both people, with "jean" alone only the first. */
module DictionarySample {
  import opened Chars
  import opened PyStrings
  import opened DictionaryExtractor

  /** The words of the sample sentence. */
  const Words: seq<string> := ["Jean", "Dupont", "et", "Marie", "Curie", "sont", "venus."]

  /** The sample sentence: its words joined by single spaces. */
  const Text: string := Join(Words, ' ')

  /** The sentence's tokens are its words. */
  lemma TextTokens()
    ensures Tokens(Text) == Words
  {
    assert forall k :: 0 <= k < |Words| ==> Words[k] != [] && NoSpace(Words[k]);
    SplitJoin(Words);
    TokensAreSplit(Text);
  }

  /** The first names, lower-cased. */
  lemma LowerJean()
    ensures Lower("Jean") == "jean"
  {
    var a := Lower("Jean");
    assert a[0] == 'j' && a[1] == 'e' && a[2] == 'a' && a[3] == 'n';
  }

  lemma LowerMarie()
    ensures Lower("Marie") == "marie"
  {
    var b := Lower("Marie");
    assert b[0] == 'm' && b[1] == 'a' && b[2] == 'r' && b[3] == 'i' && b[4] == 'e';
  }

  /** The surnames carry no punctuation. */
  lemma NoPunctInDupont()
    ensures RemovePunct("Dupont") == "Dupont"
  {
    assert "Dupont"[1..] == "upont";
  }

  lemma NoPunctInCurie()
    ensures RemovePunct("Curie") == "Curie"
  {
    assert "Curie"[1..] == "urie";
  }

  lemma SmallIsNotUpper(c: char)
    requires IsAsciiLower(c)
    ensures !IsUpper(c)
  {
  }

  /** The other pairs each have a token that does not start upper-case. */
  lemma NonNamePairs(prenoms: set<string>)
    ensures AllNonEmpty(Words)
    ensures !MatchesAt(Words, prenoms, 1) && !MatchesAt(Words, prenoms, 2)
    ensures !MatchesAt(Words, prenoms, 4) && !MatchesAt(Words, prenoms, 5)
  {
    SmallIsNotUpper('e');
    SmallIsNotUpper('s');
    assert Words[2][0] == 'e' && Words[5][0] == 's';
  }

  lemma JeanDupontPair(prenoms: set<string>)
    ensures AllNonEmpty(Words)
    ensures MatchesAt(Words, prenoms, 0) <==> "jean" in prenoms
    ensures CandidateAt(Words, 0) == "Jean Dupont"
  {
    LowerJean();
    NoPunctInDupont();
  }

  lemma MarieCuriePair(prenoms: set<string>)
    ensures AllNonEmpty(Words)
    ensures MatchesAt(Words, prenoms, 3) <==> "marie" in prenoms
    ensures CandidateAt(Words, 3) == "Marie Curie"
  {
    LowerMarie();
    NoPunctInCurie();
  }

  /** Seven tokens of which only the pairs at 0 and 3 can match. */
  lemma SevenTokens(l: seq<string>, prenoms: set<string>)
    requires AllNonEmpty(l) && |l| == 7
    requires !MatchesAt(l, prenoms, 1) && !MatchesAt(l, prenoms, 2)
    requires !MatchesAt(l, prenoms, 4) && !MatchesAt(l, prenoms, 5)
    ensures Candidates(l, prenoms) ==
      (if MatchesAt(l, prenoms, 0) then {CandidateAt(l, 0)} else {}) +
      (if MatchesAt(l, prenoms, 3) then {CandidateAt(l, 3)} else {})
  {
    var first := PairCandidate(l, prenoms, 0);
    var second := PairCandidate(l, prenoms, 3);
    assert CandidatesBelow(l, prenoms, 1) == first;
    assert CandidatesBelow(l, prenoms, 2) == first;
    assert CandidatesBelow(l, prenoms, 3) == first;
    assert CandidatesBelow(l, prenoms, 4) == first + second;
    assert CandidatesBelow(l, prenoms, 5) == first + second;
    assert CandidatesBelow(l, prenoms, 6) == first + second;
  }

  /** The candidates of the sample words: only the pairs (Jean, Dupont)
      and (Marie, Curie) can match, depending on `prenoms`. */
  lemma SampleCandidates(prenoms: set<string>)
    ensures AllNonEmpty(Words)
    ensures Candidates(Words, prenoms) ==
      (if "jean" in prenoms then {"Jean Dupont"} else {}) +
      (if "marie" in prenoms then {"Marie Curie"} else {})
  {
    NonNamePairs(prenoms);
    JeanDupontPair(prenoms);
    MarieCuriePair(prenoms);
    SevenTokens(Words, prenoms);
  }

  /** Both reference first names: both people are found. */
  lemma BothKnown()
    ensures DictionaryNames(Text, {"jean", "marie"}) == {"Jean Dupont", "Marie Curie"}
  {
    var prenoms := {"jean", "marie"} - StopPrenoms;
    assert "jean" in prenoms && "marie" in prenoms;
    TextTokens();
    SampleCandidates(prenoms);
  }

  /** Only "jean" is a reference first name: only Jean Dupont is found. */
  lemma OnlyJeanKnown()
    ensures DictionaryNames(Text, {"jean"}) == {"Jean Dupont"}
  {
    var prenoms := {"jean"} - StopPrenoms;
    assert "jean" in prenoms && "marie" !in prenoms;
    TextTokens();
    SampleCandidates(prenoms);
  }
}
