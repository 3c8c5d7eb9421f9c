/** A worked run of the regular-expression extractor on one sentence: the
    title-prefixed "Jean Dupont" and the unprefixed "Marie Curie" are found,
    and nothing between them.  Each lemma fixes one greedy run, so that no
    proof has to unfold the whole sentence at once. */
module RegexSample {
  import opened Chars
  import opened RegexExtractor

  /** The sample sentence (39 characters). */
  const Sentence: string := "M. Jean Dupont a rencontré Marie Curie."

  /** The characters of the sentence that the matches read. */
  lemma Chars0()
    ensures |Sentence| == 39
    ensures Sentence[0] == 'M'
    ensures Sentence[1] == '.'
    ensures Sentence[2] == ' '
    ensures Sentence[3] == 'J'
    ensures Sentence[4] == 'e'
  {
  }

  lemma Chars5()
    ensures |Sentence| == 39
    ensures Sentence[5] == 'a'
    ensures Sentence[6] == 'n'
    ensures Sentence[7] == ' '
    ensures Sentence[8] == 'D'
  {
  }

  lemma Chars9()
    ensures |Sentence| == 39
    ensures Sentence[9] == 'u'
    ensures Sentence[10] == 'p'
    ensures Sentence[11] == 'o'
    ensures Sentence[12] == 'n'
    ensures Sentence[13] == 't'
    ensures Sentence[14] == ' '
  {
  }

  lemma Chars27()
    ensures |Sentence| == 39
    ensures Sentence[27] == 'M'
    ensures Sentence[28] == 'a'
    ensures Sentence[29] == 'r'
    ensures Sentence[30] == 'i'
    ensures Sentence[31] == 'e'
    ensures Sentence[32] == ' '
    ensures Sentence[33] == 'C'
    ensures Sentence[34] == 'u'
    ensures Sentence[35] == 'r'
    ensures Sentence[36] == 'i'
    ensures Sentence[37] == 'e'
    ensures Sentence[38] == '.'
  {
  }

  /** The prefix `M. ` is taken at the start. */
  lemma TitleAtStart()
    ensures MatchPrefix(Sentence, 0) == Some(3)
  {
    Chars0();
    assert Span(Sentence, 2, PrefixBody) == 2;
    assert Span(Sentence, 3, Whitespace) == 3;
  }

  lemma JeanFirst()
    ensures Span(Sentence, 4, FirstNameTail) == 7
  {
    Chars0();
    Chars5();
    assert Span(Sentence, 7, FirstNameTail) == 7;
  }

  lemma DupontLast()
    ensures Span(Sentence, 9, LastNameTail) == 14
  {
    Chars9();
    assert Span(Sentence, 14, LastNameTail) == 14;
  }

  /** After it, `Jean Dupont` is the name, ending at the space before `a`. */
  lemma JeanDupontAt3()
    ensures MatchName(Sentence, 3) == Some(NameMatch(7, 8, 14))
  {
    Chars0(); Chars5(); Chars9(); JeanFirst(); DupontLast();
    assert Span(Sentence, 8, Blank) == 8;
  }

  lemma MatchAtStart()
    ensures MatchAt(Sentence, 0) == Some(Match(0, 3, 14))
  {
    TitleAtStart(); JeanDupontAt3();
  }

  lemma MarieBody()
    ensures Span(Sentence, 28, PrefixBody) == 32
  {
    Chars27();
    assert Span(Sentence, 32, PrefixBody) == 32;
  }

  /** At `Marie` the prefix is tried first (`Marie ` has the shape of a
      title), but no name follows it: `Curie.` has no space after its first
      word. */
  lemma MarieNotTitle()
    ensures MatchPrefix(Sentence, 27) == Some(33) && MatchName(Sentence, 33).None?
  {
    Chars27(); MarieBody();
    assert Span(Sentence, 33, Whitespace) == 33;
    assert Span(Sentence, 38, FirstNameTail) == 38 && Span(Sentence, 34, FirstNameTail) == 38;
    assert Span(Sentence, 38, Blank) == 38;
  }

  lemma MarieFirst()
    ensures Span(Sentence, 28, FirstNameTail) == 32
  {
    Chars27();
    assert Span(Sentence, 32, FirstNameTail) == 32;
  }

  lemma CurieLast()
    ensures Span(Sentence, 34, LastNameTail) == 38
  {
    Chars27();
    assert Span(Sentence, 38, LastNameTail) == 38;
  }

  /** Without the prefix, `Marie Curie` is the name, ending at the full stop. */
  lemma MarieCurieAt27()
    ensures MatchName(Sentence, 27) == Some(NameMatch(32, 33, 38))
  {
    Chars27(); MarieFirst(); CurieLast();
    assert Span(Sentence, 33, Blank) == 33;
  }

  lemma MatchAtMarie()
    ensures MatchAt(Sentence, 27) == Some(Match(27, 27, 38))
  {
    MarieNotTitle(); MarieCurieAt27();
  }

  /** Between the two matches, and after the second, there is no ASCII
      capital, so the scan finds nothing there. */
  lemma NoCapitalBetween()
    ensures FindAll(Sentence, 14) == FindAll(Sentence, 27) && FindAll(Sentence, 38) == []
  {
    assert forall k :: 14 <= k < 27 ==> !IsAsciiUpper(Sentence[k]);
    Chars27();
    NoCapitalMeans(Sentence, 14, 27);
    NoCapitalMeans(Sentence, 38, 39);
    FindAllSkips(Sentence, 14, 27);
    FindAllSkips(Sentence, 38, 39);
  }

  /** The two tuples `re.findall` returns. */
  lemma FindAllExample()
    ensures FindAll(Sentence, 0) == [Found(Sentence[0..14], Sentence[0..3]), Found(Sentence[27..38], [])]
  {
    MatchAtStart(); MatchAtMarie(); NoCapitalBetween();
    FindAllStep(Sentence, 0, Match(0, 3, 14));
    FindAllStep(Sentence, 27, Match(27, 27, 38));
    assert Sentence[27..27] == [];
  }

  lemma JeanDupontText()
    ensures Sentence[3..14] == "Jean Dupont"
  {
    Chars0(); Chars5(); Chars9();
  }

  lemma JeanDupontCleaned()
    ensures Clean(Found(Sentence[0..14], Sentence[0..3])) == "Jean Dupont"
  {
    var m := Found(Sentence[0..14], Sentence[0..3]);
    MatchAtStart();
    MatchAtShape(Sentence, 0);
    assert m.whole[..3] == m.prefix;
    assert m.whole[3..] == Sentence[3..14];
    CleanIsName(m);
    JeanDupontText();
  }

  lemma MarieCurieCleaned()
    ensures Clean(Found(Sentence[27..38], [])) == "Marie Curie"
  {
    Chars27();
    assert Sentence[27..38] == "Marie Curie";
  }

  /** Two tuples give the set of their cleaned names. */
  lemma TwoMatches(t: string, m0: Found, m1: Found)
    requires FindAll(t, 0) == [m0, m1]
    ensures RegexNames(t) == {Clean(m0), Clean(m1)}
  {
    assert forall m :: m in FindAll(t, 0) <==> m == m0 || m == m1;
  }

  /** The names found in the sentence. */
  lemma RegexExample()
    ensures RegexNames(Sentence) == {"Jean Dupont", "Marie Curie"}
  {
    FindAllExample();
    JeanDupontCleaned();
    MarieCurieCleaned();
    TwoMatches(Sentence, Found(Sentence[0..14], Sentence[0..3]), Found(Sentence[27..38], []));
  }
}
