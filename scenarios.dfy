/** Worked examples of the vote, stated on the model. */
module Scenarios {
  import opened Chars
  import opened Normalize
  import opened Consensus

  /** Two extractors produce the same person under different casings
      ("Jean DUPONT" from one, "Jean Dupont" from another): both raw
      variants are kept. */
  lemma VariantsBothKept(x: string, y: string)
    requires NormalizeName(x) == NormalizeName(y)
    ensures Agreed([{x}, {y}, {}], x)
    ensures Agreed([{x}, {y}, {}], y)
  {
    var outputs: seq<set<string>> := [{x}, {y}, {}];
    var key := NormalizeName(x);
    assert key in Keys(outputs[0]) && key in Keys(outputs[1]);
    VotesTwo(outputs, key);
    RawUnionMember(outputs, x);
    RawUnionMember(outputs, y);
  }

  /** Two names whose characters lower-case alike share their key. */
  lemma SameKey(x: string, y: string)
    requires |x| == |y|
    requires forall i :: 0 <= i < |x| ==> LowerChar(x[i]) == LowerChar(y[i])
    ensures NormalizeName(x) == NormalizeName(y)
  {
    NormalizeIsLower(x);
    NormalizeIsLower(y);
  }

  /** "Jean DUPONT" and "Jean Dupont" differ only in the case of "UPONT". */
  lemma DupontCasings()
    ensures |"Jean DUPONT"| == |"Jean Dupont"|
    ensures forall i :: 0 <= i < 11 ==> LowerChar("Jean DUPONT"[i]) == LowerChar("Jean Dupont"[i])
  {
    var x, y := "Jean DUPONT", "Jean Dupont";
    assert x[..6] == y[..6];
    assert x[6] == 'U' && x[7] == 'P' && x[8] == 'O' && x[9] == 'N' && x[10] == 'T';
    assert y[6] == 'u' && y[7] == 'p' && y[8] == 'o' && y[9] == 'n' && y[10] == 't';
    forall i | 0 <= i < 11
      ensures LowerChar(x[i]) == LowerChar(y[i])
    {
      if i < 6 {
        assert x[i] == x[..6][i] == y[..6][i] == y[i];
      }
    }
  }

  /** "Jean DUPONT" from one extractor and "Jean Dupont" from another
      share their key, so both are kept. */
  lemma DupontVariantsKept()
    ensures Agreed([{"Jean DUPONT"}, {"Jean Dupont"}, {}], "Jean DUPONT")
    ensures Agreed([{"Jean DUPONT"}, {"Jean Dupont"}, {}], "Jean Dupont")
  {
    DupontCasings();
    SameKey("Jean DUPONT", "Jean Dupont");
    VariantsBothKept("Jean DUPONT", "Jean Dupont");
  }

  /** A name only one extractor produced is dropped, whatever variants of
      it that extractor produced. */
  lemma SingleExtractorDropped(names: set<string>, x: string)
    requires x in names
    ensures !Agreed([names, {}, {}], x)
    ensures !Agreed([{}, names, {}], x)
    ensures !Agreed([{}, {}, names], x)
  {
    var key := NormalizeName(x);
    assert Keys({}) == {};
    VotesTwo([names, {}, {}], key);
    VotesTwo([{}, names, {}], key);
    VotesTwo([{}, {}, names], key);
  }
}
