/** `extract_names_with_prenoms_list`: a single forward pass over the
    whitespace-separated tokens of the text, emitting `a + " " + b2` for
    each adjacent pair (a, b) of capitalised tokens whose first token,
    lower-cased, is a known first name; `b2` is `b` with the ASCII
    punctuation deleted.  The first-name reference set, which the program
    reads from a CSV file, is a parameter here. */
module DictionaryExtractor {
  import opened Chars
  import opened PyStrings
  import opened Ordering

  /** `stopprenoms`: French words that the reference set lists as first
      names but that start sentences far more often than names. */
  const StopPrenoms: set<string> := {"la", "le", "les", "elle", "sera"}

  /** `re.sub(r'\s+', ' ', text.replace('\n', ' ')).split()`. */
  function Tokens(text: string): seq<string> {
    Split(Collapse(ReplaceChar(text, '\n', ' ')))
  }

  /** The newline replacement and the whitespace collapse do not change
      the tokens: they are the plain `text.split()`. */
  lemma TokensAreSplit(text: string)
    ensures Tokens(text) == Split(text)
  {
    SplitFromCollapse(ReplaceChar(text, '\n', ' '), []);
    SplitFromReplaceSpace(text, [], '\n', ' ');
  }

  /** The test the loop applies to an adjacent pair of tokens. */
  predicate Matches(a: string, b: string, prenoms: set<string>)
    requires a != [] && b != []
  {
    IsUpper(a[0]) && IsUpper(b[0]) && Lower(a) in prenoms
  }

  /** The candidate emitted for a matching pair. */
  function Candidate(a: string, b: string): string {
    a + [' '] + RemovePunct(b)
  }

  predicate AllNonEmpty(l: seq<string>) {
    forall k :: 0 <= k < |l| ==> l[k] != []
  }

  /** The pair of tokens at `k` and `k + 1` matches. */
  predicate MatchesAt(l: seq<string>, prenoms: set<string>, k: nat)
    requires AllNonEmpty(l) && k + 1 < |l|
  {
    Matches(l[k], l[k + 1], prenoms)
  }

  function CandidateAt(l: seq<string>, k: nat): string
    requires k + 1 < |l|
  {
    Candidate(l[k], l[k + 1])
  }

  /** What the pair `(l[k], l[k + 1])` contributes: its candidate when it
      matches, nothing otherwise (nor when there is no such pair). */
  function PairCandidate(l: seq<string>, prenoms: set<string>, k: nat): set<string>
    requires AllNonEmpty(l)
  {
    if k + 1 < |l| && MatchesAt(l, prenoms, k) then {CandidateAt(l, k)} else {}
  }

  /** The candidates of the pairs `(l[k], l[k + 1])` with `k < n`, in the
      order the loop tests them. */
  function CandidatesBelow(l: seq<string>, prenoms: set<string>, n: nat): set<string>
    requires AllNonEmpty(l)
  {
    if n == 0 then {}
    else CandidatesBelow(l, prenoms, n - 1) + PairCandidate(l, prenoms, n - 1)
  }

  /** A candidate below `n` is the candidate of a matching pair before
      `n`, and every such pair gives one. */
  lemma {:induction false} CandidatesBelowMember(l: seq<string>, prenoms: set<string>, n: nat, x: string)
    requires AllNonEmpty(l)
    ensures x in CandidatesBelow(l, prenoms, n) <==>
      exists k :: 0 <= k < n && k + 1 < |l| && MatchesAt(l, prenoms, k) && x == CandidateAt(l, k)
  {
    if n > 0 {
      var k := n - 1;
      CandidatesBelowMember(l, prenoms, k, x);
      if x in PairCandidate(l, prenoms, k) {
        assert k + 1 < |l| && MatchesAt(l, prenoms, k) && x == CandidateAt(l, k);
      }
    }
  }

  /** Every candidate of the token list `l`. */
  function Candidates(l: seq<string>, prenoms: set<string>): set<string>
    requires AllNonEmpty(l)
  {
    CandidatesBelow(l, prenoms, |l|)
  }

  /** The names the dictionary extractor finds in `text`. */
  function DictionaryNames(text: string, reference: set<string>): set<string> {
    Candidates(Tokens(text), reference - StopPrenoms)
  }

  /** `extract_names_with_prenoms_list(text)` with the reference set
      passed in. */
  method ExtractWithPrenoms(text: string, reference: set<string>) returns (names: seq<string>)
    ensures Sorted(names)
    ensures forall x :: x in names <==> x in DictionaryNames(text, reference)
  {
    var prenoms := reference - StopPrenoms;
    var l := Split(Collapse(ReplaceChar(text, '\n', ' ')));
    var found: set<string> := {};
    var i := 0;
    while i + 1 < |l|
      invariant i <= |l|
      invariant found == CandidatesBelow(l, prenoms, i)
    {
      var a, b := l[i], l[i + 1];
      if IsUpper(a[0]) && IsUpper(b[0]) {
        if Lower(a) in prenoms {
          var b2 := RemovePunct(b);
          found := found + {a + [' '] + b2};
        }
      }
      i := i + 1;
    }
    assert CandidatesBelow(l, prenoms, i) == Candidates(l, prenoms);
    names := SortedList(found);
  }

  /** Every emitted candidate is two words of the text: a capitalised
      token whose lower-case form is a reference first name other than a
      stop word, then one space, then the capitalised token that follows it
      in the text with its punctuation deleted (which keeps its capital, so
      it is never empty). */
  lemma CandidateShape(text: string, reference: set<string>, x: string)
    requires x in DictionaryNames(text, reference)
    ensures |Split(x)| == 2
    ensures x == Split(x)[0] + [' '] + Split(x)[1]
    ensures IsUpper(Split(x)[0][0]) && IsUpper(Split(x)[1][0])
    ensures Lower(Split(x)[0]) in reference && Lower(Split(x)[0]) !in StopPrenoms
    ensures forall k :: 0 <= k < |Split(x)[1]| ==> !IsPunct(Split(x)[1][k])
    ensures exists i :: (0 <= i < |Split(text)| - 1 &&
      Split(text)[i] == Split(x)[0] && IsUpper(Split(text)[i + 1][0]) &&
      RemovePunct(Split(text)[i + 1]) == Split(x)[1])
  {
    TokensAreSplit(text);
    var l := Split(text);
    CandidatesBelowMember(l, reference - StopPrenoms, |l|, x);
    var i :| 0 <= i < |l| - 1 && MatchesAt(l, reference - StopPrenoms, i) && x == CandidateAt(l, i);
    var a, b := l[i], l[i + 1];
    assert a in l && b in l;
    UpperIsNotPunct(b[0]);
    RemovePunctKeepsHead(b);
    RemovePunctNoSpace(b);
    TwoWordsSplit(a, RemovePunct(b));
  }

  /** Fewer than two tokens give no pair and hence no candidate. */
  lemma FewTokensNoCandidates(text: string, reference: set<string>)
    requires |Split(text)| < 2
    ensures DictionaryNames(text, reference) == {}
  {
    TokensAreSplit(text);
    var l := Tokens(text);
    if |l| == 1 {
      assert CandidatesBelow(l, reference - StopPrenoms, 1) == CandidatesBelow(l, reference - StopPrenoms, 0);
    }
  }
}
