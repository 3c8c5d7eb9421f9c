/** `extract_names_from_text`: the two-of-three vote.  Each extractor's
    names are lower-cased into keys (`normalize_name`); every extractor
    adds at most one vote to a key, however many of its names share it;
    and a name any extractor produced is kept exactly when its key has
    more than one vote.  The result list is built by iterating over a set,
    so its order is not specified: only its elements and their
    distinctness are. */
module Consensus {
  import opened PyStrings
  import opened Ordering
  import opened Normalize
  import opened RegexExtractor
  import opened DictionaryExtractor
  import opened EntityExtractor

  /** `set(names)`. */
  function Elems(names: seq<string>): set<string> {
    set x | x in names
  }

  /** `set([normalize_name(n) for n in names])`: the keys one extractor
      produced. */
  function Keys(names: set<string>): set<string> {
    set n | n in names :: NormalizeName(n)
  }

  /** The votes for `key`: the number of extractors in `outputs` that
      produced at least one name with that key. */
  function Votes(outputs: seq<set<string>>, key: string): nat {
    if outputs == [] then 0
    else Votes(outputs[..|outputs| - 1], key) + (if key in Keys(outputs[|outputs| - 1]) then 1 else 0)
  }

  /** `rawnames`: every name some extractor produced. */
  function RawUnion(outputs: seq<set<string>>): set<string> {
    if outputs == [] then {} else RawUnion(outputs[..|outputs| - 1]) + outputs[|outputs| - 1]
  }

  /** The name is kept: some extractor produced it and more than one
      extractor produced its key. */
  predicate Agreed(outputs: seq<set<string>>, x: string) {
    x in RawUnion(outputs) && Votes(outputs, NormalizeName(x)) > 1
  }

  /** The extractors' lists, as sets. */
  function AsSets(outputs: seq<seq<string>>): (r: seq<set<string>>)
    ensures |r| == |outputs|
    ensures forall k :: 0 <= k < |outputs| ==> r[k] == Elems(outputs[k])
  {
    if outputs == [] then [] else AsSets(outputs[..|outputs| - 1]) + [Elems(outputs[|outputs| - 1])]
  }

  // ------------------------------------------------------------- lemmas

  /** A name belongs to `rawnames` exactly when some extractor produced it. */
  lemma {:induction false} RawUnionMember(outputs: seq<set<string>>, x: string)
    ensures x in RawUnion(outputs) <==> exists k :: 0 <= k < |outputs| && x in outputs[k]
  {
    if outputs != [] {
      var init := outputs[..|outputs| - 1];
      RawUnionMember(init, x);
      assert forall k :: 0 <= k < |init| ==> init[k] == outputs[k];
    }
  }

  /** No key has more votes than there are extractors. */
  lemma {:induction false} VotesAtMost(outputs: seq<set<string>>, key: string)
    ensures Votes(outputs, key) <= |outputs|
  {
    if outputs != [] {
      VotesAtMost(outputs[..|outputs| - 1], key);
    }
  }

  /** A key has a vote exactly when some extractor produced it. */
  lemma {:induction false} VotesPositive(outputs: seq<set<string>>, key: string)
    ensures Votes(outputs, key) >= 1 <==> exists k :: 0 <= k < |outputs| && key in Keys(outputs[k])
  {
    if outputs != [] {
      var init := outputs[..|outputs| - 1];
      VotesPositive(init, key);
      assert forall k :: 0 <= k < |init| ==> init[k] == outputs[k];
    }
  }

  /** Two extractors that produced `key` give it more than one vote. */
  lemma {:induction false} TwoExtractorsVote(outputs: seq<set<string>>, key: string, i: nat, j: nat)
    requires i < j < |outputs| && key in Keys(outputs[i]) && key in Keys(outputs[j])
    ensures Votes(outputs, key) >= 2
  {
    var n := |outputs| - 1;
    var init := outputs[..n];
    assert forall k :: 0 <= k < |init| ==> init[k] == outputs[k];
    if j < n {
      TwoExtractorsVote(init, key, i, j);
    } else {
      assert key in Keys(init[i]);
      VotesPositive(init, key);
    }
  }

  /** More than one vote for `key` comes from two different extractors. */
  lemma {:induction false} VotesFromTwo(outputs: seq<set<string>>, key: string)
    requires Votes(outputs, key) >= 2
    ensures exists i, j :: 0 <= i < j < |outputs| && key in Keys(outputs[i]) && key in Keys(outputs[j])
  {
    var n := |outputs| - 1;
    var init := outputs[..n];
    assert forall k :: 0 <= k < |init| ==> init[k] == outputs[k];
    if Votes(init, key) >= 2 {
      VotesFromTwo(init, key);
      var i, j :| 0 <= i < j < |init| && key in Keys(init[i]) && key in Keys(init[j]);
      assert key in Keys(outputs[i]) && key in Keys(outputs[j]);
    } else {
      VotesPositive(init, key);
      var i :| 0 <= i < |init| && key in Keys(init[i]);
      assert key in Keys(outputs[i]) && key in Keys(outputs[n]);
    }
  }

  /** A key has more than one vote exactly when two different extractors
      produced it. */
  lemma VotesTwo(outputs: seq<set<string>>, key: string)
    ensures Votes(outputs, key) >= 2 <==>
      exists i, j :: 0 <= i < j < |outputs| && key in Keys(outputs[i]) && key in Keys(outputs[j])
  {
    if Votes(outputs, key) >= 2 {
      VotesFromTwo(outputs, key);
    }
    if exists i, j :: 0 <= i < j < |outputs| && key in Keys(outputs[i]) && key in Keys(outputs[j]) {
      var i, j :| 0 <= i < j < |outputs| && key in Keys(outputs[i]) && key in Keys(outputs[j]);
      TwoExtractorsVote(outputs, key, i, j);
    }
  }

  /** Every name some extractor produced has at least one vote for its
      key. */
  lemma OwnKeyVoted(outputs: seq<set<string>>, x: string)
    requires x in RawUnion(outputs)
    ensures 1 <= Votes(outputs, NormalizeName(x)) <= |outputs|
  {
    RawUnionMember(outputs, x);
    var k :| 0 <= k < |outputs| && x in outputs[k];
    assert NormalizeName(x) in Keys(outputs[k]);
    VotesPositive(outputs, NormalizeName(x));
    VotesAtMost(outputs, NormalizeName(x));
  }

  /** The two-of-three rule: a name is kept exactly when some extractor
      produced it and two different extractors produced names with its
      key; all variants of a key that passes are kept together. */
  lemma AgreedMeansTwoExtractors(outputs: seq<set<string>>, x: string, y: string)
    ensures Agreed(outputs, x) <==>
      (exists k :: 0 <= k < |outputs| && x in outputs[k]) &&
      (exists i, j :: 0 <= i < j < |outputs| && NormalizeName(x) in Keys(outputs[i]) && NormalizeName(x) in Keys(outputs[j]))
    ensures Agreed(outputs, x) && y in RawUnion(outputs) && NormalizeName(y) == NormalizeName(x) ==> Agreed(outputs, y)
  {
    RawUnionMember(outputs, x);
    VotesTwo(outputs, NormalizeName(x));
  }

  // ------------------------------------------------------------ methods

  /** The inner loop of the first loop: one more vote in `counts` for
      every key of `keys`. */
  method AddVotes(counts: map<string, nat>, keys: set<string>) returns (r: map<string, nat>)
    ensures forall key :: key in r <==> key in counts || key in keys
    ensures forall key :: key in r ==>
      r[key] == (if key in counts then counts[key] else 0) + (if key in keys then 1 else 0)
  {
    r := counts;
    var rest := keys;
    while rest != {}
      invariant rest <= keys
      invariant forall key :: key in r <==> key in counts || key in keys - rest
      invariant forall key :: key in r ==>
        r[key] == (if key in counts then counts[key] else 0) + (if key in keys - rest then 1 else 0)
      decreases rest
    {
      var n :| n in rest;
      r := r[n := if n in r then r[n] + 1 else 1];
      rest := rest - {n};
    }
  }

  /** The first loop: `rawnames` and the vote counts `normnames`. */
  method CountVotes(outputs: seq<seq<string>>) returns (rawnames: set<string>, normnames: map<string, nat>)
    ensures rawnames == RawUnion(AsSets(outputs))
    ensures forall key :: key in normnames <==> Votes(AsSets(outputs), key) >= 1
    ensures forall key :: key in normnames ==> normnames[key] == Votes(AsSets(outputs), key)
    ensures forall key :: key in normnames ==> 1 <= normnames[key] <= |outputs|
  {
    ghost var sets := AsSets(outputs);
    rawnames := {};
    normnames := map[];
    var k := 0;
    while k < |outputs|
      invariant k <= |outputs|
      invariant rawnames == RawUnion(sets[..k])
      invariant forall key :: key in normnames <==> Votes(sets[..k], key) >= 1
      invariant forall key :: key in normnames ==> normnames[key] == Votes(sets[..k], key)
    {
      var names := outputs[k];
      rawnames := rawnames + Elems(names);
      normnames := AddVotes(normnames, Keys(Elems(names)));
      assert sets[..k + 1][..k] == sets[..k];
      k := k + 1;
    }
    assert sets[..k] == sets;
    forall key | key in normnames
      ensures normnames[key] <= |outputs|
    {
      VotesAtMost(sets, key);
    }
  }

  /** `extract_names_from_text` once the three extractors have run: the
      names whose key more than one extractor produced. */
  method Vote(outputs: seq<seq<string>>) returns (names: seq<string>)
    ensures Distinct(names)
    ensures forall x :: x in names <==> Agreed(AsSets(outputs), x)
  {
    var rawnames, normnames := CountVotes(outputs);
    names := [];
    var rest := rawnames;
    while rest != {}
      invariant rest <= rawnames
      invariant Distinct(names)
      invariant forall x :: x in names <==> x in rawnames - rest && Agreed(AsSets(outputs), x)
      decreases rest
    {
      var name :| name in rest;
      OwnKeyVoted(AsSets(outputs), name);
      if normnames[NormalizeName(name)] > 1 {
        assert name !in names;
        names := names + [name];
      }
      rest := rest - {name};
    }
  }

  /** `extract_names_from_text(text)`: the three extractors run over the
      same text, then the vote. */
  method ExtractNamesFromText(text: string, reference: set<string>, tagger: string -> seq<Entity>)
    returns (names: seq<string>)
    requires TaggerFits(text, tagger)
    ensures Distinct(names)
    ensures forall x :: x in names <==>
      Agreed([RegexNames(text), DictionaryNames(text, reference), EntityNames(text, tagger)], x)
  {
    var byRegex := ExtractWithRegex(text);
    var byDictionary := ExtractWithPrenoms(text, reference);
    var byTagger := ExtractWithTagger(text, tagger);
    names := Vote([byRegex, byDictionary, byTagger]);
    assert Elems(byRegex) == RegexNames(text);
    assert Elems(byDictionary) == DictionaryNames(text, reference);
    assert Elems(byTagger) == EntityNames(text, tagger);
    assert AsSets([byRegex, byDictionary, byTagger]) ==
      [RegexNames(text), DictionaryNames(text, reference), EntityNames(text, tagger)];
  }
}
