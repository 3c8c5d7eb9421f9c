/** The filter of `extract_names_with_spacy` applied to the entities the
    tagger finds.  The text is tagged line by line (`text.split('\n')`);
    the tagger itself is a parameter, a function from a line to the
    entities found in it.  Of those entities, the `PER` ones whose text has
    one or two spaces and whose last space-separated part is capitalised
    are kept, with a leading civility title dropped. */
module EntityExtractor {
  import opened Chars
  import opened PyStrings
  import opened Ordering

  /** A tagged span: `ent.label_` and `ent.text`. */
  datatype Entity = Entity(tag: string, text: string)

  /** `titres`. */
  const Titres: set<string> := {
    "madame", "mademoiselle", "monsieur",
    "mesdames", "mesdemoiselles", "messieurs",
    "mm", "mr", "mrs"}

  function Last(parts: seq<string>): string
    requires |parts| >= 1
  {
    parts[|parts| - 1]
  }

  /** The program reads `name.split(' ')[-1][0]` for every `PER` entity
      with one or two spaces; that part is empty, and the read fails, when
      the entity text ends in a space. */
  predicate Taggable(e: Entity) {
    e.tag == "PER" && 1 <= Count(e.text, ' ') <= 2 ==> e.text != [] && e.text[|e.text| - 1] != ' '
  }

  /** The tagger never yields an entity the filter would fail on. */
  predicate TaggerFits(text: string, tagger: string -> seq<Entity>) {
    forall line :: line in SplitOn(text, '\n') ==>
      forall e :: e in tagger(line) ==> Taggable(e)
  }

  /** The entity passes the filter. */
  predicate Kept(e: Entity) {
    && e.tag == "PER"
    && 1 <= Count(e.text, ' ') <= 2
    && Last(SplitOn(e.text, ' ')) != []
    && IsUpper(Last(SplitOn(e.text, ' '))[0])
  }

  /** The name emitted for a kept entity: its text, without the first part
      when that part, lower-cased, is a title. */
  function Cleaned(name: string): string {
    var parts := SplitOn(name, ' ');
    if Lower(parts[0]) in Titres then Join(parts[1..], ' ') else name
  }

  /** What one entity contributes to the names. */
  function Contribution(e: Entity): set<string> {
    if Kept(e) then {Cleaned(e.text)} else {}
  }

  /** The names kept among the entities `ents` of one line, in the order
      the loop visits them. */
  function LineNames(ents: seq<Entity>): set<string> {
    if ents == [] then {} else LineNames(ents[..|ents| - 1]) + Contribution(ents[|ents| - 1])
  }

  /** The names kept among the entities of all lines `ls`. */
  function NamesOf(ls: seq<string>, tagger: string -> seq<Entity>): set<string> {
    if ls == [] then {} else NamesOf(ls[..|ls| - 1], tagger) + LineNames(tagger(ls[|ls| - 1]))
  }

  lemma {:induction false} LineNamesMember(ents: seq<Entity>, x: string)
    ensures x in LineNames(ents) <==> exists e :: e in ents && Kept(e) && x == Cleaned(e.text)
  {
    if ents != [] {
      var init, e := ents[..|ents| - 1], ents[|ents| - 1];
      LineNamesMember(init, x);
      assert ents == init + [e];
    }
  }

  lemma {:induction false} NamesOfMember(ls: seq<string>, tagger: string -> seq<Entity>, x: string)
    ensures x in NamesOf(ls, tagger) <==> exists line :: line in ls && x in LineNames(tagger(line))
  {
    if ls != [] {
      var init, line := ls[..|ls| - 1], ls[|ls| - 1];
      NamesOfMember(init, tagger, x);
      assert ls == init + [line];
    }
  }

  /** The names the entity extractor finds in `text`. */
  function EntityNames(text: string, tagger: string -> seq<Entity>): set<string> {
    NamesOf(SplitOn(text, '\n'), tagger)
  }

  /** A name is found in `text` exactly when some kept entity of one of
      its lines yields it. */
  lemma EntityNamesMember(text: string, tagger: string -> seq<Entity>, x: string)
    ensures x in EntityNames(text, tagger) <==>
      exists line, e :: line in SplitOn(text, '\n') && e in tagger(line) && Kept(e) && x == Cleaned(e.text)
  {
    var ls := SplitOn(text, '\n');
    NamesOfMember(ls, tagger, x);
    forall line | line in ls
      ensures x in LineNames(tagger(line)) <==> exists e :: e in tagger(line) && Kept(e) && x == Cleaned(e.text)
    {
      LineNamesMember(tagger(line), x);
    }
  }

  /** The test and the title removal the loop applies to one entity:
      whether it is kept, and the name it yields. */
  method FilterEntity(ent: Entity) returns (kept: bool, name: string)
    requires Taggable(ent)
    ensures kept == Kept(ent)
    ensures kept ==> name == Cleaned(ent.text)
  {
    kept := false;
    name := ent.text;
    if ent.tag == "PER" {
      if 1 <= Count(name, ' ') <= 2 {
        var namesplit := SplitOn(name, ' ');
        LastPartNonEmpty(name, ' ');
        if IsUpper(namesplit[|namesplit| - 1][0]) {
          if Lower(namesplit[0]) in Titres {
            name := Join(namesplit[1..], ' ');
          }
          kept := true;
        }
      }
    }
  }

  /** The inner loop of `extract_names_with_spacy` over the entities of
      one line: adds the names they yield to `found`. */
  method AddLineNames(found: set<string>, ents: seq<Entity>) returns (r: set<string>)
    requires forall e :: e in ents ==> Taggable(e)
    ensures r == found + LineNames(ents)
  {
    r := found;
    var j := 0;
    while j < |ents|
      invariant j <= |ents|
      invariant r == found + LineNames(ents[..j])
    {
      var ent := ents[j];
      var kept, name := FilterEntity(ent);
      if kept {
        r := r + {name};
      }
      assert ents[..j + 1] == ents[..j] + [ent];
      j := j + 1;
    }
    assert ents[..j] == ents;
  }

  /** `extract_names_with_spacy(text)` with the tagger passed in. */
  method ExtractWithTagger(text: string, tagger: string -> seq<Entity>) returns (names: seq<string>)
    requires TaggerFits(text, tagger)
    ensures Sorted(names)
    ensures forall x :: x in names <==> x in EntityNames(text, tagger)
  {
    var lines := SplitOn(text, '\n');
    var found: set<string> := {};
    var i := 0;
    while i < |lines|
      invariant i <= |lines|
      invariant found == NamesOf(lines[..i], tagger)
    {
      assert lines[i] in lines;
      found := AddLineNames(found, tagger(lines[i]));
      assert lines[..i + 1] == lines[..i] + [lines[i]];
      i := i + 1;
    }
    assert lines[..i] == lines;
    names := SortedList(found);
  }

  /** With a leading title, the name kept is what follows the first
      space: the entity's parts but the first, with one space fewer. */
  lemma TitleDropped(s: string)
    requires 1 <= Count(s, ' ')
    requires Lower(SplitOn(s, ' ')[0]) in Titres
    ensures IndexOf(s, ' ') < |s|
    ensures |SplitOn(s, ' ')| >= 2
    ensures Cleaned(s) == s[IndexOf(s, ' ') + 1..]
    ensures SplitOn(Cleaned(s), ' ') == SplitOn(s, ' ')[1..]
    ensures Count(Cleaned(s), ' ') + 1 == Count(s, ' ')
  {
    SplitOnLength(s, ' ');
    if ' ' !in s {
      CountAbsent(s, ' ');
    }
    JoinTail(s, ' ');
    assert Cleaned(s) == Join(SplitOn(s, ' ')[1..], ' ');
  }

  /** A kept entity yields a suffix of its text; its parts are the
      entity's parts, minus the first one exactly when that is a title; so
      it has at most two spaces and keeps the capitalised last part. */
  lemma CleanedName(e: Entity)
    requires Kept(e)
    ensures var parts := SplitOn(e.text, ' ');
            var n := Cleaned(e.text);
            && |n| <= |e.text| && n == e.text[|e.text| - |n|..]
            && SplitOn(n, ' ') == (if Lower(parts[0]) in Titres then parts[1..] else parts)
            && Last(SplitOn(n, ' ')) == Last(parts)
            && IsUpper(Last(SplitOn(n, ' '))[0])
            && Count(n, ' ') == (if Lower(parts[0]) in Titres then Count(e.text, ' ') - 1 else Count(e.text, ' '))
  {
    var s := e.text;
    var parts := SplitOn(s, ' ');
    if Lower(parts[0]) in Titres {
      TitleDropped(s);
      var n := s[IndexOf(s, ' ') + 1..];
      assert n == s[|s| - |n|..];
      assert Last(parts[1..]) == Last(parts);
    }

  }
}
