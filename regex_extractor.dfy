/** `extract_names_with_regex`: the names matched by

      ((M[A-Za-z.]+\s+)?[A-Z][A-Za-z<lowacc>-]*[ ]+[A-Z][A-Za-z<lowacc><uppacc>-]+)

    under `re.findall`, with the civility-title prefix stripped.

    Every repetition in this pattern is followed by something its own class
    cannot match (letters and dots by whitespace, whitespace by `[A-Z]`,
    first-name letters by a space, spaces by `[A-Z]`), and the last one ends
    the pattern; so greedy matching never backtracks into a repetition, and
    the only alternative the engine ever tries is dropping the optional
    prefix.  The matcher below is written accordingly: each repetition takes
    the longest run, the prefix is tried first, and the match without it
    second.  `re.findall` scans left to right and resumes after each match. */
module RegexExtractor {
  import opened Chars
  import opened PyStrings
  import opened Ordering

  datatype Option<T> = None | Some(value: T)

  /** The character classes repeated in the pattern. */
  datatype CharClass = PrefixBody | Whitespace | FirstNameTail | Blank | LastNameTail

  predicate InClass(c: char, k: CharClass) {
    match k
    case PrefixBody => IsPrefixChar(c)
    case Whitespace => IsSpace(c)
    case FirstNameTail => IsFirstNameChar(c)
    case Blank => c == ' '
    case LastNameTail => IsLastNameChar(c)
  }

  /** A greedy `[k]*` starting at `p`: the end of the longest run of
      characters of class `k`. */
  function Span(t: string, p: nat, k: CharClass): (q: nat)
    requires p <= |t|
    ensures p <= q <= |t|
    decreases |t| - p
  {
    if p < |t| && InClass(t[p], k) then Span(t, p + 1, k) else p
  }

  /** The run a greedy repetition takes is all of class `k` and cannot be
      extended. */
  lemma {:induction false} SpanRun(t: string, p: nat, k: CharClass)
    requires p <= |t|
    ensures forall i :: p <= i < Span(t, p, k) ==> InClass(t[i], k)
    ensures Span(t, p, k) == |t| || !InClass(t[Span(t, p, k)], k)
    decreases |t| - p
  {
    if p < |t| && InClass(t[p], k) {
      SpanRun(t, p + 1, k);
    }
  }

  /** `n` is a first name, a run of spaces and a last name: `n[..f]` is
      the first name, `n[f..b]` the spaces, `n[b..]` the last name. */
  predicate ShapedAt(n: string, f: nat, b: nat) {
    && 1 <= f < b && b + 2 <= |n|
    && IsAsciiUpper(n[0])
    && (forall i :: 1 <= i < f ==> IsFirstNameChar(n[i]))
    && (forall i :: f <= i < b ==> n[i] == ' ')
    && IsAsciiUpper(n[b])
    && (forall i :: b < i < |n| ==> IsLastNameChar(n[i]))
  }

  /** `[A-Z][A-Za-z<lowacc>-]*[ ]+[A-Z][A-Za-z<lowacc><uppacc>-]+` matches
      the whole of `n`. */
  predicate NameShape(n: string) {
    exists f, b | 1 <= f < b < |n| :: ShapedAt(n, f, b)
  }

  /** Positions of a name matched in a text: first name from `start` to
      `firstEnd`, spaces up to `lastStart`, last name up to `end`. */
  datatype NameMatch = NameMatch(firstEnd: nat, lastStart: nat, end: nat)

  /** The name part of the pattern, matched at `p`. */
  function MatchName(t: string, p: nat): (r: Option<NameMatch>)
    requires p <= |t|
    ensures r.Some? ==> p < r.value.firstEnd < r.value.lastStart < r.value.end <= |t|
  {
    if p < |t| && IsAsciiUpper(t[p]) then
      var f := Span(t, p + 1, FirstNameTail);
      var b := Span(t, f, Blank);
      if f < b && b < |t| && IsAsciiUpper(t[b]) then
        var e := Span(t, b + 1, LastNameTail);
        if b + 1 < e then Some(NameMatch(f, b, e))
        else None
      else None
    else None
  }

  /** A name match is a first name, spaces and a last name of at least
      two characters, and the last name cannot be extended. */
  lemma MatchNameShape(t: string, p: nat)
    requires p <= |t| && MatchName(t, p).Some?
    ensures var nm := MatchName(t, p).value;
      && ShapedAt(t[p..nm.end], nm.firstEnd - p, nm.lastStart - p)
      && (nm.end == |t| || !IsLastNameChar(t[nm.end]))
  {
    var f := Span(t, p + 1, FirstNameTail);
    var b := Span(t, f, Blank);
    var e := Span(t, b + 1, LastNameTail);
    assert MatchName(t, p).value == NameMatch(f, b, e);
    SpanRun(t, p + 1, FirstNameTail);
    SpanRun(t, f, Blank);
    SpanRun(t, b + 1, LastNameTail);
    var n := t[p..e];
    forall i | 1 <= i < f - p
      ensures IsFirstNameChar(n[i])
    {
      assert n[i] == t[p + i];
    }
    forall i | f - p <= i < b - p
      ensures n[i] == ' '
    {
      assert n[i] == t[p + i];
    }
    forall i | b - p < i < e - p
      ensures IsLastNameChar(n[i])
    {
      assert n[i] == t[p + i];
    }
    assert n[0] == t[p] && n[b - p] == t[b];
  }

  /** The prefix group `[M][A-Za-z.]+\s+`, matched at `p`: its end. */
  function MatchPrefix(t: string, p: nat): (r: Option<nat>)
    requires p <= |t|
    ensures r.Some? ==> p < r.value <= |t|
  {
    if p < |t| && t[p] == 'M' then
      var q := Span(t, p + 1, PrefixBody);
      var r := Span(t, q, Whitespace);
      if p + 1 < q < r then Some(r) else None
    else None
  }

  /** A prefix match starts with `M` and ends with whitespace. */
  lemma MatchPrefixShape(t: string, p: nat)
    requires p <= |t| && MatchPrefix(t, p).Some?
    ensures t[p] == 'M' && IsSpace(t[MatchPrefix(t, p).value - 1])
  {
    var q := Span(t, p + 1, PrefixBody);
    SpanRun(t, q, Whitespace);
  }

  /** A match of the whole pattern: the prefix occupies
      `[start, nameStart)` (empty when it did not take part) and the name
      `[nameStart, end)`. */
  datatype Match = Match(start: nat, nameStart: nat, end: nat)

  /** The pattern matched at `p`: with the prefix when that succeeds,
      otherwise without it. */
  function MatchAt(t: string, p: nat): (r: Option<Match>)
    requires p <= |t|
    ensures r.Some? ==> r.value.start == p <= r.value.nameStart < r.value.end <= |t|
  {
    var withPrefix :=
      match MatchPrefix(t, p)
      case Some(q) =>
        (match MatchName(t, q)
         case Some(nm) => Some(Match(p, q, nm.end))
         case None => None)
      case None => None;
    if withPrefix.Some? then withPrefix
    else
      match MatchName(t, p)
      case Some(nm) => Some(Match(p, p, nm.end))
      case None => None
  }

  /** A match at `p` is an optional `M...` prefix ending in whitespace,
      followed by a text of name shape. */
  lemma MatchAtShape(t: string, p: nat)
    requires p <= |t| && MatchAt(t, p).Some?
    ensures var m := MatchAt(t, p).value;
      && NameShape(t[m.nameStart..m.end])
      && (m.nameStart > p ==> t[p] == 'M' && IsSpace(t[m.nameStart - 1]))
  {
    var m := MatchAt(t, p).value;
    if m.nameStart > p {
      MatchPrefixShape(t, p);
    }
    MatchNameShape(t, m.nameStart);
    var nm := MatchName(t, m.nameStart).value;
    assert ShapedAt(t[m.nameStart..m.end], nm.firstEnd - m.nameStart, nm.lastStart - m.nameStart);
  }

  /** One tuple of `re.findall`: group 1 (the whole match) and group 2
      (the prefix, `""` when it did not take part). */
  datatype Found = Found(whole: string, prefix: string)

  /** What every tuple found in `t` satisfies: the whole match begins
      with the prefix, the prefix (when present) is `M...` ending in
      whitespace, and what follows it is a name occurring in `t`. */
  ghost predicate FoundIn(t: string, m: Found) {
    && |m.prefix| < |m.whole|
    && m.whole[..|m.prefix|] == m.prefix
    && NameShape(m.whole[|m.prefix|..])
    && (m.prefix != [] ==> m.prefix[0] == 'M' && IsSpace(m.prefix[|m.prefix| - 1]))
    && exists i :: OccursAt(t, m.whole[|m.prefix|..], i)
  }

  /** The tuple `re.findall` reports for a match. */
  function Report(t: string, m: Match): Found
    requires m.start <= m.nameStart < m.end <= |t|
  {
    Found(t[m.start..m.end], t[m.start..m.nameStart])
  }

  /** The tuple reported for a match satisfies `FoundIn`. */
  lemma ReportFound(t: string, m: Match)
    requires m.start <= m.nameStart < m.end <= |t|
    requires NameShape(t[m.nameStart..m.end])
    requires m.nameStart > m.start ==> t[m.start] == 'M' && IsSpace(t[m.nameStart - 1])
    ensures FoundIn(t, Report(t, m))
  {
    var f := Report(t, m);
    assert f.whole[|f.prefix|..] == t[m.nameStart..m.end];
    assert OccursAt(t, f.whole[|f.prefix|..], m.nameStart);
  }

  /** `re.findall(pattern, t[p..])`: leftmost matches, scanning resumes
      after each one. */
  function FindAll(t: string, p: nat): seq<Found>
    requires p <= |t|
    decreases |t| - p
  {
    if p == |t| then []
    else
      match MatchAt(t, p)
      case Some(m) => [Report(t, m)] + FindAll(t, m.end)
      case None => FindAll(t, p + 1)
  }

  /** Every tuple `re.findall` returns is a whole match beginning with its
      prefix group, followed by a name occurring in the text. */
  lemma {:induction false} FindAllFound(t: string, p: nat, m: Found)
    requires p <= |t| && m in FindAll(t, p)
    ensures FoundIn(t, m)
    decreases |t| - p
  {
    if p < |t| {
      match MatchAt(t, p)
      case Some(n) =>
        if m == Report(t, n) {
          MatchAtShape(t, p);
          ReportFound(t, n);
        } else {
          FindAllFound(t, n.end, m);
        }
      case None =>
        FindAllFound(t, p + 1, m);
    }
  }

  /** No ASCII capital in `t[p..q]`. */
  predicate NoCapital(t: string, p: nat, q: nat)
    requires p <= q <= |t|
    decreases q - p
  {
    p == q || (!IsAsciiUpper(t[p]) && NoCapital(t, p + 1, q))
  }

  /** `NoCapital` says what its name says. */
  lemma {:induction false} NoCapitalMeans(t: string, p: nat, q: nat)
    requires p <= q <= |t|
    ensures NoCapital(t, p, q) <==> forall k :: p <= k < q ==> !IsAsciiUpper(t[k])
    decreases q - p
  {
    if p < q {
      NoCapitalMeans(t, p + 1, q);
    }
  }

  /** Where a match starts, `re.findall` reports it and resumes at its
      end. */
  lemma FindAllStep(t: string, p: nat, m: Match)
    requires p < |t| && MatchAt(t, p) == Some(m)
    ensures FindAll(t, p) == [Report(t, m)] + FindAll(t, m.end)
  {
  }

  /** A match can only start at an ASCII capital, so where there is
      none `re.findall` moves on by one character. */
  lemma SkipOne(t: string, p: nat)
    requires p < |t| && !IsAsciiUpper(t[p])
    ensures FindAll(t, p) == FindAll(t, p + 1)
  {
    assert MatchPrefix(t, p).None?;
    assert MatchName(t, p).None?;
  }

  /** So `re.findall` skips any stretch of the text without a capital. */
  lemma {:induction false} FindAllSkips(t: string, p: nat, q: nat)
    requires p <= q <= |t|
    requires NoCapital(t, p, q)
    ensures FindAll(t, p) == FindAll(t, q)
    decreases q - p
  {
    if p < q {
      SkipOne(t, p);
      FindAllSkips(t, p + 1, q);
    }
  }

  /** The body of the loop: with a prefix, the first occurrence of the
      prefix is deleted and so are all line breaks. */
  function Clean(m: Found): string {
    if m.prefix != [] then RemoveChar(ReplaceFirst(m.whole, m.prefix, []), '\n')
    else m.whole
  }

  /** The names the regular-expression extractor finds in `text`. */
  function RegexNames(text: string): set<string> {
    set m | m in FindAll(text, 0) :: Clean(m)
  }

  /** `extract_names_with_regex(text)`. */
  method ExtractWithRegex(text: string) returns (names: seq<string>)
    ensures Sorted(names)
    ensures forall x :: x in names <==> x in RegexNames(text)
  {
    var l := FindAll(text, 0);
    var found: set<string> := {};
    var i := 0;
    while i < |l|
      invariant i <= |l|
      invariant found == set m | m in l[..i] :: Clean(m)
    {
      var x := l[i];
      var name := x.whole;
      if x.prefix != [] {
        name := RemoveChar(ReplaceFirst(name, x.prefix, []), '\n');
      }
      assert name == Clean(x);
      assert l[..i + 1] == l[..i] + [x];
      assert (set m | m in l[..i + 1] :: Clean(m)) == (set m | m in l[..i] :: Clean(m)) + {Clean(x)};
      found := found + {name};
      i := i + 1;
    }
    assert l[..i] == l;
    names := SortedList(found);
  }

  /** No character of a matched name is a line break. */
  lemma NameHasNoNewline(n: string)
    requires NameShape(n)
    ensures '\n' !in n
  {
    var f, b :| 1 <= f < b < |n| && ShapedAt(n, f, b);
    forall i | 0 <= i < |n|
      ensures n[i] != '\n'
    {
      if i == 0 || i == b {
      } else if i < f {
        NameCharsAreNotNewline(n[i]);
      } else if i < b {
      } else {
        NameCharsAreNotNewline(n[i]);
      }
    }
  }

  /** Because the whole match begins with the prefix, deleting the first
      occurrence of the prefix and then the line breaks leaves exactly the
      name that follows the prefix. */
  lemma CleanIsName(m: Found)
    requires |m.prefix| < |m.whole| && m.whole[..|m.prefix|] == m.prefix
    requires NameShape(m.whole[|m.prefix|..])
    ensures Clean(m) == m.whole[|m.prefix|..]
  {
    if m.prefix != [] {
      ReplaceFirstAtFront(m.whole, m.prefix);
      NameHasNoNewline(m.whole[|m.prefix|..]);
      RemoveAbsentChar(m.whole[|m.prefix|..], '\n');
    }
  }

  /** Every emitted name is a first name, spaces and a last name of at
      least two characters, contains no line break, and occurs in the
      text. */
  lemma RegexNameShape(text: string, x: string)
    requires x in RegexNames(text)
    ensures NameShape(x)
    ensures '\n' !in x
    ensures exists i :: OccursAt(text, x, i)
  {
    var m :| m in FindAll(text, 0) && x == Clean(m);
    FindAllFound(text, 0, m);
    CleanIsName(m);
    NameHasNoNewline(x);
  }
}
