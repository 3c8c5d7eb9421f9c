/** The Python string built-ins the name extractors use, as functions on
    `seq<char>`: `lower`, `split()`, `split(' ')`, `' '.join`, `count`,
    `replace`, `translate` with a deletion table, and the
    `re.sub(r'\s+', ' ', ...)` whitespace collapse. */
module PyStrings {
  import opened Chars

  // ---------------------------------------------------------------- lower

  /** `s.lower()` over the modelled alphabet. */
  function Lower(s: string): (r: string)
    ensures |r| == |s|
    ensures forall i :: 0 <= i < |s| ==> r[i] == LowerChar(s[i])
  {
    if s == [] then [] else [LowerChar(s[0])] + Lower(s[1..])
  }

  /** Lower-casing twice is lower-casing once. */
  lemma {:induction false} LowerIdempotent(s: string)
    ensures Lower(Lower(s)) == Lower(s)
  {
    if s != [] {
      LowerIdempotent(s[1..]);
      assert Lower(s)[1..] == Lower(s[1..]);
    }
  }

  // ------------------------------------------------------- str.split()

  predicate NoSpace(w: string) {
    forall i :: 0 <= i < |w| ==> !IsSpace(w[i])
  }

  /** The word `cur` read so far, emitted if it is not empty. */
  function Emit(cur: string): seq<string> {
    if cur == [] then [] else [cur]
  }

  /** `str.split()` with the word being read carried in `cur`: a run of
      whitespace ends the current word, and no empty word is produced. */
  function SplitFrom(s: string, cur: string): (r: seq<string>)
    requires NoSpace(cur)
    ensures forall w :: w in r ==> w != [] && NoSpace(w)
  {
    if s == [] then Emit(cur)
    else if IsSpace(s[0]) then Emit(cur) + SplitFrom(s[1..], [])
    else SplitFrom(s[1..], cur + [s[0]])
  }

  /** `s.split()`: the maximal runs of non-whitespace characters. */
  function Split(s: string): (r: seq<string>)
    ensures forall k :: 0 <= k < |r| ==> r[k] != [] && NoSpace(r[k])
  {
    SplitFrom(s, [])
  }

  /** Leading whitespace, dropped. */
  function DropSpaces(s: string): (r: string)
    ensures |r| <= |s|
    ensures r == [] || !IsSpace(r[0])
  {
    if s != [] && IsSpace(s[0]) then DropSpaces(s[1..]) else s
  }

  /** `re.sub(r'\s+', ' ', s)`: every maximal run of whitespace becomes a
      single space. */
  function Collapse(s: string): (r: string)
    decreases |s|
  {
    if s == [] then []
    else if IsSpace(s[0]) then [' '] + Collapse(DropSpaces(s[1..]))
    else [s[0]] + Collapse(s[1..])
  }

  /** `s.replace(x, y)` for single characters. */
  function ReplaceChar(s: string, x: char, y: char): (r: string)
    ensures |r| == |s|
    ensures forall i :: 0 <= i < |s| ==> r[i] == (if s[i] == x then y else s[i])
  {
    if s == [] then [] else [if s[0] == x then y else s[0]] + ReplaceChar(s[1..], x, y)
  }

  lemma {:induction false} SplitFromDropSpaces(s: string)
    ensures SplitFrom(s, []) == SplitFrom(DropSpaces(s), [])
  {
    if s != [] && IsSpace(s[0]) {
      SplitFromDropSpaces(s[1..]);
    }
  }

  /** Collapsing whitespace runs does not change the words. */
  lemma {:induction false} SplitFromCollapse(s: string, cur: string)
    requires NoSpace(cur)
    ensures SplitFrom(Collapse(s), cur) == SplitFrom(s, cur)
    decreases |s|
  {
    if s == [] {
    } else if IsSpace(s[0]) {
      var d := DropSpaces(s[1..]);
      assert ([' '] + Collapse(d))[1..] == Collapse(d);
      SplitFromCollapse(d, []);
      SplitFromDropSpaces(s[1..]);
    } else {
      assert ([s[0]] + Collapse(s[1..]))[1..] == Collapse(s[1..]);
      SplitFromCollapse(s[1..], cur + [s[0]]);
    }
  }

  /** Replacing one whitespace character by another does not change the
      words. */
  lemma {:induction false} SplitFromReplaceSpace(s: string, cur: string, x: char, y: char)
    requires NoSpace(cur) && IsSpace(x) && IsSpace(y)
    ensures SplitFrom(ReplaceChar(s, x, y), cur) == SplitFrom(s, cur)
    decreases |s|
  {
    if s != [] {
      var t := ReplaceChar(s, x, y);
      assert t[1..] == ReplaceChar(s[1..], x, y);
      if IsSpace(s[0]) {
        SplitFromReplaceSpace(s[1..], [], x, y);
      } else {
        SplitFromReplaceSpace(s[1..], cur + [s[0]], x, y);
      }
    }
  }

  /** A whitespace-free word read into `cur` ends up at the front of the
      word being built. */
  lemma {:induction false} SplitFromWord(w: string, rest: string, cur: string)
    requires NoSpace(cur) && NoSpace(w)
    ensures NoSpace(cur + w)
    ensures SplitFrom(w + rest, cur) == SplitFrom(rest, cur + w)
  {
    if w == [] {
      assert w + rest == rest;
      assert cur + w == cur;
    } else {
      assert (w + rest)[0] == w[0];
      assert (w + rest)[1..] == w[1..] + rest;
      assert cur + [w[0]] + w[1..] == cur + w;
      SplitFromWord(w[1..], rest, cur + [w[0]]);
    }
  }

  /** Two non-empty whitespace-free words joined by one space split back
      into exactly those two words. */
  lemma TwoWordsSplit(a: string, b: string)
    requires a != [] && b != [] && NoSpace(a) && NoSpace(b)
    ensures Split(a + [' '] + b) == [a, b]
  {
    SplitFromWord(a, [' '] + b, []);
    assert a + [' '] + b == a + ([' '] + b);
    assert [] + a == a;
    assert ([' '] + b)[1..] == b;
    SplitFromWord(b, [], []);
    assert b + [] == b;
    assert [] + b == b;
  }

  /** Words without whitespace, joined by single spaces, split back into
      the same words. */
  lemma {:induction false} SplitJoin(ws: seq<string>)
    requires forall k :: 0 <= k < |ws| ==> ws[k] != [] && NoSpace(ws[k])
    ensures Split(Join(ws, ' ')) == ws
  {
    if |ws| == 1 {
      SplitFromWord(ws[0], [], []);
      assert ws[0] + [] == ws[0] && [] + ws[0] == ws[0];
    } else if |ws| > 1 {
      var w, rest := ws[0], ws[1..];
      SplitJoin(rest);
      SplitFromWord(w, [' '] + Join(rest, ' '), []);
      assert w + [' '] + Join(rest, ' ') == w + ([' '] + Join(rest, ' '));
      assert [] + w == w;
      assert ws == [w] + rest;
    }
  }

  // ------------------------------------- str.split(sep), sep.join, count

  /** Index of the first `c` in `s`, or `|s|` when there is none. */
  function IndexOf(s: string, c: char): (i: nat)
    ensures i <= |s|
    ensures i < |s| ==> s[i] == c
    ensures forall k :: 0 <= k < i ==> s[k] != c
  {
    if s == [] then 0 else if s[0] == c then 0 else 1 + IndexOf(s[1..], c)
  }

  /** `s.split(c)` for a one-character separator: empty parts are kept. */
  function SplitOn(s: string, c: char): (r: seq<string>)
    ensures |r| >= 1
    ensures forall k :: 0 <= k < |r| ==> c !in r[k]
    decreases |s|
  {
    var i := IndexOf(s, c);
    if i == |s| then [s] else [s[..i]] + SplitOn(s[i + 1..], c)
  }

  /** `c.join(parts)` for a one-character separator. */
  function Join(parts: seq<string>, c: char): string {
    if |parts| == 0 then []
    else if |parts| == 1 then parts[0]
    else parts[0] + [c] + Join(parts[1..], c)
  }

  /** `s.count(c)` for one character. */
  function Count(s: string, c: char): nat {
    if s == [] then 0 else (if s[0] == c then 1 else 0) + Count(s[1..], c)
  }

  lemma {:induction false} CountAppend(s: string, t: string, c: char)
    ensures Count(s + t, c) == Count(s, c) + Count(t, c)
  {
    if s == [] {
      assert s + t == t;
    } else {
      assert (s + t)[1..] == s[1..] + t;
      CountAppend(s[1..], t, c);
    }
  }

  lemma {:induction false} CountAbsent(s: string, c: char)
    requires c !in s
    ensures Count(s, c) == 0
  {
    if s != [] {
      CountAbsent(s[1..], c);
    }
  }

  lemma JoinCons(p: string, parts: seq<string>, c: char)
    requires |parts| >= 1
    ensures Join([p] + parts, c) == p + [c] + Join(parts, c)
  {
    assert ([p] + parts)[1..] == parts;
  }

  /** A sequence is its part before `i`, its element at `i` and its part
      after `i`. */
  lemma Around(s: string, i: nat)
    requires i < |s|
    ensures s[..i] + [s[i]] + s[i + 1..] == s
  {
  }

  /** Splitting on `c` and joining with `c` gives the string back. */
  lemma {:induction false} JoinSplitOn(s: string, c: char)
    ensures Join(SplitOn(s, c), c) == s
    decreases |s|
  {
    var i := IndexOf(s, c);
    if i < |s| {
      var t := s[i + 1..];
      calc {
        Join(SplitOn(s, c), c);
        Join([s[..i]] + SplitOn(t, c), c);
        { JoinCons(s[..i], SplitOn(t, c), c); }
        s[..i] + [c] + Join(SplitOn(t, c), c);
        { JoinSplitOn(t, c); }
        s[..i] + [s[i]] + s[i + 1..];
        { Around(s, i); }
        s;
      }
    }
  }

  /** `s.split(c)` has one more part than `s` has occurrences of `c`. */
  lemma {:induction false} SplitOnLength(s: string, c: char)
    ensures |SplitOn(s, c)| == Count(s, c) + 1
    decreases |s|
  {
    var i := IndexOf(s, c);
    if i == |s| {
      CountAbsent(s, c);
    } else {
      SplitOnLength(s[i + 1..], c);
      assert s == s[..i] + ([c] + s[i + 1..]);
      CountAppend(s[..i], [c] + s[i + 1..], c);
      CountAbsent(s[..i], c);
      assert ([c] + s[i + 1..])[1..] == s[i + 1..];
    }
  }

  /** Dropping the first part of `s.split(c)` and joining the rest leaves
      exactly what follows the first `c`. */
  lemma JoinTail(s: string, c: char)
    requires c in s
    ensures IndexOf(s, c) < |s|
    ensures Join(SplitOn(s, c)[1..], c) == s[IndexOf(s, c) + 1..]
    ensures SplitOn(s[IndexOf(s, c) + 1..], c) == SplitOn(s, c)[1..]
    ensures Count(s[IndexOf(s, c) + 1..], c) + 1 == Count(s, c)
  {
    var i := IndexOf(s, c);
    JoinSplitOn(s[i + 1..], c);
    SplitOnLength(s, c);
    SplitOnLength(s[i + 1..], c);
  }

  /** The last part of `s.split(c)` is what follows the last `c`: it is
      empty exactly when `s` ends with `c` (and `s` contains `c`). */
  lemma {:induction false} LastPartNonEmpty(s: string, c: char)
    requires s != [] && s[|s| - 1] != c
    ensures SplitOn(s, c)[|SplitOn(s, c)| - 1] != []
    decreases |s|
  {
    var i := IndexOf(s, c);
    if i < |s| {
      LastPartNonEmpty(s[i + 1..], c);
    }
  }

  // ------------------------------------------------------ deletions

  /** `s.translate(str.maketrans('', '', string.punctuation))`. */
  function RemovePunct(s: string): (r: string)
    ensures forall k :: 0 <= k < |r| ==> !IsPunct(r[k])
    ensures |r| <= |s|
  {
    if s == [] then []
    else if IsPunct(s[0]) then RemovePunct(s[1..])
    else [s[0]] + RemovePunct(s[1..])
  }

  /** Deleting punctuation keeps every other character, in order; in
      particular a first character that is not punctuation stays first. */
  lemma RemovePunctKeepsHead(s: string)
    requires s != [] && !IsPunct(s[0])
    ensures RemovePunct(s) != [] && RemovePunct(s)[0] == s[0]
  {
  }

  /** Deleting punctuation cannot introduce whitespace. */
  lemma {:induction false} RemovePunctNoSpace(s: string)
    requires NoSpace(s)
    ensures NoSpace(RemovePunct(s))
  {
    if s != [] {
      RemovePunctNoSpace(s[1..]);
    }
  }

  /** `s.replace(c, "")` for one character. */
  function RemoveChar(s: string, c: char): (r: string)
    ensures c !in r
    ensures |r| <= |s|
  {
    if s == [] then []
    else if s[0] == c then RemoveChar(s[1..], c)
    else [s[0]] + RemoveChar(s[1..], c)
  }

  /** Removing a character that does not occur changes nothing. */
  lemma {:induction false} RemoveAbsentChar(s: string, c: char)
    requires c !in s
    ensures RemoveChar(s, c) == s
  {
    if s != [] {
      RemoveAbsentChar(s[1..], c);
      assert s == [s[0]] + s[1..];
    }
  }

  /** `pat` occurs in `s` at position `k`. */
  predicate OccursAt(s: string, pat: string, k: nat) {
    k + |pat| <= |s| && s[k..k + |pat|] == pat
  }

  /** Position of the first occurrence of `pat` in `s` at or after
      `from`, or `|s|` when there is none. */
  function Find(s: string, pat: string, from: nat): (i: nat)
    requires pat != [] && from <= |s|
    ensures from <= i <= |s|
    ensures i < |s| ==> OccursAt(s, pat, i)
    ensures forall k :: from <= k < i ==> !OccursAt(s, pat, k)
    decreases |s| - from
  {
    if from + |pat| > |s| then |s|
    else if s[from..from + |pat|] == pat then from
    else Find(s, pat, from + 1)
  }

  /** `s.replace(pat, y, 1)`: the first occurrence of `pat`, if any, is
      replaced. */
  function ReplaceFirst(s: string, pat: string, y: string): (r: string)
    requires pat != []
  {
    var i := Find(s, pat, 0);
    if i < |s| then s[..i] + y + s[i + |pat|..] else s
  }

  /** When `s` begins with `pat`, the first occurrence is the one at the
      front, and deleting it leaves the rest of `s`. */
  lemma ReplaceFirstAtFront(s: string, pat: string)
    requires pat != [] && |pat| <= |s| && s[..|pat|] == pat
    ensures ReplaceFirst(s, pat, []) == s[|pat|..]
  {
    assert OccursAt(s, pat, 0);
  }
}
