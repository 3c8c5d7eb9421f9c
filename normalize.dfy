/** `normalize_name`: the grouping key of the consensus vote.
    The program lower-cases the name and then calls `str.translate` with a
    dictionary whose keys are one-character STRINGS.  `str.translate`
    looks every character up by its integer code point, so no key of that
    dictionary is ever hit and accented letters are not folded: the key is
    the lower-cased name, nothing more. */
module Normalize {
  import opened Chars
  import opened PyStrings

  /** A key of a Python dictionary, as far as `str.translate` cares: an
      integer or a string. */
  datatype PyKey = IntKey(n: int) | StrKey(s: string)

  /** The program's `accdic`. */
  const AccDic: map<PyKey, string> := map[
    StrKey("à") := "a", StrKey("ä") := "a",
    StrKey("é") := "e", StrKey("è") := "e", StrKey("ë") := "e",
    StrKey("î") := "i", StrKey("ï") := "i",
    StrKey("ô") := "o", StrKey("ö") := "o",
    StrKey("û") := "u", StrKey("ü") := "u"]

  /** `s.translate(table)`: each character is looked up under its code
      point; a hit is replaced by the mapped string, a miss is kept. */
  function Translate(s: string, table: map<PyKey, string>): string {
    if s == [] then []
    else
      var k := IntKey(s[0] as int);
      (if k in table then table[k] else [s[0]]) + Translate(s[1..], table)
  }

  /** `normalize_name(name)`. */
  function NormalizeName(name: string): string {
    Translate(Lower(name), AccDic)
  }

  /** A table without integer keys translates nothing. */
  lemma {:induction false} TranslateWithoutIntKeys(s: string, table: map<PyKey, string>)
    requires forall k :: k in table ==> k.StrKey?
    ensures Translate(s, table) == s
  {
    if s != [] {
      TranslateWithoutIntKeys(s[1..], table);
      assert IntKey(s[0] as int) !in table;
    }
  }

  /** The key is exactly the lower-cased name. */
  lemma NormalizeIsLower(name: string)
    ensures NormalizeName(name) == Lower(name)
    ensures |NormalizeName(name)| == |name|
  {
    TranslateWithoutIntKeys(Lower(name), AccDic);
  }

  /** Normalising a key again does not change it. */
  lemma NormalizeIdempotent(name: string)
    ensures NormalizeName(NormalizeName(name)) == NormalizeName(name)
  {
    NormalizeIsLower(name);
    NormalizeIsLower(Lower(name));
    LowerIdempotent(name);
  }

  /** Accented letters survive normalisation: "René" keys as "rené",
      not "rene", and "ÀÄÉÈË" as "àäéèë", not "aaeee". */
  lemma AccentsAreNotFolded()
    ensures NormalizeName("René") == "rené"
    ensures NormalizeName("René") != "rene"
    ensures NormalizeName("ÀÄÉÈË") == "àäéèë"
  {
    NormalizeIsLower("René");
    NormalizeIsLower("ÀÄÉÈË");
    LowerRene();
    LowerAccentCapitals();
  }

  /** "René", lower-cased. */
  lemma LowerRene()
    ensures Lower("René") == "rené"
  {
    var a := Lower("René");
    assert a[0] == 'r' && a[1] == 'e' && a[2] == 'n' && a[3] == 'é';
  }

  /** "ÀÄÉÈË", lower-cased. */
  lemma LowerAccentCapitals()
    ensures Lower("ÀÄÉÈË") == "àäéèë"
  {
    var b := Lower("ÀÄÉÈË");
    assert b[0] == 'à' && b[1] == 'ä' && b[2] == 'é' && b[3] == 'è' && b[4] == 'ë';
  }
}
