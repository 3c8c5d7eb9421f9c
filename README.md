# Name consensus: a verified model

This project models the core of a person-name detector for French OCR text.
It is the part of `src/app.py` that, given the text of one document, does the following:

- extracts candidate full names three ways:
  - a regular expression for "optional civility title, capitalised first name, spaces, capitalised last name";
  - a scan for adjacent capitalised tokens whose first token is a known first name;
  - a filter over the person entities an external tagger finds, line by line;
- keeps a name when at least two of the three extractors produced a name with the same normalised key (`normalize_name`).

The model is written in Dafny. It has one module per part of the program:

| file | module | models |
|---|---|---|
| `chars.dfy` | `Chars` | `isupper`, `lower`, `isspace`, `string.punctuation` and the pattern's character classes, on single characters |
| `pystrings.dfy` | `PyStrings` | the Python string built-ins used: `lower`, `split()`, `split(' ')`, `' '.join`, `count`, `replace`, `translate` as deletion, `re.sub(r'\s+', ' ', ·)` |
| `ordering.dfy` | `Ordering` | Python's string order and `sorted(list(names))` |
| `normalize.dfy` | `Normalize` | `normalize_name` |
| `regex_extractor.dfy` | `RegexExtractor` | `extract_names_with_regex`: a matcher for the pattern, `re.findall`'s scan, and the prefix-stripping loop |
| `dictionary_extractor.dfy` | `DictionaryExtractor` | `extract_names_with_prenoms_list` |
| `entity_extractor.dfy` | `EntityExtractor` | the entity filter of `extract_names_with_spacy` |
| `consensus.dfy` | `Consensus` | `extract_names_from_text` |
| `scenarios.dfy`, `regex_sample.dfy`, `dictionary_sample.dfy` | `Scenarios`, `RegexSample`, `DictionarySample` | worked examples of the vote and of the two pattern extractors |

Each extractor's loop is a `method`. It is proved to return a sorted list whose elements are exactly a set defined by a specification function:

- `RegexNames` for the regex extractor;
- `DictionaryNames` for the dictionary extractor;
- `EntityNames` for the entity filter.

Lemmas then characterise each of these sets. The vote is two methods:

- `CountVotes` is the counting loop;
- `Vote` is the selection loop.

Both are proved against the functions `Votes`, `RawUnion` and `Agreed`. Lemmas then restate `Agreed` as the two-of-three rule: two distinct extractors produced the key.

On these points the code behaves otherwise than its names and comments suggest; the model follows the code:

- **Accents.** The accent table at src/app.py:28-32 shows that `normalize_name` was meant to fold accents, so that "René" keys as "rene". It does not. The table has one-character *string* keys, but `str.translate` looks characters up by integer code point, so no entry ever applies. The key is just the lower-cased name. `Normalize.AccentsAreNotFolded` states that "René" keys as "rené".
- **Result order.** The three extractors return `sorted(list(names))`, but `extract_names_from_text` builds its list by iterating over a set and does not sort it. The model states only the list's elements and that they are distinct.
- **Title prefix.** The regex extractor's title prefix must start with the letter `M`, followed by at least one letter or period and then whitespace, so a capitalised word such as "Marie " can take its place. First and last name are separated by spaces only, not by any whitespace.
- **Entity word count.** The entity filter keeps entity texts with one or two spaces, so two or three `' '`-separated parts, and never an entity of a single word. Dropping a title can still emit a single word: "Monsieur Dupont" yields "Dupont".

## Model

| member | source | states |
|---|---|---|
| `Chars.IsUpper` | src/app.py:75 | `c.isupper()` on one character: an ASCII capital or one of the twelve accented capitals of `uppacc` |
| `Chars.IsSpace` | src/app.py:50 | `c.isspace()`, which is also what `\s` matches: the ASCII controls 0x09-0x0D and 0x1C-0x20 and the Unicode spaces 0x85, 0xA0, 0x1680, 0x2000-0x200A, 0x2028, 0x2029, 0x202F, 0x205F, 0x3000 |
| `Chars.IsPunct` | src/app.py:77 | membership in `string.punctuation`: the 32 ASCII punctuation marks |
| `Chars.LowerChar` | src/app.py:33 | `c.lower()` on one character: a capital of the modelled alphabet becomes a different, non-capital character; every other character is unchanged |
| `PyStrings.Lower` | src/app.py:33 | `s.lower()` keeps the length and lower-cases each character in place |
| `PyStrings.LowerIdempotent` | src/app.py:33 | lower-casing twice is lower-casing once |
| `PyStrings.Split` | src/app.py:72 | every token of `s.split()` is non-empty and contains no whitespace |
| `PyStrings.SplitJoin` | src/app.py:72 | whitespace-free non-empty words joined by single spaces split back into the same words |
| `PyStrings.TwoWordsSplit` | src/app.py:78 | `a + " " + b` of two whitespace-free words splits into exactly `[a, b]` |
| `PyStrings.ReplaceChar` | src/app.py:72 | `text.replace('\n', ' ')`: every occurrence of one character replaced by another, the rest unchanged in place |
| `PyStrings.Collapse` | src/app.py:72 | `re.sub(r'\s+', ' ', s)`: each maximal run of whitespace becomes one space, every other character is kept in order |
| `PyStrings.SplitOn` | src/app.py:95 | `s.split(c)` has at least one part and no part contains `c` |
| `PyStrings.JoinSplitOn` | src/app.py:95-98 | `c.join(s.split(c)) == s` |
| `PyStrings.SplitOnLength` | src/app.py:94-95 | `s.split(c)` has `s.count(c) + 1` parts |
| `PyStrings.Count` | src/app.py:94 | `s.count(c)`: the number of positions holding `c` |
| `PyStrings.Join` | src/app.py:98 | `c.join(parts)`: the parts in order with one `c` between neighbours, empty for no parts |
| `PyStrings.JoinTail` | src/app.py:98 | joining all parts but the first gives the text after the first separator |
| `PyStrings.LastPartNonEmpty` | src/app.py:96 | when `s` does not end in `c`, the last part of `s.split(c)` is non-empty, so `[-1][0]` is defined |
| `PyStrings.RemovePunct` | src/app.py:77 | deleting `string.punctuation` leaves no punctuation character and never lengthens |
| `PyStrings.RemovePunctKeepsHead` | src/app.py:77 | a token whose first character is not punctuation keeps that first character |
| `PyStrings.RemoveChar` | src/app.py:59 | `replace("\n", "")` leaves no line break and never lengthens |
| `PyStrings.Find` | src/app.py:59 | the first occurrence of a pattern at or after a position, or none |
| `PyStrings.ReplaceFirst` | src/app.py:59 | `s.replace(p, y, 1)`: the first occurrence of `p`, if any, replaced by `y`; otherwise `s` unchanged |
| `PyStrings.ReplaceFirstAtFront` | src/app.py:59 | `s.replace(p, "", 1)` where `s` starts with `p` is the rest of `s` after `p` |
| `Chars.AccentsListed` | src/app.py:48-49 | the accented letters the character classes use are exactly those of `lowacc` and `uppacc`, each capital 0x20 below its small letter |
| `Normalize.Translate` | src/app.py:33 | `s.translate(table)`: each character looked up under its integer code point; a hit is replaced by the mapped string, a miss kept |
| `Normalize.NormalizeName` | src/app.py:25-33 | `normalize_name(name)`: the name lower-cased, then translated with the accent table `accdic`, whose keys are one-character strings |
| `Normalize.TranslateWithoutIntKeys` | src/app.py:28-33 | a table whose keys are all strings leaves every string unchanged under `translate` |
| `Normalize.NormalizeIsLower` | src/app.py:25-33 | `normalize_name(x) == x.lower()`: the string-keyed table never applies |
| `Normalize.NormalizeIdempotent` | src/app.py:25-33 | normalising a key again leaves it unchanged |
| `Normalize.AccentsAreNotFolded` | src/app.py:28-33 | "René" keys as "rené" (not "rene"); "ÀÄÉÈË" keys as "àäéèë" |
| `Ordering.Less` | src/app.py:61 | Python's `<` on strings: lexicographic by code point, a proper prefix first |
| `Ordering.LessIrreflexive` | src/app.py:61 | no string sorts before itself |
| `Ordering.LessTransitive` | src/app.py:61 | the string order is transitive |
| `Ordering.SortedList` | src/app.py:61 | `sorted(list(s))`: a strictly increasing list holding exactly the elements of `s`, of length `|s|` |
| `RegexExtractor.SpanRun` | src/app.py:50-53 | a greedy repetition takes a run all of its class that the next character cannot extend |
| `RegexExtractor.MatchPrefix` | src/app.py:50 | `[M][A-Za-z\.]+\s+` at a position: `M`, a greedy run of at least one letter or period, a greedy run of at least one whitespace character; the end of the match, inside the text |
| `RegexExtractor.MatchPrefixShape` | src/app.py:50 | a prefix match starts with `M` and ends with whitespace |
| `RegexExtractor.MatchName` | src/app.py:51-53 | the name part at a position: an ASCII capital, the greedy first-name tail, at least one space, an ASCII capital and a last-name tail of at least one character; the boundaries, in order, inside the text |
| `RegexExtractor.MatchNameShape` | src/app.py:51-53 | a name match has the shape first name, spaces, last name of at least two characters, and cannot be extended |
| `RegexExtractor.MatchAt` | src/app.py:53-54 | the whole pattern at a position: with the prefix when a prefix and then a name match there, otherwise the bare name; the match starts there and its name part is non-empty |
| `RegexExtractor.MatchAtShape` | src/app.py:53-54 | a match at `p` is an optional `M…` prefix ending in whitespace, followed by a text of name shape |
| `RegexExtractor.ReportFound` | src/app.py:54 | the tuple reported for a match has a whole match starting with its prefix group, and the rest is a name occurring in the text |
| `RegexExtractor.FindAll` | src/app.py:54 | `re.findall` from a position: a match there is reported and scanning resumes at its end; otherwise scanning moves on one character |
| `RegexExtractor.FindAllFound` | src/app.py:54 | every tuple `re.findall` returns has that property |
| `RegexExtractor.SkipOne` | src/app.py:53-54 | no match starts at a character other than an ASCII capital, so the scan moves on by one |
| `RegexExtractor.FindAllSkips` | src/app.py:54 | the scan skips any stretch of text with no ASCII capital |
| `RegexExtractor.Clean` | src/app.py:57-59 | the loop body for one tuple: with a non-empty prefix group, its first occurrence and then every line break deleted; otherwise the whole match |
| `RegexExtractor.RegexNames` | src/app.py:54-60 | the set of the cleaned tuples `re.findall` returns for the text |
| `RegexExtractor.ExtractWithRegex` | src/app.py:45-61 | the result is sorted and holds exactly the cleaned matches `RegexNames(text)` |
| `RegexExtractor.NameHasNoNewline` | src/app.py:51-53 | a text of name shape has no line break |
| `RegexExtractor.CleanIsName` | src/app.py:56-60 | deleting the first occurrence of the prefix and then the line breaks leaves exactly the name after the prefix |
| `RegexExtractor.RegexNameShape` | src/app.py:50-60 | every emitted name has name shape, no line break, and occurs in the text |
| `RegexSample.MarieNotTitle` | src/app.py:50-54 | at "Marie Curie." the prefix `Marie ` matches but no name follows it |
| `RegexSample.FindAllExample` | src/app.py:54 | on "M. Jean Dupont a rencontré Marie Curie." `re.findall` yields ("M. Jean Dupont", "M. ") and ("Marie Curie", "") |
| `RegexSample.RegexExample` | src/app.py:45-61 | on that sentence the extractor yields exactly {"Jean Dupont", "Marie Curie"} |
| `DictionaryExtractor.Tokens` | src/app.py:72 | line breaks replaced by spaces, whitespace runs collapsed, then `split()` |
| `DictionaryExtractor.Matches` | src/app.py:75-76 | the pair test: both tokens start upper-case and the first, lower-cased, is a reference first name |
| `DictionaryExtractor.Candidate` | src/app.py:77-78 | the name emitted for a pair: the first token, a space, and the second token with `string.punctuation` deleted |
| `DictionaryExtractor.CandidatesBelow` | src/app.py:74-78 | the candidates of the matching pairs `(l[k], l[k + 1])` for `k` below a bound, in the order `zip` visits them |
| `DictionaryExtractor.DictionaryNames` | src/app.py:70-78 | the candidates of the text's tokens, with the reference set minus the five stop words |
| `DictionaryExtractor.TokensAreSplit` | src/app.py:72 | replacing line breaks and collapsing whitespace does not change `text.split()` |
| `DictionaryExtractor.CandidatesBelowMember` | src/app.py:74-78 | a candidate is emitted exactly when some adjacent pair before the bound matches |
| `DictionaryExtractor.ExtractWithPrenoms` | src/app.py:63-79 | the result is sorted and holds exactly `DictionaryNames(text, reference)` |
| `DictionaryExtractor.CandidateShape` | src/app.py:70-78 | every candidate is two words `a b2`, both starting upper-case, where `a.lower()` is a reference first name other than a stop word, `b2` has no punctuation, and `a` and the token after it are adjacent tokens of the text, the second starting upper-case and giving `b2` once its punctuation is deleted |
| `DictionaryExtractor.FewTokensNoCandidates` | src/app.py:72-74 | a text of fewer than two tokens gives no name |
| `DictionarySample.SampleCandidates` | src/app.py:74-78 | in "Jean Dupont et Marie Curie sont venus." only the pairs (Jean, Dupont) and (Marie, Curie) can match |
| `DictionarySample.BothKnown` | src/app.py:63-79 | with reference {jean, marie} that sentence yields {"Jean Dupont", "Marie Curie"} |
| `DictionarySample.OnlyJeanKnown` | src/app.py:63-79 | with reference {jean} it yields only {"Jean Dupont"} |
| `EntityExtractor.Kept` | src/app.py:92-96 | the filter: label `PER`, one or two spaces in the text, and the last `' '`-separated part starts upper-case |
| `EntityExtractor.Cleaned` | src/app.py:97-98 | the name kept: the text without its first part when that part, lower-cased, is one of the nine titles; otherwise the text |
| `EntityExtractor.LineNames` | src/app.py:91-99 | the names kept among one line's entities |
| `EntityExtractor.EntityNames` | src/app.py:89-99 | the names kept among the entities of every line of `text.split('\n')` |
| `EntityExtractor.FilterEntity` | src/app.py:92-99 | an entity is kept exactly when it is `PER`, has one or two spaces and a capitalised last part; the name kept has a leading title dropped |
| `EntityExtractor.ExtractWithTagger` | src/app.py:81-100 | the result is sorted and holds exactly `EntityNames(text, tagger)`, the kept names of every line's entities |
| `EntityExtractor.LineNamesMember` | src/app.py:91-99 | a name comes from a line exactly when some kept entity of that line yields it |
| `EntityExtractor.AddLineNames` | src/app.py:91-99 | the loop over one line's entities adds exactly the names that line yields |
| `EntityExtractor.NamesOfMember` | src/app.py:89-99 | a name is found in a list of lines exactly when one of the lines yields it |
| `EntityExtractor.EntityNamesMember` | src/app.py:89-99 | a name is found in the text exactly when some kept entity of some line yields it |
| `EntityExtractor.TitleDropped` | src/app.py:97-98 | dropping a title keeps what follows the first space: the entity's parts but the first, with one space fewer |
| `EntityExtractor.CleanedName` | src/app.py:94-98 | a kept name is a suffix of the entity text; its parts are the entity's parts, minus the first exactly when that is a title; it keeps the capitalised last part and has one space fewer when a title was dropped |
| `Consensus.Elems` | src/app.py:112 | the set of a list's elements |
| `Consensus.Keys` | src/app.py:113 | `set([normalize_name(n) for n in names])`: the keys of one extractor's names |
| `Consensus.Votes` | src/app.py:110-114 | the count `normnames` reaches for a key: the number of extractors whose keys include it |
| `Consensus.RawUnion` | src/app.py:111-112 | `rawnames`: the union of the extractors' names |
| `Consensus.Agreed` | src/app.py:116-117 | the selection test: the name is in `rawnames` and its key has more than one vote |
| `Consensus.AsSets` | src/app.py:111-113 | each extractor's list, as the set of its elements |
| `Consensus.RawUnionMember` | src/app.py:109-112 | `rawnames` holds exactly the names some extractor produced |
| `Consensus.VotesAtMost` | src/app.py:110-114 | no key has more votes than there are extractors |
| `Consensus.VotesPositive` | src/app.py:110-114 | a key has a vote exactly when some extractor produced it |
| `Consensus.TwoExtractorsVote` | src/app.py:110-114 | two different extractors that produced a key give it at least two votes |
| `Consensus.VotesFromTwo` | src/app.py:110-114 | at least two votes for a key come from two different extractors that produced it |
| `Consensus.VotesTwo` | src/app.py:110-117 | a key has more than one vote exactly when two different extractors produced it |
| `Consensus.OwnKeyVoted` | src/app.py:116-117 | every raw name's key has between 1 and 3 votes, so the lookup `normnames[normalize_name(name)]` is defined |
| `Consensus.AgreedMeansTwoExtractors` | src/app.py:116-118 | a name is kept exactly when some extractor produced it and two different extractors produced its key; every raw variant of a kept key is kept |
| `Consensus.AddVotes` | src/app.py:113-114 | the inner counting loop adds exactly one vote to each of an extractor's keys, starting new keys at 1, and leaves other counts unchanged |
| `Consensus.CountVotes` | src/app.py:108-114 | the counting loop: `rawnames` is the union, each key's count is its number of votes, and every count is between 1 and the number of extractors |
| `Consensus.Vote` | src/app.py:115-119 | the selection loop: a duplicate-free list of exactly the agreed names |
| `Consensus.ExtractNamesFromText` | src/app.py:102-119 | the names returned are distinct and are exactly those agreed between the three extractors' results on the same text |
| `Scenarios.VariantsBothKept` | src/app.py:110-118 | two differently cased variants of one key, each from its own extractor, are both kept |
| `Scenarios.DupontVariantsKept` | src/app.py:110-118 | "Jean DUPONT" from one extractor and "Jean Dupont" from another share their key, and both are kept |
| `Scenarios.SingleExtractorDropped` | src/app.py:110-118 | a name only one extractor produced is dropped |

## Left out

- `get_text` (src/app.py:35-43): PDF rasterisation and OCR are foreign calls. The model starts from the text.
- `get_text_from_cache` and `extract_names_from_pdf` (src/app.py:121-140): reading and writing the cache files on disk is I/O. The model starts from the text.
- Reading the first-name CSV (src/app.py:68-69) is file I/O. The reference set is a parameter of type `set<string>`, so the non-string values a CSV column can hold are not modelled.
- Loading and running the tagger (src/app.py:84, 90) calls an opaque language model. The model takes the tagger as a parameter: a function from one line to its entities, each a label and a text. Splitting the text into lines is modelled.
- `run_spark_job` (src/app.py:142-156): its only content is Spark parallelism.
- `save_result_as_json` and the main block (src/app.py:158-174): JSON file I/O.
- The general regular-expression engine is not modelled. `RegexExtractor.MatchAt` is a hand-written matcher for this one pattern.
  - Each repetition in the pattern is followed by a character its own class cannot match, so greedy matching never backtracks into a repetition.
  - The only alternative the engine tries is dropping the optional prefix. The matcher tries the prefix first and the bare name second.
  - `re.MULTILINE` does not matter here, because the pattern has no `^` or `$`.
- Unicode case mapping is restricted to ASCII plus the twelve accented letters `àäéèëîïôöùûü` and their capitals. Any other capital, such as `Ç`, counts as not upper-case, and `lower` leaves it unchanged.
- Python's full Unicode whitespace set is modelled for `\s`, `str.split()` and `isspace`. Nothing else about Unicode is modelled.
- `EntityExtractor.ExtractWithTagger`: requires `TaggerFits`. No `PER` entity with one or two spaces may end in a space. Such an entity makes the program fail with an `IndexError` at src/app.py:96; that failure is not modelled.
- `EntityExtractor.FilterEntity`: requires `Taggable(ent)` for the same reason.
- `Consensus.ExtractNamesFromText`: states the elements of the returned list and that they are distinct, but not their order. The program's order comes from iterating over a Python set.
