# Back-translation and sequence-string engine, in Dafny

This project models the sequence-analysis core of a small bioinformatics
visualisation tool, and proves properties of that model. The core has three parts:

- **Back-translation tables** (`parser/temp_backtranslate.py`):
  - the standard `codon_table` (amino acid to its tuple of codons);
  - the IUPAC map `ambiguous_bases` (set of bases to one symbol);
  - the naive per-column collapse into `ambiguous_codon_table`, followed by the four hand-written overrides;
  - `backtranslate_permutations` and `backtranslate`;
  - the reversed ambiguity map and `disambiguate`;
  - the string helpers `clean_sequence`, `translate` over `gencode`, `codon_dict` and `codon_frequencies`.
- **Table inversion and peptide search** (`src/main/python/viz.py` and the older `viz.py`):
  - `naive_backtranslate`;
  - both versions of `get_peptide_index` (the first hit, or every hit);
  - `ngrams` and `make_trigrams`.
- **File sectioning in the browser page** (`viz.js`):
  - `parseFasta`, `parseGenbank` and `getFileText`;
  - the file-type expression of `loadFile`.

Modules, one per source concern:

| module | file | models |
|---|---|---|
| `Common` | common.dfy | Python errors as a `Result`, `''.join`, `seq[::-1]`, substring search |
| `CodonTables` | codon_tables.dfy | `codon_table`, `gencode` |
| `AmbiguityCodes` | ambiguity_codes.dfy | `ambiguous_bases`, the ambiguous codon table and its overrides |
| `ReversedBases` | reversed_bases.dfy | `ambiguous_bases_reversed` |
| `Backtranslation` | backtranslation.dfy | `backtranslate_permutations`, `backtranslate` |
| `BacktranslationCounts` | backtranslation_counts.dfy | the doctest counts for the amino-acid tables |
| `Disambiguation` | disambiguation.dfy | `disambiguate` and its doctest |
| `SequenceUtils` | sequence_utils.dfy | `clean_sequence`, `translate`, `codon_dict`, `codon_frequencies` |
| `Viz` | viz.dfy | `naive_backtranslate`, `get_peptide_index` (both versions), `ngrams`, `make_trigrams` |
| `FileText` | file_text.dfy | `split(/\r\n\|\n/)`, `parseFasta`, `parseGenbank`, `getFileText`, `ftype` |

Code that loops or updates state step by step is a `method` proved against a specification function:
- `backtranslate` and `backtranslate_permutations`;
- the collapse loops and `codon_dict`/`codon_frequencies`;
- the `back_table` loop and the candidate loops of `get_peptide_index`;
- `parseFasta` and `parseGenbank`.

Comprehensions and expressions are functions.

Python exceptions are the `Raise` case of `Common.Result`: `IndexError`, `KeyError`, `TypeError`. The inputs that come from outside are parameters:
- the forward codon table of the viz modules;
- the iteration order of `ambiguous_bases.iteritems()`;
- the file text and file name of the page.

Behaviour worth knowing, as the code has it:

- **Order of `backtranslate` results.** Earlier residues vary fastest, because the outer loop runs over the new codons. `itertools.product` in `get_peptide_index` works the other way round: the last position varies fastest.
- **Unknown residues in `get_peptide_index`.** It back-translates the whole protein before taking the first `codon_count` lists. A residue the table does not produce raises `KeyError` even when it lies beyond that prefix. The prefix is taken only after the whole protein has been back-translated.
- **`codon_count` of 0, or an empty protein.** The product is one empty tuple, and `''` is found at index 0, so the result is 0 (`Viz.NoCodonsFoundAtZero`). An empty search therefore never reports "not found".
- **Residue errors.** They are a plain `KeyError`, not an error that carries the symbol and position.
- **`ambiguous_bases` is not a bijection.** It has 16 keys but 15 symbols: `{'U'}` also maps to `'T'`.
  - So `ambiguous_bases_reversed['T']` is `['T']` or `['U']`, depending on dictionary order.
  - `ReversedBases.ReversedTableMeaning` proves that for every item order the entry is one of the two.
  - `ReversedBases.ReversedTFollowsOrder` proves that the later of `{'T'}` and `{'U'}` decides it.
  - `ReversedBases.ReversedTDependsOnOrder` proves that both outcomes occur: `['U']` in the order the literal is written, `['T']` with those two items exchanged.
  - `Disambiguation.Resolutions` names the letter chosen.
- **The blank-line test of `parseFasta`.** `line == /\r\n|\n/` compares the line with the text of the regular expression. That text is the nine characters `/\r\n|\n/`.
  - A line with exactly that text is skipped.
  - Every other non-header line is appended, including an empty one, which appends nothing.
  - A data line before the first header reads `fileSections[-1]` and raises `TypeError`. An empty file is one empty data line, so it raises too.
- **`parseGenbank` markers.** Each marker comes from the last line whose upper-case form contains FEATURES or ORIGIN. `indexOf` then returns the first line with the same text.
  - An absent marker is `undefined`. `undefined + 1` is `NaN`, and `slice` reads `NaN` as 0.
  - An `undefined` end means the end of the list.
  - So without markers all three sections hold every line.

## Model

| member | source | states |
|---|---|---|
| Common.Reverse | parser/temp_backtranslate.py:195 | `seq[::-1]` has the same length and holds element `len-1-i` at position `i` |
| CodonTables.CodonTableIsPartition | parser/temp_backtranslate.py:5-27 | the tuples are non-empty, hold only codons, repeat none, share none, number 64 codons in all and cover every codon over A, C, G, T; the keys are the 21 amino-acid letters |
| CodonTables.CodonTableHas64Entries | parser/temp_backtranslate.py:5-27 | the size of every tuple (A 4, C 2, D 2, E 2, F 2, G 4, I 3, H 2, K 2, L 6, M 1, N 2, P 4, Q 2, R 6, S 6, T 4, V 4, W 1, Y 2, `*` 3) and their total of 64 |
| CodonTables.AminoAcidsAreTheKeys | parser/temp_backtranslate.py:5-27 | the 21 letters are exactly the keys, each once |
| CodonTables.CodonTableAgreesWithGencode | parser/temp_backtranslate.py:156-172 | every codon listed under an amino acid is a `gencode` key that maps back to that amino acid, with stop written `'_'` |
| CodonTables.GencodeCoversAllCodons | parser/temp_backtranslate.py:156-172 | every one of the 64 codons is a `gencode` key and is listed in `codon_table` under the amino acid `gencode` gives it |
| CodonTables.GencodeSymbolInjective | parser/temp_backtranslate.py:171-172 | writing stop as `'_'` merges no two amino acids |
| AmbiguityCodes.IupacSymbol | parser/temp_backtranslate.py:30-47 | for every non-empty set of bases the symbol stands for exactly that set |
| AmbiguityCodes.AmbiguousBasesCoverBaseSets | parser/temp_backtranslate.py:30-47 | every non-empty subset of {A,C,G,T} is a key, mapped to the IUPAC symbol of exactly that subset, so the lookup in the collapse never fails |
| AmbiguityCodes.AmbiguousBasesAreIupac | parser/temp_backtranslate.py:30-47 | every key other than `{'U'}` is a set of DNA bases mapped to its own IUPAC symbol; `{'U'}` maps to `'T'` |
| AmbiguityCodes.SymbolHasEntry | parser/temp_backtranslate.py:30-47 | each of the 15 symbols is the value of the entry for the bases it stands for |
| AmbiguityCodes.AmbiguousBasesInverse | parser/temp_backtranslate.py:30-47 | a value is one of the 15 symbols, and its key is the set that symbol stands for, or `{'U'}` for `'T'` |
| AmbiguityCodes.CollapseCodons | parser/temp_backtranslate.py:52-55 | the inner loop builds the naive pattern: symbol `i` is the IUPAC symbol of the bases at position `i` |
| AmbiguityCodes.NaivePatternColumns | parser/temp_backtranslate.py:53-55 | each symbol of the naive pattern stands for exactly the bases of its column |
| AmbiguityCodes.NaivePatternMatchesItsCodons | parser/temp_backtranslate.py:50-56 | every codon of an amino acid matches its collapsed pattern |
| AmbiguityCodes.MatchesNaivePattern | parser/temp_backtranslate.py:50-56 | a codon matches the naive pattern iff each of its bases occurs in that column of the codons |
| AmbiguityCodes.CollapseColumns | parser/temp_backtranslate.py:50-56 | in any dictionary order, the outer loop gives every amino acid the one-pattern tuple of its naive pattern, and no other key |
| AmbiguityCodes.NaivePatternsTooWide | parser/temp_backtranslate.py:58-62 | the naive patterns of L, R, S and `*` each match a codon of another amino acid (TTT, AGT, TGT, TGG) |
| AmbiguityCodes.OverridesInOrder | parser/temp_backtranslate.py:58-62 | the four assignments after the collapse leave the hand-written pair for L, R, S, `*` and the naive pattern everywhere else |
| AmbiguityCodes.BuildAmbiguousCodonTable | parser/temp_backtranslate.py:50-62 | the module-level code yields the table the collapse and the overrides define |
| AmbiguityCodes.LeucineOverrideIsExact | parser/temp_backtranslate.py:59 | a codon matches `TTR` or `CTN` iff it is a leucine codon |
| AmbiguityCodes.ArginineOverrideIsExact | parser/temp_backtranslate.py:60 | a codon matches `CGN` or `AGR` iff it is an arginine codon |
| AmbiguityCodes.SerineOverrideIsExact | parser/temp_backtranslate.py:61 | a codon matches `TCN` or `AGY` iff it is a serine codon |
| AmbiguityCodes.StopOverrideIsExact | parser/temp_backtranslate.py:62 | a codon matches `TAR` or `TGA` iff it is a stop codon |
| AmbiguityCodes.OverrideIsExact | parser/temp_backtranslate.py:58-62 | for each overridden amino acid the final patterns match exactly its codons |
| AmbiguityCodes.AmbiguousCodonTableShape | parser/temp_backtranslate.py:58-62 | after the overrides the keys are those of `codon_table`, L, R, S and `*` have two patterns, every other amino acid one, all of three symbols |
| AmbiguityCodes.AmbiguousCodonTableIsSound | parser/temp_backtranslate.py:50-62 | every codon matches a pattern of its own amino acid, and the patterns of the four overridden ones match nothing else |
| ReversedBases.SortedLetters | parser/temp_backtranslate.py:104 | `sorted(list(key))` is the key's letters, one-letter strings, strictly increasing, none missing |
| ReversedBases.SortedLettersCount | parser/temp_backtranslate.py:104 | the sorted list has as many entries as the key has letters |
| ReversedBases.SortedLettersRoundTrip | parser/temp_backtranslate.py:104 | collecting the sorted letters gives the key back |
| ReversedBases.LastWithValue | parser/temp_backtranslate.py:104 | the last item carrying a value, or -1 when none does |
| ReversedBases.Reversed | parser/temp_backtranslate.py:104 | `dict(...)` has a key for exactly the values of the items |
| ReversedBases.ReversedTakesLastItem | parser/temp_backtranslate.py:104 | the entry of a value comes from the last item carrying it (a later pair replaces an earlier one) |
| ReversedBases.SourceOrderListsAmbiguousBases | parser/temp_backtranslate.py:30-47 | the order written in the source lists every entry exactly once |
| ReversedBases.ReversedTableMeaning | parser/temp_backtranslate.py:104 | in any item order: 15 keys, exactly the IUPAC symbols; `ambiguous_bases[frozenset(rev[s])] == s`; every `s != 'T'` maps to its sorted bases; `rev['T']` is `['T']` or `['U']` |
| ReversedBases.SwapKeepsListing | parser/temp_backtranslate.py:104 | exchanging two neighbouring items of a listing of `ambiguous_bases` gives another listing |
| ReversedBases.ReversedTFollowsOrder | parser/temp_backtranslate.py:104 | in any listing, `rev['T']` is `['U']` when `{'U'}` comes after `{'T'}`, and `['T']` otherwise |
| ReversedBases.ReversedTDependsOnOrder | parser/temp_backtranslate.py:104 | both outcomes occur: `['U']` for the literal's own order, `['T']` with `{'T'}` and `{'U'}` exchanged |
| ReversedBases.KeysOfT | parser/temp_backtranslate.py:34-35 | exactly `{'T'}` and `{'U'}` map to `'T'` |
| Backtranslation.Appended | parser/temp_backtranslate.py:98-100 | the inner loop appends the codon to each sequence, in order |
| Backtranslation.Extend | parser/temp_backtranslate.py:95-100 | one round of the loop leaves `len(codons) * len(to_extend)` sequences |
| Backtranslation.ExtendOrder | parser/temp_backtranslate.py:97-100 | position `j * len(to_extend) + i` holds sequence `i` followed by codon `j`: earlier residues vary fastest |
| Backtranslation.ExtendMembership | parser/temp_backtranslate.py:97-100 | a round yields exactly the old sequences followed by a new codon |
| Backtranslation.ExtendSequences | parser/temp_backtranslate.py:95-100 | the nested loops compute one round |
| Backtranslation.FirstExpansions | parser/temp_backtranslate.py:91 | the initial sequences are the codons of the first residue |
| Backtranslation.PermutationsStep | parser/temp_backtranslate.py:77-80 | each residue multiplies the count by its tuple length |
| Backtranslation.BacktranslatePermutations | parser/temp_backtranslate.py:67-80 | the loop returns the product of the tuple lengths, or `KeyError` for a residue that is no key |
| Backtranslation.Backtranslate | parser/temp_backtranslate.py:82-101 | empty protein: `IndexError`; a residue that is no key: `KeyError`; otherwise the expansions |
| Backtranslation.ExpansionsCount | parser/temp_backtranslate.py:67-101 | `backtranslate` returns exactly `backtranslate_permutations` sequences |
| Backtranslation.ExpansionsOrder | parser/temp_backtranslate.py:97-100 | appending a residue puts sequence `i` with codon `j` at `j * n + i` |
| Backtranslation.ExpansionsMembership | parser/temp_backtranslate.py:82-101 | a string is returned iff it is the concatenation of one codon per residue, codon `i` from `table[protein[i]]` |
| Backtranslation.ExpansionPicks | parser/temp_backtranslate.py:82-101 | every returned string comes from such a choice of codons |
| Backtranslation.PicksExpand | parser/temp_backtranslate.py:82-101 | every such choice is returned |
| Backtranslation.ExpansionLength | parser/temp_backtranslate.py:82-101 | with codons of width `w`, each string has length `w * len(protein)` (3 for `codon_table`) |
| Backtranslation.SingletonExpansions | parser/temp_backtranslate.py:82-101 | with one-letter entries, a string is returned iff letter `i` is listed for residue `i` |
| BacktranslationCounts.DoctestPermutations | parser/temp_backtranslate.py:71-73 | `backtranslate_permutations('ACDEFGHIKLMNPQRSTVWY*') == 1019215872`, and `backtranslate` returns that many sequences |
| BacktranslationCounts.AmbiguousPatternCounts | parser/temp_backtranslate.py:58-62 | in the ambiguous table each doctest residue has 2 patterns if overridden, else 1 |
| BacktranslationCounts.AmbiguousDoctestPermutations | parser/temp_backtranslate.py:74-75 | the same protein has 16 permutations under `ambiguous_codon_table` |
| BacktranslationCounts.FvcExpansions | parser/temp_backtranslate.py:86-88 | `len(backtranslate('FVC')) == 16` |
| Disambiguation.Disambiguate | parser/temp_backtranslate.py:107-116 | `backtranslate` over the reversed map: `IndexError` when empty, `KeyError` for a non-IUPAC letter, otherwise the expansions |
| Disambiguation.LetterForT | parser/temp_backtranslate.py:104 | `rev['T']` is the one-letter list of `'T'` or `'U'` |
| Disambiguation.SymbolLetters | parser/temp_backtranslate.py:104 | a letter is listed for a symbol iff it is one of the symbol's resolutions |
| Disambiguation.DisambiguationsMeaning | parser/temp_backtranslate.py:107-116 | a string is returned iff it has the input's length and letter `i` is a resolution of symbol `i` |
| Disambiguation.SymbolEntryShape | parser/temp_backtranslate.py:104 | every symbol's entry has one one-letter string per base it stands for |
| Disambiguation.ReversedWidth | parser/temp_backtranslate.py:104 | every entry of the reversed map is a one-letter string |
| Disambiguation.DoctestDisambiguations | parser/temp_backtranslate.py:110-114 | for `'ACGTRYSWKMBDHVN'` the permutation count and the number of returned strings are both 20736, in any dictionary order |
| SequenceUtils.Without | parser/temp_backtranslate.py:125 | `replace(c, '')` keeps every other character and removes every `c` |
| SequenceUtils.Split | parser/temp_backtranslate.py:125 | `split('\n')` gives at least one line, none holding the separator |
| SequenceUtils.JoinSplit | parser/temp_backtranslate.py:125 | joining the split lines with the separator gives the text back |
| SequenceUtils.ConcatSplit | parser/temp_backtranslate.py:125-127 | `''.join(split('\n'))` is the text without line breaks |
| SequenceUtils.StandardizeRemovesDebris | parser/temp_backtranslate.py:128-129 | the standardised text has no space, tab, lower-case ASCII letter or `U` |
| SequenceUtils.CleanSequenceOutcome | parser/temp_backtranslate.py:123-129 | `IndexError` exactly when the first line is empty; otherwise no `\r`, `\n`, space, tab, lower-case letter or `U` is left |
| SequenceUtils.CleanWithoutHeader | parser/temp_backtranslate.py:126-129 | a first line not starting with `>` is kept |
| SequenceUtils.CleanDropsHeader | parser/temp_backtranslate.py:126-129 | a `>` header line is dropped and only the body is standardised |
| SequenceUtils.Translate | parser/temp_backtranslate.py:175-177 | the protein has `len(seq) // 3` letters |
| SequenceUtils.TranslateMarksUnknown | parser/temp_backtranslate.py:177 | letter `i` is the `gencode` value of codon `i` in frame, or `'X'` exactly when that codon is no key |
| SequenceUtils.GencodeKeysAreCodons | parser/temp_backtranslate.py:156-172 | the keys of `gencode` are exactly the 64 codons, and no value is `'X'` |
| SequenceUtils.TranslateBacktranslation | parser/temp_backtranslate.py:175-177 | translating any back-translation of a protein spells the protein in `gencode` letters (stop as `'_'`) |
| SequenceUtils.RankOfBuiltCodon | parser/temp_backtranslate.py:183-186 | the three loops over `'AGCT'` build every codon, each once, in a fixed rank order |
| SequenceUtils.CodonDict | parser/temp_backtranslate.py:180-187 | the keys are exactly the 64 codons, all mapped to `filler` |
| SequenceUtils.CountWindows | parser/temp_backtranslate.py:192-194 | one pass adds to each codon the number of windows equal to it; short or non-codon windows are skipped |
| SequenceUtils.CodonFrequencies | parser/temp_backtranslate.py:189-199 | the 64 codon keys of `codon_dict`, each counting its windows in `seq` plus those in `seq[::-1]` |
| SequenceUtils.CountSumWindows | parser/temp_backtranslate.py:192-194 | summed over all codons, the counts are the number of windows that are codons |
| SequenceUtils.FrequenciesTotal | parser/temp_backtranslate.py:189-199 | the total count is the number of codon windows in `seq` plus that number in `seq[::-1]` |
| Viz.PreimageMembership | src/main/python/viz.py:139-144 | a codon is in `back_table[a]` iff the table maps it to `a`; an amino acid nothing maps to has no codons |
| Viz.PreimageDistinct | src/main/python/viz.py:139-144 | no codon is listed twice |
| Viz.PreimagesPartition | src/main/python/viz.py:139-144 | the list lengths add up to the number of table entries |
| Viz.BuildBackTable | src/main/python/viz.py:139-144 | the loop gives a key for exactly the produced amino acids, each holding its codons in iteration order (the same loop is at viz.py:81-86) |
| Viz.NaiveBacktranslate | src/main/python/viz.py:138-146 | one codon list per residue, entry `i` the list of residue `i`; `KeyError` for a residue the table does not produce (the same function is at viz.py:80-88) |
| Viz.PyBound | src/main/python/viz.py:155 | where Python puts a slice bound: unchanged within `0..len`, `len + i` for a negative `i` that fits, 0 below and `len` above |
| Viz.PyPrefix | src/main/python/viz.py:155 | `[:codon_count]` is the prefix up to that bound: `n` elements for `0 <= n <= len`, `len + n` for a negative `n` that fits, all of `s` above `len`, nothing below `-len` |
| Viz.AttachOrder | src/main/python/viz.py:156 | in `product`, position `k * N + j` is prefix `k` with entry `j` of the last list: the last position varies fastest |
| Viz.AttachMembership | src/main/python/viz.py:156 | one step of `product` yields exactly a prefix followed by an entry of the last list |
| Viz.ProductMembership | src/main/python/viz.py:156 | a tuple is in `product(*lists)` iff it has one entry from each list |
| Viz.FindFrom | src/main/python/viz.py:160 | `str.index` gives the leftmost position where the candidate occurs; `None` stands for `ValueError` when it occurs nowhere |
| Viz.FirstHitMeaning | src/main/python/viz.py:157-164 | the result is the leftmost index of the first candidate in product order that occurs, after candidates that do not; `None` iff none occurs |
| Viz.GetPeptideIndex | src/main/python/viz.py:148-164 | `KeyError` for a residue the table does not produce, anywhere in the protein; otherwise the first hit |
| Viz.NoCodonsFoundAtZero | src/main/python/viz.py:155-160 | with `codon_count == 0` or an empty protein the result is 0 |
| Viz.AllHits | viz.py:99-106 | at most one index per candidate |
| Viz.AllHitsMeaning | viz.py:99-106 | an index is emitted iff it is the leftmost occurrence of some candidate |
| Viz.HitSource | viz.py:99-102 | every printed index is the leftmost occurrence of some candidate |
| Viz.HitReported | viz.py:99-106 | every candidate that occurs has its leftmost index printed |
| Viz.GetPeptideIndexAll | viz.py:90-106 | `KeyError` as above; otherwise the indices printed, in product order, absent candidates skipped |
| Viz.PySlice | src/main/python/viz.py:184 | `seq[i:j]` is the slice between the two bounds as Python places them, empty when they cross; within range it is the plain slice |
| Viz.NGrams | src/main/python/viz.py:181-184 | `max(0, len - n + 1)` grams, gram `i` the Python slice `seq[i:i+n]` for every `n`, the plain window for `n >= 1` (the same function is at viz.py:129-132) |
| Viz.NGramsOfNegative | src/main/python/viz.py:181-184 | `ngrams("abc", -1)` gives `["ab", "", "", "", ""]`: five grams cut by Python's slice rules |
| Viz.NGramsOverlap | src/main/python/viz.py:181-184 | consecutive grams share all but one character |
| Viz.NGramsSpell | src/main/python/viz.py:181-184 | the first characters of the grams and the rest of the last gram spell the sequence again |
| Viz.MakeTrigrams | src/main/python/viz.py:186-196 | `TypeError` exactly for a type other than record, sequence or `str` (the same function is at viz.py:134-144) |
| Viz.TrigramsAreWindows | src/main/python/viz.py:186-196 | `max(0, len - 2)` trigrams, trigram `i` the three letters from `i` |
| FileText.SplitLines | viz.js:4 | at least one line, none holding `\n` |
| FileText.SplitLinesUnix | viz.js:4 | splitting on `\r\n` or `\n` is splitting on `\n` once each `\r\n` is written as `\n` |
| FileText.UnixPlain | viz.js:4 | text without `\r` is unchanged by that rewriting |
| FileText.LinesRejoin | viz.js:4 | joining the lines with `\n` gives the text back with `\r\n` breaks written as `\n` |
| FileText.SplitPlainLines | viz.js:4 | text without `\r` is split exactly at its `\n` characters, and joining restores it |
| FileText.ParseFasta | viz.js:1-16 | the loop yields the sections the line-by-line fold defines, or its `TypeError` |
| FileText.FastaStopsAtError | viz.js:12 | once a line throws, the whole parse throws that error |
| FileText.FastaDescriptions | viz.js:6-9 | one section per header line, in order, described by the header after its `>` |
| FileText.FastaRecord | viz.js:6-13 | a header `>d` followed by non-header lines makes one section `d` whose data is those lines run together, the regular expression's text left out |
| FileText.FastaError | viz.js:10-12 | the parse throws iff a data line comes before the first header, and the error is `TypeError` |
| FileText.EmptyFastaFails | viz.js:4-12 | an empty file throws `TypeError` |
| FileText.IndexOf | viz.js:25-26 | `indexOf` gives the first line with the same text |
| FileText.Marker | viz.js:24-27 | a marker index is a line index |
| FileText.MarkerUnset | viz.js:24-27 | a marker stays `undefined` iff no line contains the word in upper case |
| FileText.MarkerLast | viz.js:24-27 | a set marker is the `indexOf` of the last line containing the word, and that line contains the word too |
| FileText.Slice | viz.js:28-30 | `slice` within range is the plain slice, and an empty range gives nothing |
| FileText.ParseGenbank | viz.js:18-32 | exactly three sections `metadata`, `features`, `origin`, cut at the two markers |
| FileText.CutReassembles | viz.js:28-30 | for `featIdx < originIdx` the sections and the two marker lines are the lines again, in order |
| FileText.GenbankReassembles | viz.js:28-30 | the same for the markers the loop finds |
| FileText.GenbankWithoutMarkers | viz.js:28-30 | with neither marker every section holds all the lines |
| FileText.GetFileText | viz.js:34-47 | `fasta`/`fa` go to `parseFasta`, `genbank`/`gb`/`gbk` to `parseGenbank`, anything else is one section named after the file; only FASTA can throw, with `TypeError` |
| FileText.LastIndexOf | viz.js:52 | the last position of `.`, with nothing after it, or -1 iff there is none |
| FileText.FileType | viz.js:52 | the text after the last `.`; the whole name when there is no `.` or it ends in `.` |

## Left out

- `get_translation_table` (src/main/python/viz.py:67-112, viz.py:12-55) reads the user's choice with `input()` and looks a table up in Biopython. The forward table it returns is a parameter of the `Viz` members: its items in iteration order.
- The iteration order of `ambiguous_bases.iteritems()` under Python 2 is not fixed. It is a parameter (`items`) constrained to list every entry once.
- `random_sequence` uses randomness, `nuc_frequencies` uses float division, and `report_bad_chars` only prints. None of them is modelled.
- parser/temp_backtranslate.py:150 is a stray line of prose that makes the file unparsable. The model takes the evident meaning of the code around it.
- `loadFile`'s DOM and `FileReader` handling is left out. Only its `ftype` expression is modelled.
- Plotting, file readers, the GUI, the similarity batch and the PDB distance matrix are outside this model.
- SequenceUtils.UpperChar: only ASCII letters are upper-cased. Python's `str.upper` and JavaScript's `toUpperCase` also map other letters and can change a string's length.
- FileText.Upper: ASCII only, for the same reason.
- Viz.NGrams: a tuple of characters is modelled as the string of those characters, so `make_trigrams`' `''.join` is the identity.
- Viz.MakeTrigrams: a Biopython record or sequence is reduced to its letters. Any other Python type is one `Other` case.
- Viz.GetPeptideIndexAll: the older `get_peptide_index` prints each index and returns `None`. The model returns the list of printed indices instead.
- Common.Result: an exception is modelled by its kind only. The key or message it carries is not kept.
- Viz.FindFrom: the search is specified by its result, not by the algorithm CPython uses.
- parser/nucPepXform.cpp, parser/scribs.cpp and parser/biopythonParser.cpp are not part of this model. They are a C++ draft that indexes with characters and does not compile, a table already given by `gencode`, and Python C-API embedding.
- test_viz.py is not part of this model. It holds only empty test stubs.
