/**
 * The string utilities at the end of parser/temp_backtranslate.py:
 * `clean_sequence`, `translate` over `gencode`, `codon_dict` and
 * `codon_frequencies`.
 */
module SequenceUtils {
  import opened Common
  import opened CodonTables
  import opened Backtranslation

  /** `s.replace(c, '')`: `s` with every `c` removed, the rest in order. */
  function Without(s: string, c: char): (r: string)
    ensures |r| <= |s|
    ensures forall x :: x in r <==> x in s && x != c
  {
    if s == [] then [] else Without(s[..|s| - 1], c) + (if s[|s| - 1] == c then [] else [s[|s| - 1]])
  }

  lemma {:induction false} WithoutAppend(a: string, b: string, c: char)
    ensures Without(a + b, c) == Without(a, c) + Without(b, c)
    decreases |b|
  {
    if b == [] {
      assert a + b == a;
    } else {
      assert (a + b)[..|a + b| - 1] == a + b[..|b| - 1];
      WithoutAppend(a, b[..|b| - 1], c);
    }
  }

  /** Removing a character that does not occur changes nothing. */
  lemma {:induction false} WithoutAbsent(s: string, c: char)
    requires c !in s
    ensures Without(s, c) == s
  {
    if s != [] {
      WithoutAbsent(s[..|s| - 1], c);
    }
  }

  /** `s.split(sep)`: the pieces of `s` between occurrences of `sep`; there is always at least one. */
  function Split(s: string, sep: char): (lines: seq<string>)
    ensures |lines| >= 1
    ensures forall i | 0 <= i < |lines| :: sep !in lines[i]
  {
    if s == [] then [""]
    else
      var lines := Split(s[..|s| - 1], sep);
      if s[|s| - 1] == sep then lines + [""]
      else lines[..|lines| - 1] + [lines[|lines| - 1] + [s[|s| - 1]]]
  }

  /** `sep.join(lines)` */
  function Join(lines: seq<string>, sep: char): string
    requires |lines| >= 1
  {
    if |lines| == 1 then lines[0] else Join(lines[..|lines| - 1], sep) + [sep] + lines[|lines| - 1]
  }

  /** Splitting and joining again with the same separator gives the text back. */
  lemma {:induction false} JoinSplit(s: string, sep: char)
    ensures Join(Split(s, sep), sep) == s
  {
    if s != [] {
      var init := s[..|s| - 1];
      var lines := Split(init, sep);
      JoinSplit(init, sep);
      if s[|s| - 1] == sep {
        assert (lines + [""])[..|lines|] == lines;
      } else {
        var n := |lines| - 1;
        var lines' := lines[..n] + [lines[n] + [s[|s| - 1]]];
        assert lines'[..n] == lines[..n];
        if n > 0 {
          assert lines[..n][..n - 1] == lines[..n - 1];
        }
      }
    }
  }

  /** Joining the pieces with nothing between them removes the separators. */
  lemma {:induction false} ConcatSplit(s: string, sep: char)
    ensures Concat(Split(s, sep)) == Without(s, sep)
  {
    if s != [] {
      var init, last := s[..|s| - 1], s[|s| - 1];
      var lines := Split(init, sep);
      ConcatSplit(init, sep);
      if last == sep {
        assert (lines + [""])[..|lines|] == lines;
      } else {
        var n := |lines| - 1;
        var lines' := lines[..n] + [lines[n] + [last]];
        assert lines'[..n] == lines[..n];
        assert Concat(lines') == Concat(lines[..n]) + (lines[n] + [last]);
        assert Concat(lines) == Concat(lines[..n]) + lines[n];
      }
    }
  }

  /** The pieces hold no character the text does not. */
  lemma {:induction false} SplitKeepsOut(s: string, sep: char, c: char)
    requires c !in s
    ensures forall i | 0 <= i < |Split(s, sep)| :: c !in Split(s, sep)[i]
  {
    if s != [] {
      SplitKeepsOut(s[..|s| - 1], sep, c);
    }
  }

  /** The first piece is empty exactly when the text is empty or starts with the separator; otherwise it starts with the text's first character. */
  lemma {:induction false} SplitFirst(s: string, sep: char)
    ensures Split(s, sep)[0] == [] <==> s == [] || s[0] == sep
    ensures Split(s, sep)[0] != [] ==> Split(s, sep)[0][0] == s[0]
  {
    if s != [] {
      var init := s[..|s| - 1];
      SplitFirst(init, sep);
      if init != [] {
        assert init[0] == s[0];
      }
    }
  }

  /** A text with no separator is one piece. */
  lemma {:induction false} SplitNone(s: string, sep: char)
    requires sep !in s
    ensures Split(s, sep) == [s]
  {
    if s != [] {
      SplitNone(s[..|s| - 1], sep);
      assert s[..|s| - 1] + [s[|s| - 1]] == s;
    }
  }

  /** Splitting after a first line that holds no separator puts that line in front of the pieces of the rest. */
  lemma {:induction false} SplitAfterFirst(first: string, rest: string, sep: char)
    requires sep !in first
    ensures Split(first + [sep] + rest, sep) == [first] + Split(rest, sep)
    decreases |rest|
  {
    var s := first + [sep] + rest;
    if rest == [] {
      assert s[..|s| - 1] == first;
      SplitNone(first, sep);
    } else {
      var rest' := rest[..|rest| - 1];
      assert s[..|s| - 1] == first + [sep] + rest';
      SplitAfterFirst(first, rest', sep);
    }
  }

  /** `c.upper()` for ASCII letters; every other character is left as it is. */
  function UpperChar(c: char): char
  {
    if 'a' <= c <= 'z' then (c as int - 32) as char else c
  }

  /** What `clean_sequence` never lets through. */
  predicate IsDebris(c: char)
  {
    c == '\r' || c == '\n' || c == ' ' || c == '\t' || ('a' <= c <= 'z') || c == 'U'
  }

  /** `s.replace(' ', '').replace('\t', '').upper().replace('U', 'T')` */
  function Standardize(s: string): (r: string)
  {
    var spaced := Without(Without(s, ' '), '\t');
    var upper := seq(|spaced|, i requires 0 <= i < |spaced| => UpperChar(spaced[i]));
    seq(|upper|, i requires 0 <= i < |upper| => if upper[i] == 'U' then 'T' else upper[i])
  }

  /**
   * `clean_sequence(sequence)`: drop every '\r', split into lines, drop the
   * first line if it starts with '>', join the rest and standardize. An
   * empty first line has no character 0, so `s[0][0]` raises `IndexError`.
   */
  function CleanSequence(sequence: string): (r: Result<string>)
  {
    var lines := Split(Without(sequence, '\r'), '\n');
    if lines[0] == [] then Raise(IndexError)
    else
      var kept := if lines[0][0] == '>' then lines[1..] else lines;
      Ok(Standardize(Concat(kept)))
  }

  /** A standardized string holds none of the characters `clean_sequence` removes or rewrites, except line breaks it never had. */
  lemma StandardizeRemovesDebris(s: string)
    requires '\r' !in s && '\n' !in s
    ensures forall i | 0 <= i < |Standardize(s)| :: !IsDebris(Standardize(s)[i])
  {
    var spaced := Without(Without(s, ' '), '\t');
    forall i | 0 <= i < |spaced|
      ensures !IsDebris(if UpperChar(spaced[i]) == 'U' then 'T' else UpperChar(spaced[i]))
    {
      assert spaced[i] in spaced;
    }
  }

  /**
   * `clean_sequence` raises `IndexError` exactly when the text, once '\r' is
   * dropped, is empty or starts with a line break; otherwise its result has
   * no '\r', '\n', space, tab, lower-case ASCII letter or 'U'.
   */
  lemma CleanSequenceOutcome(sequence: string)
    ensures var text := Without(sequence, '\r');
      CleanSequence(sequence).Raise? <==> text == [] || text[0] == '\n'
    ensures CleanSequence(sequence).Raise? ==> CleanSequence(sequence).error == IndexError
    ensures CleanSequence(sequence).Ok? ==>
      forall i | 0 <= i < |CleanSequence(sequence).value| :: !IsDebris(CleanSequence(sequence).value[i])
  {
    var text := Without(sequence, '\r');
    var lines := Split(text, '\n');
    SplitFirst(text, '\n');
    if lines[0] != [] {
      var kept := if lines[0][0] == '>' then lines[1..] else lines;
      SplitKeepsOut(text, '\n', '\r');
      KeptHasNoBreaks(kept);
      StandardizeRemovesDebris(Concat(kept));
    }
  }

  lemma KeptHasNoBreaks(lines: seq<string>)
    requires forall i | 0 <= i < |lines| :: '\n' !in lines[i] && '\r' !in lines[i]
    ensures '\n' !in Concat(lines) && '\r' !in Concat(lines)
  {
    if lines != [] {
      KeptHasNoBreaks(lines[..|lines| - 1]);
    }
  }

  /** A text whose first line is not a header is cleaned as a whole: its line breaks dropped, then standardized. */
  lemma CleanWithoutHeader(sequence: string)
    requires var text := Without(sequence, '\r'); text != [] && text[0] != '\n' && text[0] != '>'
    ensures CleanSequence(sequence) == Ok(Standardize(Without(Without(sequence, '\r'), '\n')))
  {
    var text := Without(sequence, '\r');
    SplitFirst(text, '\n');
    ConcatSplit(text, '\n');
  }

  /** A '>' header line is dropped, and the rest is cleaned as a whole. */
  lemma CleanDropsHeader(header: string, body: string)
    requires '\n' !in header && '\r' !in header
    ensures CleanSequence(">" + header + "\n" + body) == Ok(Standardize(Without(Without(body, '\r'), '\n')))
  {
    var first := ">" + header;
    assert ">" + header + "\n" + body == first + ['\n'] + body;
    HeaderTextKept(first, body);
    var rest := Without(body, '\r');
    SplitAfterFirst(first, rest, '\n');
    assert ([first] + Split(rest, '\n'))[1..] == Split(rest, '\n');
    ConcatSplit(rest, '\n');
  }

  lemma HeaderTextKept(first: string, body: string)
    requires '\r' !in first
    ensures Without(first + ['\n'] + body, '\r') == first + ['\n'] + Without(body, '\r')
  {
    WithoutAppend(first + ['\n'], body, '\r');
    WithoutAppend(first, ['\n'], '\r');
    WithoutAbsent(first, '\r');
    assert Without(['\n'], '\r') == ['\n'] by {
      assert ['\n'][..0] == [];
    }
  }

  /** `gencode.get(codon, 'X')` */
  function GencodeOrX(codon: string): char
  {
    match Gencode(codon)
    case Some(aa) => aa
    case None => 'X'
  }

  /** `translate(sequence)`: one character per whole codon of the +1 reading frame; a trailing partial codon is dropped. */
  function Translate(sequence: string): (protein: string)
    ensures |protein| == |sequence| / 3
  {
    seq(|sequence| / 3, i requires 0 <= i < |sequence| / 3 => GencodeOrX(sequence[3 * i..3 * i + 3]))
  }

  /** The keys of `gencode` are exactly the 64 codons, and no codon is written 'X'. */
  lemma GencodeKeysAreCodons(codon: string)
    ensures Gencode(codon).Some? <==> IsCodon(codon)
    ensures Gencode(codon) != Some('X')
  {
    if IsCodon(codon) {
      GencodeCoversAllCodons(codon);
    }
  }

  /** `translate` writes 'X' exactly for the in-frame triplets that are not codons. */
  lemma TranslateMarksUnknown(sequence: string)
    ensures forall i | 0 <= i < |Translate(sequence)| ::
      Translate(sequence)[i] == 'X' <==> !IsCodon(sequence[3 * i..3 * i + 3])
  {
    forall i | 0 <= i < |Translate(sequence)|
      ensures Translate(sequence)[i] == 'X' <==> !IsCodon(sequence[3 * i..3 * i + 3])
    {
      GencodeKeysAreCodons(sequence[3 * i..3 * i + 3]);
    }
  }

  /** How `gencode` spells a protein of `codon_table`: stop as '_'. */
  function GencodeSpelling(protein: string): (spelled: string)
    ensures |spelled| == |protein|
  {
    seq(|protein|, i requires 0 <= i < |protein| => GencodeSymbol(protein[i]))
  }

  /**
   * `translate` undoes `backtranslate`: every back-translation of a protein
   * through `codon_table` translates to that protein, with stop written '_'.
   */
  lemma TranslateBacktranslation(protein: string, x: string)
    requires AllListed(protein, CodonTable) && x in Expansions(CodonTable, protein)
    ensures Translate(x) == GencodeSpelling(protein)
  {
    var codons := ExpansionPicks(CodonTable, protein, x);
    forall k | 0 <= k < |codons|
      ensures |codons[k]| == 3 && GencodeOrX(codons[k]) == GencodeSymbol(protein[k])
    {
      CodonTranslates(protein[k], codons[k]);
    }
    ConcatCodons(codons);
    forall i | 0 <= i < |protein|
      ensures Translate(x)[i] == GencodeSymbol(protein[i])
    {
      assert x[3 * i..3 * i + 3] == codons[i];
    }
  }

  /** Each codon of `codon_table` translates back to its amino acid. */
  lemma CodonTranslates(aa: char, codon: string)
    requires aa in CodonTable && codon in CodonTable[aa]
    ensures |codon| == 3 && GencodeOrX(codon) == GencodeSymbol(aa)
  {
    CodonTableAgreesWithGencode();
  }

  /** The bases in the order `codon_dict` walks them. */
  const DictBases: string := "AGCT"

  /** The position of a base in `DictBases`. */
  function BaseRank(b: char): int
  {
    if b == 'A' then 0 else if b == 'G' then 1 else if b == 'C' then 2 else 3
  }

  /** The position at which the nested loops of `codon_dict` reach `codon`. */
  function CodonRank(codon: string): int
    requires |codon| == 3
  {
    16 * BaseRank(codon[0]) + 4 * BaseRank(codon[1]) + BaseRank(codon[2])
  }

  /** The codon the loops build from the bases at `one`, `two` and `three` sits at rank `16 * one + 4 * two + three`, and no other codon does. */
  lemma RankOfBuiltCodon(one: nat, two: nat, three: nat, c: string)
    requires one < 4 && two < 4 && three < 4
    ensures IsCodon([DictBases[one], DictBases[two], DictBases[three]])
    ensures CodonRank([DictBases[one], DictBases[two], DictBases[three]]) == 16 * one + 4 * two + three
    ensures IsCodon(c) && CodonRank(c) == 16 * one + 4 * two + three ==> c == [DictBases[one], DictBases[two], DictBases[three]]
  {
  }

  /**
   * `codon_dict(filler)`: three nested loops over 'AGCT' give every one of
   * the 64 codons the value `filler`.
   */
  method CodonDict(filler: int) returns (d: map<string, int>)
    ensures forall c :: c in d <==> IsCodon(c)
    ensures forall c | c in d :: d[c] == filler
    ensures |d| == 64
  {
    d := map[];
    for one := 0 to 4
      invariant forall c :: c in d <==> IsCodon(c) && CodonRank(c) < 16 * one
      invariant forall c | c in d :: d[c] == filler
      invariant |d| == 16 * one
    {
      for two := 0 to 4
        invariant forall c :: c in d <==> IsCodon(c) && CodonRank(c) < 16 * one + 4 * two
        invariant forall c | c in d :: d[c] == filler
        invariant |d| == 16 * one + 4 * two
      {
        for three := 0 to 4
          invariant forall c :: c in d <==> IsCodon(c) && CodonRank(c) < 16 * one + 4 * two + three
          invariant forall c | c in d :: d[c] == filler
          invariant |d| == 16 * one + 4 * two + three
        {
          var codon := [DictBases[one], DictBases[two], DictBases[three]];
          RankOfBuiltCodon(one, two, three, codon);
          forall c | IsCodon(c) && CodonRank(c) == 16 * one + 4 * two + three
            ensures c == codon
          {
            RankOfBuiltCodon(one, two, three, c);
          }
          d := d[codon := filler];
        }
      }
    }
  }

  /** `seq[i:i+3]` for `0 <= i <= len(seq)`: the three characters from `i`, fewer at the end. */
  function Window(s: string, i: nat): string
    requires i <= |s|
  {
    if i + 3 <= |s| then s[i..i + 3] else s[i..]
  }

  /** How many of the windows starting before `n` spell `codon`. */
  function WindowCount(s: string, codon: string, n: nat): nat
    requires n <= |s|
  {
    if n == 0 then 0 else WindowCount(s, codon, n - 1) + (if Window(s, n - 1) == codon then 1 else 0)
  }

  /**
   * `codon_frequencies(seq)`: starting from `codon_dict()`, count every
   * window `seq[i:i+3]` that is a key, then every such window of
   * `seq[::-1]`.
   */
  method CodonFrequencies(s: string) returns (table: map<string, int>)
    ensures forall c :: c in table <==> IsCodon(c)
    ensures |table| == 64
    ensures forall c | c in table :: table[c] == WindowCount(s, c, |s|) + WindowCount(Reverse(s), c, |s|)
  {
    table := CodonDict(0);
    table := CountWindows(table, s);
    table := CountWindows(table, Reverse(s));
  }

  /**
   * One loop of `codon_frequencies`: add one to the entry of every window
   * `s[i:i+3]` that is a key. A window that is short or not a codon raises
   * `KeyError`, which the bare `except` swallows.
   */
  method CountWindows(counts: map<string, int>, s: string) returns (table: map<string, int>)
    requires forall c :: c in counts <==> IsCodon(c)
    requires |counts| == 64
    ensures forall c :: c in table <==> IsCodon(c)
    ensures |table| == 64
    ensures forall c | c in table :: table[c] == counts[c] + WindowCount(s, c, |s|)
  {
    table := counts;
    for i := 0 to |s|
      invariant forall c :: c in table <==> IsCodon(c)
      invariant |table| == 64
      invariant forall c | c in table :: table[c] == counts[c] + WindowCount(s, c, i)
    {
      var window := Window(s, i);
      if window in table {
        table := table[window := table[window] + 1];
      }
    }
  }

  /** How many of the windows starting before `n` are codons. */
  function CodonWindows(s: string, n: nat): nat
    requires n <= |s|
  {
    if n == 0 then 0 else CodonWindows(s, n - 1) + (if IsCodon(Window(s, n - 1)) then 1 else 0)
  }

  /** The sum of the entries of `table` under `keys`. */
  function Total(table: map<string, int>, keys: seq<string>): int
    requires forall k | 0 <= k < |keys| :: keys[k] in table
  {
    if keys == [] then 0 else Total(table, keys[..|keys| - 1]) + table[keys[|keys| - 1]]
  }

  /** The window counts of `s`, summed over `keys`. */
  function CountSum(s: string, keys: seq<string>, n: nat): nat
    requires n <= |s|
  {
    if keys == [] then 0 else CountSum(s, keys[..|keys| - 1], n) + WindowCount(s, keys[|keys| - 1], n)
  }

  lemma {:induction false} CountSumNone(s: string, keys: seq<string>)
    ensures CountSum(s, keys, 0) == 0
  {
    if keys != [] {
      CountSumNone(s, keys[..|keys| - 1]);
    }
  }

  /** One more window adds, to the sum, the number of times that window is listed among the keys. */
  lemma {:induction false} CountSumStep(s: string, keys: seq<string>, n: nat)
    requires 0 < n <= |s|
    ensures CountSum(s, keys, n) == CountSum(s, keys, n - 1) + Occurrences(keys, Window(s, n - 1))
  {
    if keys != [] {
      CountSumStep(s, keys[..|keys| - 1], n);
    }
  }

  /** Summed over a list of all 64 codons, each once, the window counts count the windows that are codons. */
  lemma {:induction false} CountSumWindows(s: string, keys: seq<string>, n: nat)
    requires n <= |s| && Distinct(keys) && forall c :: c in keys <==> IsCodon(c)
    ensures CountSum(s, keys, n) == CodonWindows(s, n)
  {
    if n == 0 {
      CountSumNone(s, keys);
    } else {
      CountSumWindows(s, keys, n - 1);
      CountSumStep(s, keys, n);
      OccurrencesOfDistinct(keys, Window(s, n - 1));
    }
  }

  lemma {:induction false} TotalOfCounts(table: map<string, int>, keys: seq<string>, s: string, r: string)
    requires forall k | 0 <= k < |keys| ::
      keys[k] in table && table[keys[k]] == WindowCount(s, keys[k], |s|) + WindowCount(r, keys[k], |r|)
    ensures Total(table, keys) == CountSum(s, keys, |s|) + CountSum(r, keys, |r|)
  {
    if keys != [] {
      TotalOfCounts(table, keys[..|keys| - 1], s, r);
    }
  }

  /**
   * The counts `codon_frequencies(seq)` returns add up, over the 64 codons,
   * to the number of windows of `seq` that are codons plus the number of
   * windows of `seq[::-1]` that are.
   */
  lemma FrequenciesTotal(s: string, table: map<string, int>, keys: seq<string>)
    requires forall c :: c in table <==> IsCodon(c)
    requires forall c | c in table :: table[c] == WindowCount(s, c, |s|) + WindowCount(Reverse(s), c, |s|)
    requires Distinct(keys) && forall c :: c in keys <==> IsCodon(c)
    ensures Total(table, keys) == CodonWindows(s, |s|) + CodonWindows(Reverse(s), |s|)
  {
    TotalOfCounts(table, keys, s, Reverse(s));
    CountSumWindows(s, keys, |s|);
    CountSumWindows(Reverse(s), keys, |s|);
  }
}
