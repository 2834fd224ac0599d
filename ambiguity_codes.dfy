/**
 * The IUPAC part of parser/temp_backtranslate.py: the table
 * `ambiguous_bases` (set of bases -> ambiguity symbol), the ambiguous codon
 * table derived from `codon_table` by collapsing each column of an amino
 * acid's codons into one symbol and then overriding four entries by hand,
 * and `ambiguous_bases_reversed` (symbol -> the sorted bases it stands for).
 */
module AmbiguityCodes {
  import opened Common
  import opened CodonTables

  /** `ambiguous_bases`, with the entries the source writes (`{'U'}` also maps to 'T'). */
  const AmbiguousBases: map<set<char>, char> := map[
    {'A'} := 'A',
    {'C'} := 'C',
    {'G'} := 'G',
    {'T'} := 'T',
    {'U'} := 'T',
    {'A', 'G'} := 'R',
    {'C', 'T'} := 'Y',
    {'G', 'C'} := 'S',
    {'A', 'T'} := 'W',
    {'G', 'T'} := 'K',
    {'A', 'C'} := 'M',
    {'C', 'G', 'T'} := 'B',
    {'A', 'G', 'T'} := 'D',
    {'A', 'C', 'T'} := 'H',
    {'A', 'C', 'G'} := 'V',
    {'A', 'C', 'G', 'T'} := 'N'
  ]

  /** The set of DNA bases an IUPAC nucleotide symbol stands for (empty for any other character). */
  function IupacBases(symbol: char): set<char>
  {
    match symbol
    case 'A' => {'A'}
    case 'C' => {'C'}
    case 'G' => {'G'}
    case 'T' => {'T'}
    case 'R' => {'A', 'G'}
    case 'Y' => {'C', 'T'}
    case 'S' => {'C', 'G'}
    case 'W' => {'A', 'T'}
    case 'K' => {'G', 'T'}
    case 'M' => {'A', 'C'}
    case 'B' => {'C', 'G', 'T'}
    case 'D' => {'A', 'G', 'T'}
    case 'H' => {'A', 'C', 'T'}
    case 'V' => {'A', 'C', 'G'}
    case 'N' => {'A', 'C', 'G', 'T'}
    case _ => {}
  }

  /** The fifteen IUPAC nucleotide symbols. */
  const IupacSymbols: string := "ACGTRYSWKMBDHVN"

  /** A set of bases that one IUPAC symbol can stand for: non-empty, over A, C, G, T. */
  predicate IsBaseSet(bases: set<char>)
  {
    bases != {} && bases <= {'A', 'C', 'G', 'T'}
  }

  /** `symbol` stands for exactly the bases in `bases`. */
  predicate StandsFor(symbol: char, bases: set<char>)
  {
    forall b :: b in bases <==> b in IupacBases(symbol)
  }

  /** The IUPAC symbol for a set of DNA bases, chosen by which of A, C, G, T the set holds. */
  function IupacSymbol(bases: set<char>): (symbol: char)
    ensures IsBaseSet(bases) ==> StandsFor(symbol, bases)
  {
    var a, c, g, t := 'A' in bases, 'C' in bases, 'G' in bases, 'T' in bases;
    if a && c && g && t then 'N'
    else if a && c && g then 'V'
    else if a && c && t then 'H'
    else if a && g && t then 'D'
    else if c && g && t then 'B'
    else if a && c then 'M'
    else if a && g then 'R'
    else if a && t then 'W'
    else if c && g then 'S'
    else if c && t then 'Y'
    else if g && t then 'K'
    else if a then 'A'
    else if c then 'C'
    else if g then 'G'
    else 'T'
  }

  /**
   * Every non-empty set of DNA bases is a key of `ambiguous_bases`, and the
   * symbol it maps to is the IUPAC symbol for exactly that set.
   */
  lemma AmbiguousBasesCoverBaseSets(bases: set<char>)
    requires IsBaseSet(bases)
    ensures bases in AmbiguousBases
    ensures AmbiguousBases[bases] == IupacSymbol(bases)
  {
    var a, c, g, t := 'A' in bases, 'C' in bases, 'G' in bases, 'T' in bases;
    if (a && c && g) || (a && c && t) || (a && g && t) || (c && g && t) {
      CoverThreeOrFourBases(bases);
    } else if (a && c) || (a && g) || (a && t) || (c && g) || (c && t) || (g && t) {
      CoverTwoBases(bases);
    } else {
      CoverOneBase(bases);
    }
  }

  lemma CoverThreeOrFourBases(bases: set<char>)
    requires bases <= {'A', 'C', 'G', 'T'}
    requires var a, c, g, t := 'A' in bases, 'C' in bases, 'G' in bases, 'T' in bases;
      (a && c && g) || (a && c && t) || (a && g && t) || (c && g && t)
    ensures bases in AmbiguousBases
    ensures AmbiguousBases[bases] == IupacSymbol(bases)
  {
    var a, c, g, t := 'A' in bases, 'C' in bases, 'G' in bases, 'T' in bases;
    if a && c && g && t {
      assert bases == {'A', 'C', 'G', 'T'};
    } else if a && c && g {
      assert bases == {'A', 'C', 'G'};
    } else if a && c && t {
      assert bases == {'A', 'C', 'T'};
    } else if a && g && t {
      assert bases == {'A', 'G', 'T'};
    } else {
      assert bases == {'C', 'G', 'T'};
    }
  }

  lemma CoverTwoBases(bases: set<char>)
    requires bases <= {'A', 'C', 'G', 'T'}
    requires var a, c, g, t := 'A' in bases, 'C' in bases, 'G' in bases, 'T' in bases;
      !((a && c && g) || (a && c && t) || (a && g && t) || (c && g && t))
    requires var a, c, g, t := 'A' in bases, 'C' in bases, 'G' in bases, 'T' in bases;
      (a && c) || (a && g) || (a && t) || (c && g) || (c && t) || (g && t)
    ensures bases in AmbiguousBases
    ensures AmbiguousBases[bases] == IupacSymbol(bases)
  {
    var a, c, g, t := 'A' in bases, 'C' in bases, 'G' in bases, 'T' in bases;
    if a && c {
      assert bases == {'A', 'C'};
    } else if a && g {
      assert bases == {'A', 'G'};
    } else if a && t {
      assert bases == {'A', 'T'};
    } else if c && g {
      assert bases == {'G', 'C'};
    } else if c && t {
      assert bases == {'C', 'T'};
    } else {
      assert bases == {'G', 'T'};
    }
  }

  lemma CoverOneBase(bases: set<char>)
    requires IsBaseSet(bases)
    requires var a, c, g, t := 'A' in bases, 'C' in bases, 'G' in bases, 'T' in bases;
      !((a && c) || (a && g) || (a && t) || (c && g) || (c && t) || (g && t))
    ensures bases in AmbiguousBases
    ensures AmbiguousBases[bases] == IupacSymbol(bases)
  {
    var a, c, g, t := 'A' in bases, 'C' in bases, 'G' in bases, 'T' in bases;
    if a {
      assert bases == {'A'};
    } else if c {
      assert bases == {'C'};
    } else if g {
      assert bases == {'G'};
    } else {
      assert bases == {'T'};
    }
  }

  /**
   * `ambiguous_bases` is the IUPAC code plus one extra entry: every key other
   * than `{'U'}` is a set of DNA bases mapped to its own IUPAC symbol, and
   * `{'U'}` (RNA uracil) maps to 'T'.
   */
  lemma AmbiguousBasesAreIupac()
    ensures forall bases | bases in AmbiguousBases && bases != {'U'} ::
      IsBaseSet(bases) && StandsFor(AmbiguousBases[bases], bases)
    ensures {'U'} in AmbiguousBases && AmbiguousBases[{'U'}] == 'T'
  {
    forall bases | bases in AmbiguousBases && bases != {'U'}
      ensures IsBaseSet(bases) && StandsFor(AmbiguousBases[bases], bases)
    {
      KeyIsBaseSet(bases);
      AmbiguousBasesCoverBaseSets(bases);
    }
  }

  /** Each of the fifteen symbols is the IUPAC symbol of the bases it stands for. */
  lemma IupacSymbolOfMeaning(symbol: char)
    requires symbol in IupacSymbols
    ensures IsBaseSet(IupacBases(symbol)) && IupacSymbol(IupacBases(symbol)) == symbol
  {
  }

  /** Each of the fifteen symbols is the value of the entry for the bases it stands for. */
  lemma SymbolHasEntry(symbol: char)
    requires symbol in IupacSymbols
    ensures IupacBases(symbol) in AmbiguousBases && AmbiguousBases[IupacBases(symbol)] == symbol
  {
    IupacSymbolOfMeaning(symbol);
    AmbiguousBasesCoverBaseSets(IupacBases(symbol));
  }

  /** The symbol of a set of bases is one of the fifteen. */
  lemma IupacSymbolIsListed(bases: set<char>)
    ensures IupacSymbol(bases) in IupacSymbols
  {
  }

  /** A symbol stands for one set of bases only. */
  lemma StandsForDetermines(symbol: char, bases: set<char>)
    requires StandsFor(symbol, bases)
    ensures bases == IupacBases(symbol)
  {
  }

  /**
   * Reading `ambiguous_bases` backwards: a symbol it maps to is one of the
   * fifteen, and the key it comes from is the set of bases the symbol
   * stands for, or `{'U'}` for 'T'.
   */
  lemma AmbiguousBasesInverse(bases: set<char>, symbol: char)
    requires bases in AmbiguousBases && AmbiguousBases[bases] == symbol
    ensures symbol in IupacSymbols
    ensures bases == IupacBases(symbol) || (bases == {'U'} && symbol == 'T')
  {
    if bases != {'U'} {
      KeyIsBaseSet(bases);
      AmbiguousBasesCoverBaseSets(bases);
      IupacSymbolIsListed(bases);
      StandsForDetermines(symbol, bases);
    }
  }

  lemma KeyIsBaseSet(bases: set<char>)
    requires bases in AmbiguousBases && bases != {'U'}
    ensures IsBaseSet(bases)
  {
  }

  /** `frozenset([codon[i] for codon in codons])`: the bases found at position `i`. */
  function ColumnBases(codons: seq<string>, i: nat): set<char>
    requires forall k | 0 <= k < |codons| :: i < |codons[k]|
  {
    set k | 0 <= k < |codons| :: codons[k][i]
  }

  /** A list of codons one ambiguous codon can be derived from: non-empty, all codons. */
  predicate IsCodonList(codons: seq<string>)
  {
    |codons| > 0 && forall k | 0 <= k < |codons| :: IsCodon(codons[k])
  }

  lemma ColumnIsBaseSet(codons: seq<string>, i: nat)
    requires IsCodonList(codons) && i < 3
    ensures IsBaseSet(ColumnBases(codons, i))
  {
    assert codons[0][i] in ColumnBases(codons, i);
  }

  /** `codon` is one of the codons that the ambiguous codon `pattern` stands for. */
  predicate Matches(codon: string, pattern: string)
  {
    |codon| == |pattern| && forall i | 0 <= i < |codon| :: codon[i] in IupacBases(pattern[i])
  }

  /** `codon` matches one of `patterns`. */
  predicate MatchesSome(codon: string, patterns: seq<string>)
  {
    exists k :: 0 <= k < |patterns| && Matches(codon, patterns[k])
  }

  /**
   * The first `n` symbols of the ambiguous codon the naive derivation
   * computes for `codons`: the IUPAC symbol of each column in turn.
   */
  function PatternPrefix(codons: seq<string>, n: nat): (prefix: string)
    requires IsCodonList(codons) && n <= 3
    ensures |prefix| == n
  {
    if n == 0 then "" else PatternPrefix(codons, n - 1) + [IupacSymbol(ColumnBases(codons, n - 1))]
  }

  /** The ambiguous codon the naive derivation computes for `codons`. */
  function NaivePattern(codons: seq<string>): (pattern: string)
    requires IsCodonList(codons)
    ensures |pattern| == 3
  {
    PatternPrefix(codons, 3)
  }

  lemma {:induction false} PatternPrefixAt(codons: seq<string>, n: nat, i: nat)
    requires IsCodonList(codons) && i < n <= 3
    ensures PatternPrefix(codons, n)[i] == IupacSymbol(ColumnBases(codons, i))
  {
    if i < n - 1 {
      PatternPrefixAt(codons, n - 1, i);
    }
  }

  /** Each symbol of the naive pattern stands for exactly the bases of its column, so no tighter single pattern exists. */
  lemma NaivePatternColumns(codons: seq<string>)
    requires IsCodonList(codons)
    ensures forall i | 0 <= i < 3 :: StandsFor(NaivePattern(codons)[i], ColumnBases(codons, i))
  {
    forall i | 0 <= i < 3
      ensures StandsFor(NaivePattern(codons)[i], ColumnBases(codons, i))
    {
      PatternPrefixAt(codons, 3, i);
      ColumnIsBaseSet(codons, i);
    }
  }

  /** Every codon the naive pattern was derived from matches it. */
  lemma NaivePatternMatchesItsCodons(codons: seq<string>)
    requires IsCodonList(codons)
    ensures forall k | 0 <= k < |codons| :: Matches(codons[k], NaivePattern(codons))
  {
    var pattern := NaivePattern(codons);
    NaivePatternColumns(codons);
    forall k | 0 <= k < |codons| ensures Matches(codons[k], pattern) {
      forall i | 0 <= i < 3 ensures codons[k][i] in IupacBases(pattern[i]) {
        assert codons[k][i] in ColumnBases(codons, i);
      }
    }
  }

  /** Every entry of `table` is a list one ambiguous codon can be derived from. */
  predicate IsCodonTable(table: map<char, seq<string>>)
  {
    forall aa | aa in table :: IsCodonList(table[aa])
  }

  /**
   * The patterns step 4 leaves for `aa`: the hand-written pair for leucine,
   * arginine, serine and stop, the naive pattern for any other amino acid.
   */
  function FinalPatterns(table: map<char, seq<string>>, aa: char): seq<string>
    requires IsCodonTable(table) && aa in table
  {
    if aa == 'L' then ["TTR", "CTN"]
    else if aa == 'R' then ["CGN", "AGR"]
    else if aa == 'S' then ["TCN", "AGY"]
    else if aa == '*' then ["TAR", "TGA"]
    else [NaivePattern(table[aa])]
  }

  lemma CodonTableIsCodonTable()
    ensures IsCodonTable(CodonTable)
  {
    CodonTableTuplesAreDistinctCodons();
  }

  /** `table` is `ambiguous_codon_table` as the module-level code leaves it. */
  predicate IsAmbiguousCodonTable(table: map<char, seq<string>>)
  {
    && IsCodonTable(CodonTable)
    && table.Keys == CodonTable.Keys
    && forall aa | aa in table :: table[aa] == FinalPatterns(CodonTable, aa)
  }

  /** The inner loop of step 3: one symbol per codon position, appended in turn. */
  method CollapseCodons(codons: seq<string>) returns (ambiguousCodon: string)
    requires IsCodonList(codons)
    ensures ambiguousCodon == NaivePattern(codons)
  {
    ambiguousCodon := "";
    for i := 0 to 3
      invariant ambiguousCodon == PatternPrefix(codons, i)
    {
      var bases := ColumnBases(codons, i);
      ColumnIsBaseSet(codons, i);
      AmbiguousBasesCoverBaseSets(bases);
      ambiguousCodon := ambiguousCodon + [AmbiguousBases[bases]];
    }
  }

  /**
   * Step 3 of the derivation: for each amino acid, in whatever order the
   * dictionary yields them, append to an empty string the symbol of each
   * codon position in turn and store the one-pattern tuple.
   */
  method CollapseColumns(table: map<char, seq<string>>) returns (naive: map<char, seq<string>>)
    requires IsCodonTable(table)
    ensures naive.Keys == table.Keys
    ensures forall aa | aa in naive :: naive[aa] == [NaivePattern(table[aa])]
  {
    naive := map[];
    var todo := table.Keys;
    while todo != {}
      invariant todo <= table.Keys
      invariant naive.Keys == table.Keys - todo
      invariant forall aa | aa in naive :: naive[aa] == [NaivePattern(table[aa])]
      decreases todo
    {
      var aa :| aa in todo;
      var ambiguousCodon := CollapseCodons(table[aa]);
      naive := naive[aa := [ambiguousCodon]];
      todo := todo - {aa};
    }
  }

  /**
   * The module-level code that fills `ambiguous_codon_table`: the naive
   * collapse of `codon_table`, then four entries replaced by hand.
   */
  method BuildAmbiguousCodonTable() returns (table: map<char, seq<string>>)
    ensures IsAmbiguousCodonTable(table)
  {
    CodonTableIsCodonTable();
    CodonTableHasOverriddenKeys();
    table := CollapseColumns(CodonTable);
    ghost var naive := table;
    table := table['L' := ["TTR", "CTN"]];
    table := table['R' := ["CGN", "AGR"]];
    table := table['S' := ["TCN", "AGY"]];
    table := table['*' := ["TAR", "TGA"]];
    OverridesInOrder(CodonTable, naive);
  }

  /** Replacing the four entries of the naive table one after another leaves `FinalPatterns` everywhere. */
  lemma OverridesInOrder(source: map<char, seq<string>>, naive: map<char, seq<string>>)
    requires IsCodonTable(source)
    requires 'L' in source && 'R' in source && 'S' in source && '*' in source
    requires naive.Keys == source.Keys
    requires forall aa | aa in naive :: naive[aa] == [NaivePattern(source[aa])]
    ensures var updated := naive['L' := ["TTR", "CTN"]]['R' := ["CGN", "AGR"]]['S' := ["TCN", "AGY"]]['*' := ["TAR", "TGA"]];
      && updated.Keys == source.Keys
      && forall aa | aa in updated :: updated[aa] == FinalPatterns(source, aa)
  {
    OverridesKeepOtherEntries(naive);
    var updated := naive['L' := ["TTR", "CTN"]]['R' := ["CGN", "AGR"]]['S' := ["TCN", "AGY"]]['*' := ["TAR", "TGA"]];
    forall aa | aa in updated
      ensures updated[aa] == FinalPatterns(source, aa)
    {
      if !IsOverridden(aa) {
        assert updated[aa] == naive[aa];
      }
    }
  }

  lemma OverridesKeepOtherEntries(naive: map<char, seq<string>>)
    ensures var updated := naive['L' := ["TTR", "CTN"]]['R' := ["CGN", "AGR"]]['S' := ["TCN", "AGY"]]['*' := ["TAR", "TGA"]];
      && updated.Keys == naive.Keys + {'L', 'R', 'S', '*'}
      && (forall aa | aa in naive && !IsOverridden(aa) :: updated[aa] == naive[aa])
      && updated['L'] == ["TTR", "CTN"] && updated['R'] == ["CGN", "AGR"]
      && updated['S'] == ["TCN", "AGY"] && updated['*'] == ["TAR", "TGA"]
  {
  }

  lemma CodonTableHasOverriddenKeys()
    ensures 'L' in CodonTable && 'R' in CodonTable && 'S' in CodonTable && '*' in CodonTable
  {
  }

  /** A codon matches the naive pattern of `codons` exactly when each of its bases occurs in that column of `codons`. */
  lemma MatchesNaivePattern(codon: string, codons: seq<string>)
    requires IsCodonList(codons)
    ensures Matches(codon, NaivePattern(codons)) <==>
      |codon| == 3 && codon[0] in ColumnBases(codons, 0) && codon[1] in ColumnBases(codons, 1) && codon[2] in ColumnBases(codons, 2)
  {
    var pattern := NaivePattern(codons);
    NaivePatternColumns(codons);
    if |codon| == 3 && codon[0] in ColumnBases(codons, 0) && codon[1] in ColumnBases(codons, 1) && codon[2] in ColumnBases(codons, 2) {
      assert forall i | 0 <= i < 3 :: codon[i] in IupacBases(pattern[i]);
    }
  }

  /**
   * The naive pattern is too wide for exactly the four amino acids the source
   * overrides: each one matches a codon of another amino acid.
   */
  lemma NaivePatternsTooWide()
    ensures IsCodonTable(CodonTable)
    ensures Matches("TTT", NaivePattern(CodonTable['L'])) && "TTT" in CodonTable['F']
    ensures Matches("AGT", NaivePattern(CodonTable['R'])) && "AGT" in CodonTable['S']
    ensures Matches("TGT", NaivePattern(CodonTable['S'])) && "TGT" in CodonTable['C']
    ensures Matches("TGG", NaivePattern(CodonTable['*'])) && "TGG" in CodonTable['W']
  {
    CodonTableIsCodonTable();
    NaiveLeucineTooWide();
    NaiveArginineTooWide();
    NaiveSerineTooWide();
    NaiveStopTooWide();
  }

  /** A codon assembled column by column from codons of the list matches the naive pattern of the list. */
  lemma MixedColumnsMatch(codons: seq<string>, codon: string, i0: nat, i1: nat, i2: nat)
    requires IsCodonList(codons) && i0 < |codons| && i1 < |codons| && i2 < |codons|
    requires codon == [codons[i0][0], codons[i1][1], codons[i2][2]]
    ensures Matches(codon, NaivePattern(codons))
  {
    assert codons[i0][0] in ColumnBases(codons, 0);
    assert codons[i1][1] in ColumnBases(codons, 1);
    assert codons[i2][2] in ColumnBases(codons, 2);
    MatchesNaivePattern(codon, codons);
  }

  lemma NaiveLeucineTooWide()
    requires IsCodonTable(CodonTable)
    ensures Matches("TTT", NaivePattern(CodonTable['L'])) && "TTT" in CodonTable['F']
  {
    var codons := CodonTable['L'];
    assert codons == ["TTA", "TTG", "CTT", "CTC", "CTA", "CTG"];
    MixedColumnsMatch(codons, "TTT", 0, 0, 2);
  }

  lemma NaiveArginineTooWide()
    requires IsCodonTable(CodonTable)
    ensures Matches("AGT", NaivePattern(CodonTable['R'])) && "AGT" in CodonTable['S']
  {
    var codons := CodonTable['R'];
    assert codons == ["CGT", "CGC", "CGA", "CGG", "AGA", "AGG"];
    MixedColumnsMatch(codons, "AGT", 4, 4, 0);
  }

  lemma NaiveSerineTooWide()
    requires IsCodonTable(CodonTable)
    ensures Matches("TGT", NaivePattern(CodonTable['S'])) && "TGT" in CodonTable['C']
  {
    var codons := CodonTable['S'];
    assert codons == ["TCT", "TCC", "TCA", "TCG", "AGT", "AGC"];
    MixedColumnsMatch(codons, "TGT", 0, 4, 0);
  }

  lemma NaiveStopTooWide()
    requires IsCodonTable(CodonTable)
    ensures Matches("TGG", NaivePattern(CodonTable['*'])) && "TGG" in CodonTable['W']
  {
    var codons := CodonTable['*'];
    assert codons == ["TAA", "TAG", "TGA"];
    MixedColumnsMatch(codons, "TGG", 0, 2, 1);
  }

  /** A string of length three is the sequence of its three characters. */
  lemma Characters(codon: string)
    requires |codon| == 3
    ensures codon == [codon[0], codon[1], codon[2]]
  {
  }

  /** The leucine override `('TTR', 'CTN')` stands for exactly the leucine codons. */
  lemma LeucineOverrideIsExact(codon: string)
    requires IsCodon(codon)
    ensures MatchesSome(codon, ["TTR", "CTN"]) <==> codon in CodonTable['L']
  {
    assert CodonTable['L'] == ["TTA", "TTG", "CTT", "CTC", "CTA", "CTG"];
    if MatchesSome(codon, ["TTR", "CTN"]) {
      LeucinePatternsExpand(codon);
    } else if codon in CodonTable['L'] {
      LeucineCodonsMatch(codon);
    }
  }

  lemma LeucinePatternsExpand(codon: string)
    requires MatchesSome(codon, ["TTR", "CTN"])
    ensures codon in ["TTA", "TTG", "CTT", "CTC", "CTA", "CTG"]
  {
    Characters(codon);
  }

  lemma LeucineCodonsMatch(codon: string)
    requires codon in ["TTA", "TTG", "CTT", "CTC", "CTA", "CTG"]
    ensures MatchesSome(codon, ["TTR", "CTN"])
  {
    var patterns := ["TTR", "CTN"];
    if codon == "TTA" {
      assert Matches(codon, patterns[0]);
    } else if codon == "TTG" {
      assert Matches(codon, patterns[0]);
    } else if codon == "CTT" {
      assert Matches(codon, patterns[1]);
    } else if codon == "CTC" {
      assert Matches(codon, patterns[1]);
    } else if codon == "CTA" {
      assert Matches(codon, patterns[1]);
    } else if codon == "CTG" {
      assert Matches(codon, patterns[1]);
    }
  }

  /** The arginine override `('CGN', 'AGR')` stands for exactly the arginine codons. */
  lemma ArginineOverrideIsExact(codon: string)
    requires IsCodon(codon)
    ensures MatchesSome(codon, ["CGN", "AGR"]) <==> codon in CodonTable['R']
  {
    assert CodonTable['R'] == ["CGT", "CGC", "CGA", "CGG", "AGA", "AGG"];
    if MatchesSome(codon, ["CGN", "AGR"]) {
      ArgininePatternsExpand(codon);
    } else if codon in CodonTable['R'] {
      ArginineCodonsMatch(codon);
    }
  }

  lemma ArgininePatternsExpand(codon: string)
    requires MatchesSome(codon, ["CGN", "AGR"])
    ensures codon in ["CGT", "CGC", "CGA", "CGG", "AGA", "AGG"]
  {
    Characters(codon);
  }

  lemma ArginineCodonsMatch(codon: string)
    requires codon in ["CGT", "CGC", "CGA", "CGG", "AGA", "AGG"]
    ensures MatchesSome(codon, ["CGN", "AGR"])
  {
    var patterns := ["CGN", "AGR"];
    if codon == "CGT" {
      assert Matches(codon, patterns[0]);
    } else if codon == "CGC" {
      assert Matches(codon, patterns[0]);
    } else if codon == "CGA" {
      assert Matches(codon, patterns[0]);
    } else if codon == "CGG" {
      assert Matches(codon, patterns[0]);
    } else if codon == "AGA" {
      assert Matches(codon, patterns[1]);
    } else if codon == "AGG" {
      assert Matches(codon, patterns[1]);
    }
  }

  /** The serine override `('TCN', 'AGY')` stands for exactly the serine codons. */
  lemma SerineOverrideIsExact(codon: string)
    requires IsCodon(codon)
    ensures MatchesSome(codon, ["TCN", "AGY"]) <==> codon in CodonTable['S']
  {
    assert CodonTable['S'] == ["TCT", "TCC", "TCA", "TCG", "AGT", "AGC"];
    if MatchesSome(codon, ["TCN", "AGY"]) {
      SerinePatternsExpand(codon);
    } else if codon in CodonTable['S'] {
      SerineCodonsMatch(codon);
    }
  }

  lemma SerinePatternsExpand(codon: string)
    requires MatchesSome(codon, ["TCN", "AGY"])
    ensures codon in ["TCT", "TCC", "TCA", "TCG", "AGT", "AGC"]
  {
    Characters(codon);
  }

  lemma SerineCodonsMatch(codon: string)
    requires codon in ["TCT", "TCC", "TCA", "TCG", "AGT", "AGC"]
    ensures MatchesSome(codon, ["TCN", "AGY"])
  {
    var patterns := ["TCN", "AGY"];
    if codon == "TCT" {
      assert Matches(codon, patterns[0]);
    } else if codon == "TCC" {
      assert Matches(codon, patterns[0]);
    } else if codon == "TCA" {
      assert Matches(codon, patterns[0]);
    } else if codon == "TCG" {
      assert Matches(codon, patterns[0]);
    } else if codon == "AGT" {
      assert Matches(codon, patterns[1]);
    } else if codon == "AGC" {
      assert Matches(codon, patterns[1]);
    }
  }

  /** The stop override `('TAR', 'TGA')` stands for exactly the stop codons. */
  lemma StopOverrideIsExact(codon: string)
    requires IsCodon(codon)
    ensures MatchesSome(codon, ["TAR", "TGA"]) <==> codon in CodonTable['*']
  {
    assert CodonTable['*'] == ["TAA", "TAG", "TGA"];
    if MatchesSome(codon, ["TAR", "TGA"]) {
      StopPatternsExpand(codon);
    } else if codon in CodonTable['*'] {
      StopCodonsMatch(codon);
    }
  }

  lemma StopPatternsExpand(codon: string)
    requires MatchesSome(codon, ["TAR", "TGA"])
    ensures codon in ["TAA", "TAG", "TGA"]
  {
    Characters(codon);
  }

  lemma StopCodonsMatch(codon: string)
    requires codon in ["TAA", "TAG", "TGA"]
    ensures MatchesSome(codon, ["TAR", "TGA"])
  {
    var patterns := ["TAR", "TGA"];
    if codon == "TAA" {
      assert Matches(codon, patterns[0]);
    } else if codon == "TAG" {
      assert Matches(codon, patterns[0]);
    } else if codon == "TGA" {
      assert Matches(codon, patterns[1]);
    }
  }

  /** The four amino acids whose naive pattern step 4 replaces. */
  predicate IsOverridden(aa: char)
  {
    aa == 'L' || aa == 'R' || aa == 'S' || aa == '*'
  }

  /**
   * After the overrides, leucine, arginine, serine and stop have two
   * patterns and every other amino acid one, and every pattern is three
   * symbols long.
   */
  lemma AmbiguousCodonTableShape(table: map<char, seq<string>>)
    requires IsAmbiguousCodonTable(table)
    ensures forall aa :: aa in table <==> aa in CodonTable
    ensures forall aa | aa in table :: |table[aa]| == (if IsOverridden(aa) then 2 else 1)
    ensures forall aa, k | aa in table && 0 <= k < |table[aa]| :: |table[aa][k]| == 3
  {
  }

  /**
   * Every codon of `codon_table` matches one of the patterns listed for its
   * amino acid in the final `ambiguous_codon_table`, and for the four
   * overridden amino acids the patterns match nothing else.
   */
  lemma AmbiguousCodonTableIsSound(table: map<char, seq<string>>)
    requires IsAmbiguousCodonTable(table)
    ensures forall aa, c | aa in CodonTable && c in CodonTable[aa] :: MatchesSome(c, table[aa])
    ensures forall aa, c | aa in CodonTable && IsOverridden(aa) && IsCodon(c) ::
      MatchesSome(c, table[aa]) <==> c in CodonTable[aa]
  {
    forall aa, c | aa in CodonTable && IsOverridden(aa) && IsCodon(c)
      ensures MatchesSome(c, table[aa]) <==> c in CodonTable[aa]
    {
      OverrideIsExact(aa, c);
    }
    forall aa, c | aa in CodonTable && c in CodonTable[aa]
      ensures MatchesSome(c, table[aa])
    {
      TabulatedCodonMatches(table, aa, c);
    }
  }

  lemma TabulatedCodonMatches(table: map<char, seq<string>>, aa: char, c: string)
    requires IsAmbiguousCodonTable(table)
    requires aa in CodonTable && c in CodonTable[aa]
    ensures aa in table && MatchesSome(c, table[aa])
  {
    CodonTableIsCodonTable();
    assert IsCodon(c);
    if IsOverridden(aa) {
      OverrideIsExact(aa, c);
    } else {
      var codons := CodonTable[aa];
      NaivePatternMatchesItsCodons(codons);
      var k :| 0 <= k < |codons| && codons[k] == c;
      assert Matches(c, table[aa][0]);
    }
  }

  lemma OverrideIsExact(aa: char, codon: string)
    requires IsOverridden(aa) && IsCodon(codon)
    ensures aa in CodonTable && IsCodonTable(CodonTable)
    ensures MatchesSome(codon, FinalPatterns(CodonTable, aa)) <==> codon in CodonTable[aa]
  {
    CodonTableIsCodonTable();
    CodonTableHasOverriddenKeys();
    if aa == 'L' {
      LeucineOverrideIsExact(codon);
    } else if aa == 'R' {
      ArginineOverrideIsExact(codon);
    } else if aa == 'S' {
      SerineOverrideIsExact(codon);
    } else {
      StopOverrideIsExact(codon);
    }
  }
}
