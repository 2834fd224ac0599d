/**
 * The counts the doctests of parser/temp_backtranslate.py pin down:
 * 1019215872 back-translations of the twenty amino acids and stop with
 * the standard table, 16 with the ambiguous codon table, and 16 for 'FVC'.
 */
module BacktranslationCounts {
  import opened CodonTables
  import opened AmbiguityCodes
  import opened Backtranslation

  /** The protein of the `backtranslate_permutations` doctest. */
  const DoctestProtein: string := "ACDEFGHIKLMNPQRSTVWY*"

  /** The first 3 residues of the doctest protein have 16 back-translations. */
  lemma DoctestPrefix3()
    ensures AllListed(DoctestProtein[..3], CodonTable)
    ensures Permutations(CodonTable, DoctestProtein[..3]) == 16
  {
    assert DoctestProtein[0] == 'A';
    assert |CodonTable[DoctestProtein[0]]| == 4;
    PermutationsStep(CodonTable, DoctestProtein, 0);
    assert DoctestProtein[1] == 'C';
    assert |CodonTable[DoctestProtein[1]]| == 2;
    PermutationsStep(CodonTable, DoctestProtein, 1);
    assert DoctestProtein[2] == 'D';
    assert |CodonTable[DoctestProtein[2]]| == 2;
    PermutationsStep(CodonTable, DoctestProtein, 2);
  }

  /** The first 6 residues of the doctest protein have 256 back-translations. */
  lemma DoctestPrefix6()
    ensures AllListed(DoctestProtein[..6], CodonTable)
    ensures Permutations(CodonTable, DoctestProtein[..6]) == 256
  {
    DoctestPrefix3();
    assert DoctestProtein[3] == 'E';
    assert |CodonTable[DoctestProtein[3]]| == 2;
    PermutationsStep(CodonTable, DoctestProtein, 3);
    assert DoctestProtein[4] == 'F';
    assert |CodonTable[DoctestProtein[4]]| == 2;
    PermutationsStep(CodonTable, DoctestProtein, 4);
    assert DoctestProtein[5] == 'G';
    assert |CodonTable[DoctestProtein[5]]| == 4;
    PermutationsStep(CodonTable, DoctestProtein, 5);
  }

  /** The first 9 residues of the doctest protein have 3072 back-translations. */
  lemma DoctestPrefix9()
    ensures AllListed(DoctestProtein[..9], CodonTable)
    ensures Permutations(CodonTable, DoctestProtein[..9]) == 3072
  {
    DoctestPrefix6();
    assert DoctestProtein[6] == 'H';
    assert |CodonTable[DoctestProtein[6]]| == 2;
    PermutationsStep(CodonTable, DoctestProtein, 6);
    assert DoctestProtein[7] == 'I';
    assert |CodonTable[DoctestProtein[7]]| == 3;
    PermutationsStep(CodonTable, DoctestProtein, 7);
    assert DoctestProtein[8] == 'K';
    assert |CodonTable[DoctestProtein[8]]| == 2;
    PermutationsStep(CodonTable, DoctestProtein, 8);
  }

  /** The first 12 residues of the doctest protein have 36864 back-translations. */
  lemma DoctestPrefix12()
    ensures AllListed(DoctestProtein[..12], CodonTable)
    ensures Permutations(CodonTable, DoctestProtein[..12]) == 36864
  {
    DoctestPrefix9();
    assert DoctestProtein[9] == 'L';
    assert |CodonTable[DoctestProtein[9]]| == 6;
    PermutationsStep(CodonTable, DoctestProtein, 9);
    assert DoctestProtein[10] == 'M';
    assert |CodonTable[DoctestProtein[10]]| == 1;
    PermutationsStep(CodonTable, DoctestProtein, 10);
    assert DoctestProtein[11] == 'N';
    assert |CodonTable[DoctestProtein[11]]| == 2;
    PermutationsStep(CodonTable, DoctestProtein, 11);
  }

  /** The first 15 residues of the doctest protein have 1769472 back-translations. */
  lemma DoctestPrefix15()
    ensures AllListed(DoctestProtein[..15], CodonTable)
    ensures Permutations(CodonTable, DoctestProtein[..15]) == 1769472
  {
    DoctestPrefix12();
    assert DoctestProtein[12] == 'P';
    assert |CodonTable[DoctestProtein[12]]| == 4;
    PermutationsStep(CodonTable, DoctestProtein, 12);
    assert DoctestProtein[13] == 'Q';
    assert |CodonTable[DoctestProtein[13]]| == 2;
    PermutationsStep(CodonTable, DoctestProtein, 13);
    assert DoctestProtein[14] == 'R';
    assert |CodonTable[DoctestProtein[14]]| == 6;
    PermutationsStep(CodonTable, DoctestProtein, 14);
  }

  /** The first 18 residues of the doctest protein have 169869312 back-translations. */
  lemma DoctestPrefix18()
    ensures AllListed(DoctestProtein[..18], CodonTable)
    ensures Permutations(CodonTable, DoctestProtein[..18]) == 169869312
  {
    DoctestPrefix15();
    assert DoctestProtein[15] == 'S';
    assert |CodonTable[DoctestProtein[15]]| == 6;
    PermutationsStep(CodonTable, DoctestProtein, 15);
    assert DoctestProtein[16] == 'T';
    assert |CodonTable[DoctestProtein[16]]| == 4;
    PermutationsStep(CodonTable, DoctestProtein, 16);
    assert DoctestProtein[17] == 'V';
    assert |CodonTable[DoctestProtein[17]]| == 4;
    PermutationsStep(CodonTable, DoctestProtein, 17);
  }

  /** The first 21 residues of the doctest protein have 1019215872 back-translations. */
  lemma DoctestPrefix21()
    ensures AllListed(DoctestProtein[..21], CodonTable)
    ensures Permutations(CodonTable, DoctestProtein[..21]) == 1019215872
  {
    DoctestPrefix18();
    assert DoctestProtein[18] == 'W';
    assert |CodonTable[DoctestProtein[18]]| == 1;
    PermutationsStep(CodonTable, DoctestProtein, 18);
    assert DoctestProtein[19] == 'Y';
    assert |CodonTable[DoctestProtein[19]]| == 2;
    PermutationsStep(CodonTable, DoctestProtein, 19);
    assert DoctestProtein[20] == '*';
    assert |CodonTable[DoctestProtein[20]]| == 3;
    PermutationsStep(CodonTable, DoctestProtein, 20);
  }

  /** `backtranslate_permutations('ACDEFGHIKLMNPQRSTVWY*')` is 1019215872, and so many sequences `backtranslate` lists. */
  lemma DoctestPermutations()
    ensures AllListed(DoctestProtein, CodonTable)
    ensures Permutations(CodonTable, DoctestProtein) == 1019215872
    ensures |Expansions(CodonTable, DoctestProtein)| == 1019215872
  {
    DoctestPrefix21();
    assert DoctestProtein[..21] == DoctestProtein;
    ExpansionsCount(CodonTable, DoctestProtein);
  }

  /** Each residue of the doctest protein has two patterns in `table` if it is overridden, one otherwise. */
  predicate PatternCounts(table: map<char, seq<string>>)
  {
    forall i | 0 <= i < |DoctestProtein| ::
      DoctestProtein[i] in table && |table[DoctestProtein[i]]| == (if IsOverridden(DoctestProtein[i]) then 2 else 1)
  }

  lemma AmbiguousPatternCounts(table: map<char, seq<string>>)
    requires IsAmbiguousCodonTable(table)
    ensures PatternCounts(table)
  {
    AmbiguousCodonTableShape(table);
    DoctestPermutations();
  }

  lemma AmbiguousPrefix3(table: map<char, seq<string>>)
    requires PatternCounts(table)
    ensures AllListed(DoctestProtein[..3], table)
    ensures Permutations(table, DoctestProtein[..3]) == 1
  {
    assert |table[DoctestProtein[0]]| == 1;
    PermutationsStep(table, DoctestProtein, 0);
    assert |table[DoctestProtein[1]]| == 1;
    PermutationsStep(table, DoctestProtein, 1);
    assert |table[DoctestProtein[2]]| == 1;
    PermutationsStep(table, DoctestProtein, 2);
  }

  lemma AmbiguousPrefix6(table: map<char, seq<string>>)
    requires PatternCounts(table)
    ensures AllListed(DoctestProtein[..6], table)
    ensures Permutations(table, DoctestProtein[..6]) == 1
  {
    AmbiguousPrefix3(table);
    assert |table[DoctestProtein[3]]| == 1;
    PermutationsStep(table, DoctestProtein, 3);
    assert |table[DoctestProtein[4]]| == 1;
    PermutationsStep(table, DoctestProtein, 4);
    assert |table[DoctestProtein[5]]| == 1;
    PermutationsStep(table, DoctestProtein, 5);
  }

  lemma AmbiguousPrefix9(table: map<char, seq<string>>)
    requires PatternCounts(table)
    ensures AllListed(DoctestProtein[..9], table)
    ensures Permutations(table, DoctestProtein[..9]) == 1
  {
    AmbiguousPrefix6(table);
    assert |table[DoctestProtein[6]]| == 1;
    PermutationsStep(table, DoctestProtein, 6);
    assert |table[DoctestProtein[7]]| == 1;
    PermutationsStep(table, DoctestProtein, 7);
    assert |table[DoctestProtein[8]]| == 1;
    PermutationsStep(table, DoctestProtein, 8);
  }

  lemma AmbiguousPrefix12(table: map<char, seq<string>>)
    requires PatternCounts(table)
    ensures AllListed(DoctestProtein[..12], table)
    ensures Permutations(table, DoctestProtein[..12]) == 2
  {
    AmbiguousPrefix9(table);
    assert |table[DoctestProtein[9]]| == 2;
    PermutationsStep(table, DoctestProtein, 9);
    assert |table[DoctestProtein[10]]| == 1;
    PermutationsStep(table, DoctestProtein, 10);
    assert |table[DoctestProtein[11]]| == 1;
    PermutationsStep(table, DoctestProtein, 11);
  }

  lemma AmbiguousPrefix15(table: map<char, seq<string>>)
    requires PatternCounts(table)
    ensures AllListed(DoctestProtein[..15], table)
    ensures Permutations(table, DoctestProtein[..15]) == 4
  {
    AmbiguousPrefix12(table);
    assert |table[DoctestProtein[12]]| == 1;
    PermutationsStep(table, DoctestProtein, 12);
    assert |table[DoctestProtein[13]]| == 1;
    PermutationsStep(table, DoctestProtein, 13);
    assert |table[DoctestProtein[14]]| == 2;
    PermutationsStep(table, DoctestProtein, 14);
  }

  lemma AmbiguousPrefix18(table: map<char, seq<string>>)
    requires PatternCounts(table)
    ensures AllListed(DoctestProtein[..18], table)
    ensures Permutations(table, DoctestProtein[..18]) == 8
  {
    AmbiguousPrefix15(table);
    assert |table[DoctestProtein[15]]| == 2;
    PermutationsStep(table, DoctestProtein, 15);
    assert |table[DoctestProtein[16]]| == 1;
    PermutationsStep(table, DoctestProtein, 16);
    assert |table[DoctestProtein[17]]| == 1;
    PermutationsStep(table, DoctestProtein, 17);
  }

  lemma AmbiguousPrefix21(table: map<char, seq<string>>)
    requires PatternCounts(table)
    ensures AllListed(DoctestProtein[..21], table)
    ensures Permutations(table, DoctestProtein[..21]) == 16
  {
    AmbiguousPrefix18(table);
    assert |table[DoctestProtein[18]]| == 1;
    PermutationsStep(table, DoctestProtein, 18);
    assert |table[DoctestProtein[19]]| == 1;
    PermutationsStep(table, DoctestProtein, 19);
    assert |table[DoctestProtein[20]]| == 2;
    PermutationsStep(table, DoctestProtein, 20);
  }

  /**
   * `backtranslate_permutations(protein, codon_table=ambiguous_codon_table)`
   * is 16: leucine, arginine, serine and stop have two patterns each and
   * every other residue one.
   */
  lemma AmbiguousDoctestPermutations(table: map<char, seq<string>>)
    requires IsAmbiguousCodonTable(table)
    ensures AllListed(DoctestProtein, table)
    ensures Permutations(table, DoctestProtein) == 16
  {
    AmbiguousPatternCounts(table);
    AmbiguousPrefix21(table);
    assert DoctestProtein[..21] == DoctestProtein;
  }

  /** `len(backtranslate('FVC'))` is 16: two codons for F, four for V, two for C. */
  lemma FvcExpansions()
    ensures AllListed("FVC", CodonTable)
    ensures |Expansions(CodonTable, "FVC")| == 16
  {
    var protein := "FVC";
    assert |CodonTable[protein[0]]| == 2;
    PermutationsStep(CodonTable, protein, 0);
    assert |CodonTable[protein[1]]| == 4;
    PermutationsStep(CodonTable, protein, 1);
    assert |CodonTable[protein[2]]| == 2;
    PermutationsStep(CodonTable, protein, 2);
    assert protein[..3] == protein;
    ExpansionsCount(CodonTable, protein);
  }
}
