/**
 * The two fixed genetic-code tables of parser/temp_backtranslate.py:
 * `codon_table` (amino acid -> its codons) and `gencode` (codon -> amino
 * acid, stop written '_'). The lemmas prove that `codon_table` partitions the
 * 64 codons and that the two tables agree.
 */
module CodonTables {
  import opened Common

  /** `codon_table`: every amino acid (and stop, '*') with its codons, as in the source. */
  const CodonTable: map<char, seq<string>> := map[
    'A' := ["GCT", "GCC", "GCA", "GCG"],
    'C' := ["TGT", "TGC"],
    'D' := ["GAT", "GAC"],
    'E' := ["GAA", "GAG"],
    'F' := ["TTT", "TTC"],
    'G' := ["GGT", "GGC", "GGA", "GGG"],
    'I' := ["ATT", "ATC", "ATA"],
    'H' := ["CAT", "CAC"],
    'K' := ["AAA", "AAG"],
    'L' := ["TTA", "TTG", "CTT", "CTC", "CTA", "CTG"],
    'M' := ["ATG"],
    'N' := ["AAT", "AAC"],
    'P' := ["CCT", "CCC", "CCA", "CCG"],
    'Q' := ["CAA", "CAG"],
    'R' := ["CGT", "CGC", "CGA", "CGG", "AGA", "AGG"],
    'S' := ["TCT", "TCC", "TCA", "TCG", "AGT", "AGC"],
    'T' := ["ACT", "ACC", "ACA", "ACG"],
    'V' := ["GTT", "GTC", "GTA", "GTG"],
    'W' := ["TGG"],
    'Y' := ["TAT", "TAC"],
    '*' := ["TAA", "TAG", "TGA"]
  ]

  /** The keys of `codon_table` in the order the source writes them. */
  const AminoAcids: string := "ACDEFGIHKLMNPQRSTVWY*"

  /**
   * `gencode.get(codon)`: the one-letter amino acid that `gencode` assigns to
   * `codon`, with stop written '_', or `None` when `codon` is not a key.
   */
  function Gencode(codon: string): Option<char>
  {
    if |codon| != 3 then None else
    match (codon[0], codon[1], codon[2])
    case ('A', 'T', 'A') => Some('I')
    case ('A', 'T', 'C') => Some('I')
    case ('A', 'T', 'T') => Some('I')
    case ('A', 'T', 'G') => Some('M')
    case ('A', 'C', 'A') => Some('T')
    case ('A', 'C', 'C') => Some('T')
    case ('A', 'C', 'G') => Some('T')
    case ('A', 'C', 'T') => Some('T')
    case ('A', 'A', 'C') => Some('N')
    case ('A', 'A', 'T') => Some('N')
    case ('A', 'A', 'A') => Some('K')
    case ('A', 'A', 'G') => Some('K')
    case ('A', 'G', 'C') => Some('S')
    case ('A', 'G', 'T') => Some('S')
    case ('A', 'G', 'A') => Some('R')
    case ('A', 'G', 'G') => Some('R')
    case ('C', 'T', 'A') => Some('L')
    case ('C', 'T', 'C') => Some('L')
    case ('C', 'T', 'G') => Some('L')
    case ('C', 'T', 'T') => Some('L')
    case ('C', 'C', 'A') => Some('P')
    case ('C', 'C', 'C') => Some('P')
    case ('C', 'C', 'G') => Some('P')
    case ('C', 'C', 'T') => Some('P')
    case ('C', 'A', 'C') => Some('H')
    case ('C', 'A', 'T') => Some('H')
    case ('C', 'A', 'A') => Some('Q')
    case ('C', 'A', 'G') => Some('Q')
    case ('C', 'G', 'A') => Some('R')
    case ('C', 'G', 'C') => Some('R')
    case ('C', 'G', 'G') => Some('R')
    case ('C', 'G', 'T') => Some('R')
    case ('G', 'T', 'A') => Some('V')
    case ('G', 'T', 'C') => Some('V')
    case ('G', 'T', 'G') => Some('V')
    case ('G', 'T', 'T') => Some('V')
    case ('G', 'C', 'A') => Some('A')
    case ('G', 'C', 'C') => Some('A')
    case ('G', 'C', 'G') => Some('A')
    case ('G', 'C', 'T') => Some('A')
    case ('G', 'A', 'C') => Some('D')
    case ('G', 'A', 'T') => Some('D')
    case ('G', 'A', 'A') => Some('E')
    case ('G', 'A', 'G') => Some('E')
    case ('G', 'G', 'A') => Some('G')
    case ('G', 'G', 'C') => Some('G')
    case ('G', 'G', 'G') => Some('G')
    case ('G', 'G', 'T') => Some('G')
    case ('T', 'C', 'A') => Some('S')
    case ('T', 'C', 'C') => Some('S')
    case ('T', 'C', 'G') => Some('S')
    case ('T', 'C', 'T') => Some('S')
    case ('T', 'T', 'C') => Some('F')
    case ('T', 'T', 'T') => Some('F')
    case ('T', 'T', 'A') => Some('L')
    case ('T', 'T', 'G') => Some('L')
    case ('T', 'A', 'C') => Some('Y')
    case ('T', 'A', 'T') => Some('Y')
    case ('T', 'A', 'A') => Some('_')
    case ('T', 'A', 'G') => Some('_')
    case ('T', 'G', 'C') => Some('C')
    case ('T', 'G', 'T') => Some('C')
    case ('T', 'G', 'A') => Some('_')
    case ('T', 'G', 'G') => Some('W')
    case _ => None
  }

  /** One of the four DNA bases. */
  predicate IsBase(b: char)
  {
    b == 'A' || b == 'C' || b == 'G' || b == 'T'
  }

  /** A codon: exactly three DNA bases. */
  predicate IsCodon(c: string)
  {
    |c| == 3 && IsBase(c[0]) && IsBase(c[1]) && IsBase(c[2])
  }

  /** How `gencode` writes an amino acid of `codon_table`: stop, '*', becomes '_'. */
  function GencodeSymbol(aa: char): char
  {
    if aa == '*' then '_' else aa
  }

  /** The amino acid of `codon_table` that a `gencode` value stands for. */
  function AminoOfSymbol(symbol: char): char
  {
    if symbol == '_' then '*' else symbol
  }

  /** `c` is a key of `gencode`, and `codon_table` lists `c` under the amino acid `gencode` gives it. */
  ghost predicate GencodeTabulates(c: string)
  {
    && Gencode(c).Some?
    && AminoOfSymbol(Gencode(c).value) in CodonTable
    && c in CodonTable[AminoOfSymbol(Gencode(c).value)]
  }

  /** `codons[i..]` are all codons that `gencode` maps to `symbol`, checked one by one. */
  predicate EncodeFrom(codons: seq<string>, symbol: char, i: nat)
    decreases |codons| - i
  {
    i >= |codons| || (IsCodon(codons[i]) && Gencode(codons[i]) == Some(symbol) && EncodeFrom(codons, symbol, i + 1))
  }

  lemma {:induction false} EncodeFromAll(codons: seq<string>, symbol: char, i: nat)
    requires EncodeFrom(codons, symbol, i)
    ensures forall k | i <= k < |codons| :: IsCodon(codons[k]) && Gencode(codons[k]) == Some(symbol)
    decreases |codons| - i
  {
    if i < |codons| {
      EncodeFromAll(codons, symbol, i + 1);
    }
  }

  /** `codon_table[aa]` exists, repeats no codon, and `gencode` maps each of its codons back to `aa`. */
  ghost predicate Tabulated(aa: char)
  {
    && aa in CodonTable
    && |CodonTable[aa]| > 0
    && Distinct(CodonTable[aa])
    && forall c | c in CodonTable[aa] :: IsCodon(c) && Gencode(c) == Some(GencodeSymbol(aa))
  }

  /** `Tabulated(aa)`, checked entry by entry so that Dafny can evaluate it. */
  predicate TabulatedCheck(aa: char)
  {
    aa in CodonTable && |CodonTable[aa]| > 0 && DistinctFrom(CodonTable[aa], 0) && EncodeFrom(CodonTable[aa], GencodeSymbol(aa), 0)
  }

  lemma CheckIsTabulated(aa: char)
    requires TabulatedCheck(aa)
    ensures Tabulated(aa)
  {
    DistinctFromAll(CodonTable[aa], 0);
    EncodeFromAll(CodonTable[aa], GencodeSymbol(aa), 0);
  }

  /** The number of codons `codon_table` lists for the amino acids of `aas[i..]`, counted with repeats (a letter that is no key adds none). */
  function CodonCount(aas: string, i: nat): nat
    decreases |aas| - i
  {
    if i >= |aas| then 0
    else (if aas[i] in CodonTable then |CodonTable[aas[i]]| else 0) + CodonCount(aas, i + 1)
  }

  /** `x` differs from every element of `s[j..]`. */
  predicate AbsentFrom<T(==)>(s: seq<T>, x: T, j: nat)
    decreases |s| - j
  {
    j >= |s| || (s[j] != x && AbsentFrom(s, x, j + 1))
  }

  /** No element of `s[i..]` occurs twice, checked pair by pair. */
  predicate DistinctFrom<T(==)>(s: seq<T>, i: nat)
    decreases |s| - i
  {
    i >= |s| || (AbsentFrom(s, s[i], i + 1) && DistinctFrom(s, i + 1))
  }

  lemma {:induction false} AbsentFromAll<T>(s: seq<T>, x: T, j: nat)
    requires AbsentFrom(s, x, j)
    ensures forall k | j <= k < |s| :: s[k] != x
    decreases |s| - j
  {
    if j < |s| {
      AbsentFromAll(s, x, j + 1);
    }
  }

  lemma {:induction false} DistinctFromAll<T>(s: seq<T>, i: nat)
    requires DistinctFrom(s, i)
    ensures forall k, l | i <= k < l < |s| :: s[k] != s[l]
    decreases |s| - i
  {
    if i < |s| {
      AbsentFromAll(s, s[i], i + 1);
      DistinctFromAll(s, i + 1);
    }
  }

  lemma TabulatedAC(aa: char)
    requires aa == 'A' || aa == 'C'
    ensures Tabulated(aa)
  {
    if aa == 'A' {
      CheckIsTabulated('A');
    } else {
      CheckIsTabulated('C');
    }
  }

  lemma TabulatedDEF(aa: char)
    requires aa == 'D' || aa == 'E' || aa == 'F'
    ensures Tabulated(aa)
  {
    if aa == 'D' {
      CheckIsTabulated('D');
    } else if aa == 'E' {
      CheckIsTabulated('E');
    } else {
      CheckIsTabulated('F');
    }
  }

  lemma TabulatedGI(aa: char)
    requires aa == 'G' || aa == 'I'
    ensures Tabulated(aa)
  {
    if aa == 'G' {
      CheckIsTabulated('G');
    } else {
      CheckIsTabulated('I');
    }
  }

  lemma TabulatedHKM(aa: char)
    requires aa == 'H' || aa == 'K' || aa == 'M'
    ensures Tabulated(aa)
  {
    if aa == 'H' {
      CheckIsTabulated('H');
    } else if aa == 'K' {
      CheckIsTabulated('K');
    } else {
      CheckIsTabulated('M');
    }
  }

  lemma TabulatedL(aa: char)
    requires aa == 'L'
    ensures Tabulated(aa)
  {
    CheckIsTabulated('L');
  }

  lemma TabulatedNP(aa: char)
    requires aa == 'N' || aa == 'P'
    ensures Tabulated(aa)
  {
    if aa == 'N' {
      CheckIsTabulated('N');
    } else {
      CheckIsTabulated('P');
    }
  }

  lemma TabulatedQR(aa: char)
    requires aa == 'Q' || aa == 'R'
    ensures Tabulated(aa)
  {
    if aa == 'Q' {
      CheckIsTabulated('Q');
    } else {
      CheckIsTabulated('R');
    }
  }

  lemma TabulatedS(aa: char)
    requires aa == 'S'
    ensures Tabulated(aa)
  {
    CheckIsTabulated('S');
  }

  lemma TabulatedTV(aa: char)
    requires aa == 'T' || aa == 'V'
    ensures Tabulated(aa)
  {
    if aa == 'T' {
      CheckIsTabulated('T');
    } else {
      CheckIsTabulated('V');
    }
  }

  lemma TabulatedWYStop(aa: char)
    requires aa == 'W' || aa == 'Y' || aa == '*'
    ensures Tabulated(aa)
  {
    if aa == 'W' {
      CheckIsTabulated('W');
    } else if aa == 'Y' {
      CheckIsTabulated('Y');
    } else {
      CheckIsTabulated('*');
    }
  }

  /** Every amino acid of `codon_table` is tabulated consistently with `gencode`. */
  lemma TabulatedAt(aa: char)
    requires aa in CodonTable
    ensures Tabulated(aa)
  {
    if aa == 'A' || aa == 'C' {
      TabulatedAC(aa);
    } else if aa == 'D' || aa == 'E' || aa == 'F' {
      TabulatedDEF(aa);
    } else if aa == 'G' || aa == 'I' {
      TabulatedGI(aa);
    } else if aa == 'H' || aa == 'K' || aa == 'M' {
      TabulatedHKM(aa);
    } else if aa == 'L' {
      TabulatedL(aa);
    } else if aa == 'N' || aa == 'P' {
      TabulatedNP(aa);
    } else if aa == 'Q' || aa == 'R' {
      TabulatedQR(aa);
    } else if aa == 'S' {
      TabulatedS(aa);
    } else if aa == 'T' || aa == 'V' {
      TabulatedTV(aa);
    } else {
      TabulatedWYStop(aa);
    }
  }

  /**
   * `gencode` agrees with `codon_table`: every codon listed under an amino
   * acid is a real codon and `gencode` maps it back to that amino acid, with
   * stop written '_' instead of '*'.
   */
  lemma CodonTableAgreesWithGencode()
    ensures forall aa, c | aa in CodonTable && c in CodonTable[aa] ::
      IsCodon(c) && Gencode(c) == Some(GencodeSymbol(aa))
  {
    forall aa | aa in CodonTable ensures Tabulated(aa) {
      TabulatedAt(aa);
    }
  }

  /**
   * `codon_table` is a partition of the 64 codons: its tuples hold only
   * codons, repeat none, share none, have 64 entries in all, and every codon
   * over A, C, G, T is in one of them.
   */
  lemma CodonTableIsPartition()
    ensures forall aa | aa in CodonTable :: |CodonTable[aa]| > 0 && Distinct(CodonTable[aa])
    ensures forall aa, c | aa in CodonTable && c in CodonTable[aa] :: IsCodon(c)
    ensures forall a1, a2, c | a1 in CodonTable && a2 in CodonTable && c in CodonTable[a1] && c in CodonTable[a2] :: a1 == a2
    ensures forall c | IsCodon(c) :: exists aa :: aa in CodonTable && c in CodonTable[aa]
    ensures Distinct(AminoAcids) && forall aa :: aa in CodonTable <==> aa in AminoAcids
    ensures CodonCount(AminoAcids, 0) == 64
  {
    CodonTableTuplesAreDistinctCodons();
    CodonTableTuplesAreDisjoint();
    CodonTableCoversAllCodons();
    AminoAcidsAreTheKeys();
    CodonTableHas64Entries();
  }

  lemma CodonTableTuplesAreDistinctCodons()
    ensures forall aa | aa in CodonTable :: |CodonTable[aa]| > 0 && Distinct(CodonTable[aa])
    ensures forall aa, c | aa in CodonTable && c in CodonTable[aa] :: IsCodon(c)
  {
    forall aa | aa in CodonTable ensures Tabulated(aa) {
      TabulatedAt(aa);
    }
  }

  lemma CodonTableTuplesAreDisjoint()
    ensures forall a1, a2, c | a1 in CodonTable && a2 in CodonTable && c in CodonTable[a1] && c in CodonTable[a2] :: a1 == a2
  {
    forall a1, a2, c | a1 in CodonTable && a2 in CodonTable && c in CodonTable[a1] && c in CodonTable[a2]
      ensures a1 == a2
    {
      SharedCodonSameAminoAcid(a1, a2, c);
    }
  }

  lemma SharedCodonSameAminoAcid(a1: char, a2: char, c: string)
    requires a1 in CodonTable && a2 in CodonTable && c in CodonTable[a1] && c in CodonTable[a2]
    ensures a1 == a2
  {
    TabulatedAt(a1);
    TabulatedAt(a2);
    StopIsNoKey();
    GencodeSymbolInjective(a1, a2);
  }

  lemma StopIsNoKey()
    ensures '_' !in CodonTable
  {
  }

  /** Writing stop as '_' loses nothing: distinct amino-acid letters other than '_' get distinct symbols. */
  lemma GencodeSymbolInjective(a1: char, a2: char)
    requires a1 != '_' && a2 != '_'
    ensures GencodeSymbol(a1) == GencodeSymbol(a2) ==> a1 == a2
  {
  }

  lemma CodonTableCoversAllCodons()
    ensures forall c | IsCodon(c) :: exists aa :: aa in CodonTable && c in CodonTable[aa]
  {
    forall c | IsCodon(c) ensures exists aa :: aa in CodonTable && c in CodonTable[aa] {
      GencodeCoversAllCodons(c);
    }
  }

  /** `AminoAcids` lists each key of `codon_table` once. */
  lemma AminoAcidsAreTheKeys()
    ensures Distinct(AminoAcids) && forall aa :: aa in CodonTable <==> aa in AminoAcids
  {
    AminoAcidsDistinct();
    KeysAreAminoAcids();
  }

  lemma AminoAcidsDistinct()
    ensures Distinct(AminoAcids)
  {
    forall i | 0 <= i < |AminoAcids| ensures Rank(AminoAcids[i]) == i {
      RankOfAminoAcid(i);
    }
  }

  /** The position of `aa` in `AminoAcids`. */
  function Rank(aa: char): int
  {
    match aa
    case 'A' => 0
    case 'C' => 1
    case 'D' => 2
    case 'E' => 3
    case 'F' => 4
    case 'G' => 5
    case 'I' => 6
    case 'H' => 7
    case 'K' => 8
    case 'L' => 9
    case 'M' => 10
    case 'N' => 11
    case 'P' => 12
    case 'Q' => 13
    case 'R' => 14
    case 'S' => 15
    case 'T' => 16
    case 'V' => 17
    case 'W' => 18
    case 'Y' => 19
    case '*' => 20
    case _ => -1
  }

  lemma RankOfAminoAcid(i: nat)
    requires i < |AminoAcids|
    ensures Rank(AminoAcids[i]) == i
  {
    if i == 0 {
      assert AminoAcids[0] == 'A';
    } else if i == 1 {
      assert AminoAcids[1] == 'C';
    } else if i == 2 {
      assert AminoAcids[2] == 'D';
    } else if i == 3 {
      assert AminoAcids[3] == 'E';
    } else if i == 4 {
      assert AminoAcids[4] == 'F';
    } else if i == 5 {
      assert AminoAcids[5] == 'G';
    } else if i == 6 {
      assert AminoAcids[6] == 'I';
    } else if i == 7 {
      assert AminoAcids[7] == 'H';
    } else if i == 8 {
      assert AminoAcids[8] == 'K';
    } else if i == 9 {
      assert AminoAcids[9] == 'L';
    } else if i == 10 {
      assert AminoAcids[10] == 'M';
    } else if i == 11 {
      assert AminoAcids[11] == 'N';
    } else if i == 12 {
      assert AminoAcids[12] == 'P';
    } else if i == 13 {
      assert AminoAcids[13] == 'Q';
    } else if i == 14 {
      assert AminoAcids[14] == 'R';
    } else if i == 15 {
      assert AminoAcids[15] == 'S';
    } else if i == 16 {
      assert AminoAcids[16] == 'T';
    } else if i == 17 {
      assert AminoAcids[17] == 'V';
    } else if i == 18 {
      assert AminoAcids[18] == 'W';
    } else if i == 19 {
      assert AminoAcids[19] == 'Y';
    } else {
      assert AminoAcids[20] == '*';
    }
  }

  lemma KeysAreAminoAcids()
    ensures forall aa :: aa in CodonTable <==> aa in AminoAcids
  {
  }

  /** The size of every tuple of `codon_table`, and their total of 64. */
  lemma CodonTableHas64Entries()
    ensures |CodonTable['A']| == 4 && |CodonTable['C']| == 2 && |CodonTable['D']| == 2 && |CodonTable['E']| == 2 && |CodonTable['F']| == 2 && |CodonTable['G']| == 4 && |CodonTable['I']| == 3
    ensures |CodonTable['H']| == 2 && |CodonTable['K']| == 2 && |CodonTable['L']| == 6 && |CodonTable['M']| == 1 && |CodonTable['N']| == 2 && |CodonTable['P']| == 4 && |CodonTable['Q']| == 2
    ensures |CodonTable['R']| == 6 && |CodonTable['S']| == 6 && |CodonTable['T']| == 4 && |CodonTable['V']| == 4 && |CodonTable['W']| == 1 && |CodonTable['Y']| == 2 && |CodonTable['*']| == 3
    ensures CodonCount(AminoAcids, 0) == 64
  {
    TupleSizesFrom0();
    TupleSizesFrom7();
    TupleSizesFrom14();
    CodonCountFrom0();
  }

  lemma TupleSizesFrom14()
    ensures |CodonTable['R']| == 6 && |CodonTable['S']| == 6 && |CodonTable['T']| == 4 && |CodonTable['V']| == 4 && |CodonTable['W']| == 1 && |CodonTable['Y']| == 2 && |CodonTable['*']| == 3
  {
  }

  lemma CodonCountFrom14()
    ensures CodonCount(AminoAcids, 14) == 26
  {
    TupleSizesFrom14();
    assert CodonCount(AminoAcids, 20) == 3;
    assert CodonCount(AminoAcids, 19) == 5;
    assert CodonCount(AminoAcids, 18) == 6;
    assert CodonCount(AminoAcids, 17) == 10;
    assert CodonCount(AminoAcids, 16) == 14;
    assert CodonCount(AminoAcids, 15) == 20;
    assert CodonCount(AminoAcids, 14) == 26;
  }

  lemma TupleSizesFrom7()
    ensures |CodonTable['H']| == 2 && |CodonTable['K']| == 2 && |CodonTable['L']| == 6 && |CodonTable['M']| == 1 && |CodonTable['N']| == 2 && |CodonTable['P']| == 4 && |CodonTable['Q']| == 2
  {
  }

  lemma CodonCountFrom7()
    ensures CodonCount(AminoAcids, 7) == 45
  {
    TupleSizesFrom7();
    CodonCountFrom14();
    assert CodonCount(AminoAcids, 13) == 28;
    assert CodonCount(AminoAcids, 12) == 32;
    assert CodonCount(AminoAcids, 11) == 34;
    assert CodonCount(AminoAcids, 10) == 35;
    assert CodonCount(AminoAcids, 9) == 41;
    assert CodonCount(AminoAcids, 8) == 43;
    assert CodonCount(AminoAcids, 7) == 45;
  }

  lemma TupleSizesFrom0()
    ensures |CodonTable['A']| == 4 && |CodonTable['C']| == 2 && |CodonTable['D']| == 2 && |CodonTable['E']| == 2 && |CodonTable['F']| == 2 && |CodonTable['G']| == 4 && |CodonTable['I']| == 3
  {
  }

  lemma CodonCountFrom0()
    ensures CodonCount(AminoAcids, 0) == 64
  {
    TupleSizesFrom0();
    CodonCountFrom7();
    assert CodonCount(AminoAcids, 6) == 48;
    assert CodonCount(AminoAcids, 5) == 52;
    assert CodonCount(AminoAcids, 4) == 54;
    assert CodonCount(AminoAcids, 3) == 56;
    assert CodonCount(AminoAcids, 2) == 58;
    assert CodonCount(AminoAcids, 1) == 60;
    assert CodonCount(AminoAcids, 0) == 64;
  }

  /** Every codon is a key of `gencode`, listed in `codon_table` under the amino acid `gencode` gives it. */
  lemma GencodeCoversAllCodons(c: string)
    requires IsCodon(c)
    ensures GencodeTabulates(c)
  {
    if c[0] == 'A' {
      if c[1] == 'A' { GencodeRowAA(c); }
      else if c[1] == 'C' { GencodeRowAC(c); }
      else if c[1] == 'G' { GencodeRowAG(c); }
      else { GencodeRowAT(c); }
    } else if c[0] == 'C' {
      if c[1] == 'A' { GencodeRowCA(c); }
      else if c[1] == 'C' { GencodeRowCC(c); }
      else if c[1] == 'G' { GencodeRowCG(c); }
      else { GencodeRowCT(c); }
    } else if c[0] == 'G' {
      if c[1] == 'A' { GencodeRowGA(c); }
      else if c[1] == 'C' { GencodeRowGC(c); }
      else if c[1] == 'G' { GencodeRowGG(c); }
      else { GencodeRowGT(c); }
    } else {
      if c[1] == 'A' { GencodeRowTA(c); }
      else if c[1] == 'C' { GencodeRowTC(c); }
      else if c[1] == 'G' { GencodeRowTG(c); }
      else { GencodeRowTT(c); }
    }
  }

  lemma GencodeRowAA(c: string)
    requires |c| == 3 && c[0] == 'A' && c[1] == 'A' && IsBase(c[2])
    ensures GencodeTabulates(c)
  {
    if c[2] == 'A' { assert c == "AAA"; assert Gencode("AAA") == Some('K'); }
    if c[2] == 'C' { assert c == "AAC"; assert Gencode("AAC") == Some('N'); }
    if c[2] == 'G' { assert c == "AAG"; assert Gencode("AAG") == Some('K'); }
    if c[2] == 'T' { assert c == "AAT"; assert Gencode("AAT") == Some('N'); }
  }

  lemma GencodeRowAC(c: string)
    requires |c| == 3 && c[0] == 'A' && c[1] == 'C' && IsBase(c[2])
    ensures GencodeTabulates(c)
  {
    if c[2] == 'A' { assert c == "ACA"; assert Gencode("ACA") == Some('T'); }
    if c[2] == 'C' { assert c == "ACC"; assert Gencode("ACC") == Some('T'); }
    if c[2] == 'G' { assert c == "ACG"; assert Gencode("ACG") == Some('T'); }
    if c[2] == 'T' { assert c == "ACT"; assert Gencode("ACT") == Some('T'); }
  }

  lemma GencodeRowAG(c: string)
    requires |c| == 3 && c[0] == 'A' && c[1] == 'G' && IsBase(c[2])
    ensures GencodeTabulates(c)
  {
    if c[2] == 'A' { assert c == "AGA"; assert Gencode("AGA") == Some('R'); }
    if c[2] == 'C' { assert c == "AGC"; assert Gencode("AGC") == Some('S'); }
    if c[2] == 'G' { assert c == "AGG"; assert Gencode("AGG") == Some('R'); }
    if c[2] == 'T' { assert c == "AGT"; assert Gencode("AGT") == Some('S'); }
  }

  lemma GencodeRowAT(c: string)
    requires |c| == 3 && c[0] == 'A' && c[1] == 'T' && IsBase(c[2])
    ensures GencodeTabulates(c)
  {
    if c[2] == 'A' { assert c == "ATA"; assert Gencode("ATA") == Some('I'); }
    if c[2] == 'C' { assert c == "ATC"; assert Gencode("ATC") == Some('I'); }
    if c[2] == 'G' { assert c == "ATG"; assert Gencode("ATG") == Some('M'); }
    if c[2] == 'T' { assert c == "ATT"; assert Gencode("ATT") == Some('I'); }
  }

  lemma GencodeRowCA(c: string)
    requires |c| == 3 && c[0] == 'C' && c[1] == 'A' && IsBase(c[2])
    ensures GencodeTabulates(c)
  {
    if c[2] == 'A' { assert c == "CAA"; assert Gencode("CAA") == Some('Q'); }
    if c[2] == 'C' { assert c == "CAC"; assert Gencode("CAC") == Some('H'); }
    if c[2] == 'G' { assert c == "CAG"; assert Gencode("CAG") == Some('Q'); }
    if c[2] == 'T' { assert c == "CAT"; assert Gencode("CAT") == Some('H'); }
  }

  lemma GencodeRowCC(c: string)
    requires |c| == 3 && c[0] == 'C' && c[1] == 'C' && IsBase(c[2])
    ensures GencodeTabulates(c)
  {
    if c[2] == 'A' { assert c == "CCA"; assert Gencode("CCA") == Some('P'); }
    if c[2] == 'C' { assert c == "CCC"; assert Gencode("CCC") == Some('P'); }
    if c[2] == 'G' { assert c == "CCG"; assert Gencode("CCG") == Some('P'); }
    if c[2] == 'T' { assert c == "CCT"; assert Gencode("CCT") == Some('P'); }
  }

  lemma GencodeRowCG(c: string)
    requires |c| == 3 && c[0] == 'C' && c[1] == 'G' && IsBase(c[2])
    ensures GencodeTabulates(c)
  {
    if c[2] == 'A' { assert c == "CGA"; assert Gencode("CGA") == Some('R'); }
    if c[2] == 'C' { assert c == "CGC"; assert Gencode("CGC") == Some('R'); }
    if c[2] == 'G' { assert c == "CGG"; assert Gencode("CGG") == Some('R'); }
    if c[2] == 'T' { assert c == "CGT"; assert Gencode("CGT") == Some('R'); }
  }

  lemma GencodeRowCT(c: string)
    requires |c| == 3 && c[0] == 'C' && c[1] == 'T' && IsBase(c[2])
    ensures GencodeTabulates(c)
  {
    if c[2] == 'A' { assert c == "CTA"; assert Gencode("CTA") == Some('L'); }
    if c[2] == 'C' { assert c == "CTC"; assert Gencode("CTC") == Some('L'); }
    if c[2] == 'G' { assert c == "CTG"; assert Gencode("CTG") == Some('L'); }
    if c[2] == 'T' { assert c == "CTT"; assert Gencode("CTT") == Some('L'); }
  }

  lemma GencodeRowGA(c: string)
    requires |c| == 3 && c[0] == 'G' && c[1] == 'A' && IsBase(c[2])
    ensures GencodeTabulates(c)
  {
    if c[2] == 'A' { assert c == "GAA"; assert Gencode("GAA") == Some('E'); }
    if c[2] == 'C' { assert c == "GAC"; assert Gencode("GAC") == Some('D'); }
    if c[2] == 'G' { assert c == "GAG"; assert Gencode("GAG") == Some('E'); }
    if c[2] == 'T' { assert c == "GAT"; assert Gencode("GAT") == Some('D'); }
  }

  lemma GencodeRowGC(c: string)
    requires |c| == 3 && c[0] == 'G' && c[1] == 'C' && IsBase(c[2])
    ensures GencodeTabulates(c)
  {
    if c[2] == 'A' { assert c == "GCA"; assert Gencode("GCA") == Some('A'); }
    if c[2] == 'C' { assert c == "GCC"; assert Gencode("GCC") == Some('A'); }
    if c[2] == 'G' { assert c == "GCG"; assert Gencode("GCG") == Some('A'); }
    if c[2] == 'T' { assert c == "GCT"; assert Gencode("GCT") == Some('A'); }
  }

  lemma GencodeRowGG(c: string)
    requires |c| == 3 && c[0] == 'G' && c[1] == 'G' && IsBase(c[2])
    ensures GencodeTabulates(c)
  {
    if c[2] == 'A' { assert c == "GGA"; assert Gencode("GGA") == Some('G'); }
    if c[2] == 'C' { assert c == "GGC"; assert Gencode("GGC") == Some('G'); }
    if c[2] == 'G' { assert c == "GGG"; assert Gencode("GGG") == Some('G'); }
    if c[2] == 'T' { assert c == "GGT"; assert Gencode("GGT") == Some('G'); }
  }

  lemma GencodeRowGT(c: string)
    requires |c| == 3 && c[0] == 'G' && c[1] == 'T' && IsBase(c[2])
    ensures GencodeTabulates(c)
  {
    if c[2] == 'A' { assert c == "GTA"; assert Gencode("GTA") == Some('V'); }
    if c[2] == 'C' { assert c == "GTC"; assert Gencode("GTC") == Some('V'); }
    if c[2] == 'G' { assert c == "GTG"; assert Gencode("GTG") == Some('V'); }
    if c[2] == 'T' { assert c == "GTT"; assert Gencode("GTT") == Some('V'); }
  }

  lemma GencodeRowTA(c: string)
    requires |c| == 3 && c[0] == 'T' && c[1] == 'A' && IsBase(c[2])
    ensures GencodeTabulates(c)
  {
    if c[2] == 'A' { assert c == "TAA"; assert Gencode("TAA") == Some('_'); }
    if c[2] == 'C' { assert c == "TAC"; assert Gencode("TAC") == Some('Y'); }
    if c[2] == 'G' { assert c == "TAG"; assert Gencode("TAG") == Some('_'); }
    if c[2] == 'T' { assert c == "TAT"; assert Gencode("TAT") == Some('Y'); }
  }

  lemma GencodeRowTC(c: string)
    requires |c| == 3 && c[0] == 'T' && c[1] == 'C' && IsBase(c[2])
    ensures GencodeTabulates(c)
  {
    if c[2] == 'A' { assert c == "TCA"; assert Gencode("TCA") == Some('S'); }
    if c[2] == 'C' { assert c == "TCC"; assert Gencode("TCC") == Some('S'); }
    if c[2] == 'G' { assert c == "TCG"; assert Gencode("TCG") == Some('S'); }
    if c[2] == 'T' { assert c == "TCT"; assert Gencode("TCT") == Some('S'); }
  }

  lemma GencodeRowTG(c: string)
    requires |c| == 3 && c[0] == 'T' && c[1] == 'G' && IsBase(c[2])
    ensures GencodeTabulates(c)
  {
    if c[2] == 'A' { assert c == "TGA"; assert Gencode("TGA") == Some('_'); }
    if c[2] == 'C' { assert c == "TGC"; assert Gencode("TGC") == Some('C'); }
    if c[2] == 'G' { assert c == "TGG"; assert Gencode("TGG") == Some('W'); }
    if c[2] == 'T' { assert c == "TGT"; assert Gencode("TGT") == Some('C'); }
  }

  lemma GencodeRowTT(c: string)
    requires |c| == 3 && c[0] == 'T' && c[1] == 'T' && IsBase(c[2])
    ensures GencodeTabulates(c)
  {
    if c[2] == 'A' { assert c == "TTA"; assert Gencode("TTA") == Some('L'); }
    if c[2] == 'C' { assert c == "TTC"; assert Gencode("TTC") == Some('F'); }
    if c[2] == 'G' { assert c == "TTG"; assert Gencode("TTG") == Some('L'); }
    if c[2] == 'T' { assert c == "TTT"; assert Gencode("TTT") == Some('F'); }
  }
}
