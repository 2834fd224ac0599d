/**
 * Step 6 of parser/temp_backtranslate.py: `disambiguate`, the back-translation
 * engine reused with `ambiguous_bases_reversed` as the codon table, so that an
 * IUPAC-coded DNA string expands to every plain DNA string it stands for.
 */
module Disambiguation {
  import opened Common
  import opened AmbiguityCodes
  import opened ReversedBases
  import opened Backtranslation

  /** Every character of `dna` is one of the fifteen IUPAC symbols, the keys of `ambiguous_bases_reversed`. */
  predicate AllIupac(dna: string)
  {
    forall i | 0 <= i < |dna| :: dna[i] in IupacSymbols
  }

  /**
   * `disambiguate(ambiguous_dna)`, with the items of `ambiguous_bases` listed
   * in the order `items` gives: `backtranslate` over the reversed table, so an
   * empty string raises `IndexError` and a character that is not an IUPAC
   * symbol raises `KeyError`.
   */
  method Disambiguate(ambiguousDna: string, items: seq<(set<char>, char)>) returns (r: Result<seq<string>>)
    requires ListsAmbiguousBases(items)
    ensures ambiguousDna == [] ==> r == Raise(IndexError)
    ensures ambiguousDna != [] && !AllIupac(ambiguousDna) ==> r == Raise(KeyError)
    ensures ambiguousDna != [] && AllIupac(ambiguousDna) ==>
      AllListed(ambiguousDna, Reversed(items)) && r == Ok(Expansions(Reversed(items), ambiguousDna))
  {
    ReversedTableMeaning(items);
    r := Backtranslate(ambiguousDna, Reversed(items));
  }

  /** The letter `ambiguous_bases_reversed['T']` holds: 'T' or 'U', depending on the item order. */
  function LetterForT(items: seq<(set<char>, char)>): (t: char)
    requires ListsAmbiguousBases(items)
    ensures t == 'T' || t == 'U'
    ensures 'T' in Reversed(items) && Reversed(items)['T'] == [[t]]
  {
    ReversedTableMeaning(items);
    Reversed(items)['T'][0][0]
  }

  /** The plain bases `disambiguate` substitutes for the IUPAC symbol `s`. */
  function Resolutions(items: seq<(set<char>, char)>, s: char): set<char>
    requires ListsAmbiguousBases(items)
  {
    if s == 'T' then {LetterForT(items)} else IupacBases(s)
  }

  /** The one-letter strings listed for `s` in the reversed table are exactly its resolutions. */
  lemma SymbolLetters(items: seq<(set<char>, char)>, s: char, c: char)
    requires ListsAmbiguousBases(items) && s in IupacSymbols
    ensures s in Reversed(items)
    ensures [c] in Reversed(items)[s] <==> c in Resolutions(items, s)
  {
    ReversedTableMeaning(items);
    if s != 'T' {
      var letters := SortedLetters(IupacBases(s));
      if [c] in letters {
        var i :| 0 <= i < |letters| && letters[i] == [c];
        assert letters[i][0] == c;
      }
      if c in IupacBases(s) {
        BasesInAlphabet(s);
      }
    }
  }

  lemma BasesInAlphabet(s: char)
    requires s in IupacSymbols
    ensures forall c | c in IupacBases(s) :: c in Alphabet
  {
  }

  /**
   * Whatever the item order, the strings `disambiguate(dna)` lists are
   * exactly those of the same length that put, at each position, one of the
   * bases the IUPAC symbol there stands for (with 'T' read as the single
   * letter `ambiguous_bases_reversed['T']` holds).
   */
  lemma DisambiguationsMeaning(items: seq<(set<char>, char)>, dna: string, x: string)
    requires ListsAmbiguousBases(items) && AllIupac(dna)
    ensures AllListed(dna, Reversed(items))
    ensures x in Expansions(Reversed(items), dna) <==>
      |x| == |dna| && forall i | 0 <= i < |dna| :: x[i] in Resolutions(items, dna[i])
  {
    ReversedTableMeaning(items);
    ReversedWidth(items);
    SingletonExpansions(Reversed(items), dna, x);
    forall i | 0 <= i < |dna| && i < |x|
      ensures [x[i]] in Reversed(items)[dna[i]] <==> x[i] in Resolutions(items, dna[i])
    {
      SymbolLetters(items, dna[i], x[i]);
    }
  }

  /**
   * The reversed table lists, for each symbol, one-letter strings, as many
   * as the symbol stands for bases.
   */
  lemma SymbolEntryShape(items: seq<(set<char>, char)>, s: char)
    requires ListsAmbiguousBases(items) && s in IupacSymbols
    ensures s in Reversed(items) && |Reversed(items)[s]| == |IupacBases(s)|
    ensures forall k | 0 <= k < |Reversed(items)[s]| :: |Reversed(items)[s][k]| == 1
  {
    if s == 'T' {
      EntryShapeOfT(items, s);
    } else {
      EntryShapeOfOther(items, s);
    }
  }

  lemma EntryShapeOfT(items: seq<(set<char>, char)>, s: char)
    requires ListsAmbiguousBases(items) && s == 'T'
    ensures s in Reversed(items) && |Reversed(items)[s]| == |IupacBases(s)|
    ensures forall k | 0 <= k < |Reversed(items)[s]| :: |Reversed(items)[s][k]| == 1
  {
    var t := LetterForT(items);
    BasesOfT(s);
  }

  lemma BasesOfT(s: char)
    requires s == 'T'
    ensures |IupacBases(s)| == 1
  {
    assert IupacBases(s) == {s};
  }

  lemma EntryShapeOfOther(items: seq<(set<char>, char)>, s: char)
    requires ListsAmbiguousBases(items) && s in IupacSymbols && s != 'T'
    ensures s in Reversed(items) && |Reversed(items)[s]| == |IupacBases(s)|
    ensures forall k | 0 <= k < |Reversed(items)[s]| :: |Reversed(items)[s][k]| == 1
  {
    ReversedTableMeaning(items);
    BasesInAlphabet(s);
    SortedLettersCount(IupacBases(s));
  }

  /** Every entry of the reversed table lists one-letter strings. */
  lemma ReversedWidth(items: seq<(set<char>, char)>)
    requires ListsAmbiguousBases(items)
    ensures UniformWidth(Reversed(items), 1)
  {
    forall s, k | s in Reversed(items) && 0 <= k < |Reversed(items)[s]|
      ensures |Reversed(items)[s][k]| == 1
    {
      ReversedTableMeaning(items);
      SymbolEntryShape(items, s);
    }
  }

  /** The string of the `disambiguate` doctest: every IUPAC symbol once. */
  const DoctestDna: string := "ACGTRYSWKMBDHVN"

  /** `table` lists as many entries for each symbol of the doctest string as the symbol stands for bases. */
  predicate SymbolCounts(table: Table)
  {
    forall i | 0 <= i < |DoctestDna| ::
      DoctestDna[i] in table && |table[DoctestDna[i]]| == |IupacBases(DoctestDna[i])|
  }

  lemma ReversedSymbolCounts(items: seq<(set<char>, char)>)
    requires ListsAmbiguousBases(items)
    ensures SymbolCounts(Reversed(items))
  {
    forall i | 0 <= i < |DoctestDna|
      ensures DoctestDna[i] in Reversed(items) && |Reversed(items)[DoctestDna[i]]| == |IupacBases(DoctestDna[i])|
    {
      assert DoctestDna[i] in IupacSymbols;
      SymbolEntryShape(items, DoctestDna[i]);
    }
  }

  lemma DoctestDnaPrefix3(table: Table)
    requires SymbolCounts(table)
    ensures AllListed(DoctestDna[..3], table)
    ensures Permutations(table, DoctestDna[..3]) == 1
  {
    assert |table[DoctestDna[0]]| == 1;
    PermutationsStep(table, DoctestDna, 0);
    assert |table[DoctestDna[1]]| == 1;
    PermutationsStep(table, DoctestDna, 1);
    assert |table[DoctestDna[2]]| == 1;
    PermutationsStep(table, DoctestDna, 2);
  }

  lemma DoctestDnaPrefix6(table: Table)
    requires SymbolCounts(table)
    ensures AllListed(DoctestDna[..6], table)
    ensures Permutations(table, DoctestDna[..6]) == 4
  {
    DoctestDnaPrefix3(table);
    assert |table[DoctestDna[3]]| == 1;
    PermutationsStep(table, DoctestDna, 3);
    assert |table[DoctestDna[4]]| == 2;
    PermutationsStep(table, DoctestDna, 4);
    assert |table[DoctestDna[5]]| == 2;
    PermutationsStep(table, DoctestDna, 5);
  }

  lemma DoctestDnaPrefix9(table: Table)
    requires SymbolCounts(table)
    ensures AllListed(DoctestDna[..9], table)
    ensures Permutations(table, DoctestDna[..9]) == 32
  {
    DoctestDnaPrefix6(table);
    assert |table[DoctestDna[6]]| == 2;
    PermutationsStep(table, DoctestDna, 6);
    assert |table[DoctestDna[7]]| == 2;
    PermutationsStep(table, DoctestDna, 7);
    assert |table[DoctestDna[8]]| == 2;
    PermutationsStep(table, DoctestDna, 8);
  }

  lemma DoctestDnaPrefix12(table: Table)
    requires SymbolCounts(table)
    ensures AllListed(DoctestDna[..12], table)
    ensures Permutations(table, DoctestDna[..12]) == 576
  {
    DoctestDnaPrefix9(table);
    assert |table[DoctestDna[9]]| == 2;
    PermutationsStep(table, DoctestDna, 9);
    assert |table[DoctestDna[10]]| == 3;
    PermutationsStep(table, DoctestDna, 10);
    assert |table[DoctestDna[11]]| == 3;
    PermutationsStep(table, DoctestDna, 11);
  }

  lemma DoctestDnaPrefix15(table: Table)
    requires SymbolCounts(table)
    ensures AllListed(DoctestDna[..15], table)
    ensures Permutations(table, DoctestDna[..15]) == 20736
  {
    DoctestDnaPrefix12(table);
    assert |table[DoctestDna[12]]| == 3;
    PermutationsStep(table, DoctestDna, 12);
    assert |table[DoctestDna[13]]| == 3;
    PermutationsStep(table, DoctestDna, 13);
    assert |table[DoctestDna[14]]| == 4;
    PermutationsStep(table, DoctestDna, 14);
  }

  /**
   * `backtranslate_permutations('ACGTRYSWKMBDHVN', ambiguous_bases_reversed)`
   * and `len(disambiguate('ACGTRYSWKMBDHVN'))` are both 20736, whatever the
   * item order.
   */
  lemma DoctestDisambiguations(items: seq<(set<char>, char)>)
    requires ListsAmbiguousBases(items)
    ensures AllIupac(DoctestDna) && AllListed(DoctestDna, Reversed(items))
    ensures Permutations(Reversed(items), DoctestDna) == 20736
    ensures |Expansions(Reversed(items), DoctestDna)| == 20736
  {
    ReversedSymbolCounts(items);
    DoctestDnaPrefix15(Reversed(items));
    assert DoctestDna[..15] == DoctestDna;
    ExpansionsCount(Reversed(items), DoctestDna);
    assert DoctestDna == IupacSymbols;
  }
}
