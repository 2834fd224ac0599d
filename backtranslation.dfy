/**
 * `backtranslate_permutations` and `backtranslate` from
 * parser/temp_backtranslate.py: for a protein and a table from residues to
 * lists of codons, the number of nucleotide sequences that encode it, and
 * the sequences themselves. The table is any map from characters to lists
 * of strings, which is how the source reuses both functions for the
 * ambiguous codon table and for `disambiguate`.
 */
module Backtranslation {
  import opened Common

  type Table = map<char, seq<string>>

  /** Every residue of `protein` has an entry in `table`. */
  predicate AllListed(protein: string, table: Table)
  {
    forall i | 0 <= i < |protein| :: protein[i] in table
  }

  /** The product of the lengths of the lists of the residues of `protein`. */
  function Permutations(table: Table, protein: string): nat
    requires AllListed(protein, table)
  {
    if protein == [] then 1
    else Permutations(table, protein[..|protein| - 1]) * |table[protein[|protein| - 1]]|
  }

  /** `sequence + codon` for every sequence of `sequences`, in order. */
  function Appended(sequences: seq<string>, codon: string): (r: seq<string>)
    ensures |r| == |sequences|
    ensures forall i | 0 <= i < |sequences| :: r[i] == sequences[i] + codon
  {
    seq(|sequences|, i requires 0 <= i < |sequences| => sequences[i] + codon)
  }

  /**
   * One round of the outer loop of `backtranslate`: for each codon in turn,
   * every sequence so far extended by that codon.
   */
  function Extend(sequences: seq<string>, codons: seq<string>): (r: seq<string>)
    ensures |r| == |sequences| * |codons|
  {
    if codons == [] then []
    else Extend(sequences, codons[..|codons| - 1]) + Appended(sequences, codons[|codons| - 1])
  }

  /** In `Extend`, the sequence index varies fastest: position `j * N + i` holds sequence `i` with codon `j`. */
  lemma {:induction false} ExtendOrder(sequences: seq<string>, codons: seq<string>, j: nat, i: nat)
    requires j < |codons| && i < |sequences|
    ensures j * |sequences| + i < |Extend(sequences, codons)|
    ensures Extend(sequences, codons)[j * |sequences| + i] == sequences[i] + codons[j]
  {
    var n := |codons| - 1;
    var init := Extend(sequences, codons[..n]);
    if j < n {
      ExtendOrder(sequences, codons[..n], j, i);
      MulLess(j, n, |sequences|, i);
    } else {
      assert j * |sequences| == |init|;
    }
  }

  /**
   * The list `backtranslate` builds: all ways to pick one codon per
   * residue, joined; earlier residues vary fastest. The empty protein has
   * the one empty sequence (the source never reaches this case: it fails
   * on `protein[0]` first).
   */
  function Expansions(table: Table, protein: string): seq<string>
    requires AllListed(protein, table)
  {
    if protein == [] then [""]
    else Extend(Expansions(table, protein[..|protein| - 1]), table[protein[|protein| - 1]])
  }

  /** One more residue multiplies the count by the length of its list. */
  lemma PermutationsStep(table: Table, protein: string, k: nat)
    requires k < |protein| && AllListed(protein[..k], table) && protein[k] in table
    ensures AllListed(protein[..k + 1], table)
    ensures Permutations(table, protein[..k + 1]) == Permutations(table, protein[..k]) * |table[protein[k]]|
  {
    assert protein[..k + 1][..k] == protein[..k];
  }

  /** One more residue is one more round of `Extend`. */
  lemma ExpansionsStep(table: Table, protein: string, k: nat)
    requires k < |protein| && AllListed(protein[..k], table) && protein[k] in table
    ensures AllListed(protein[..k + 1], table)
    ensures Expansions(table, protein[..k + 1]) == Extend(Expansions(table, protein[..k]), table[protein[k]])
  {
    assert protein[..k + 1][..k] == protein[..k];
  }

  /** The number of back-translations is the product of the list lengths. */
  lemma {:induction false} ExpansionsCount(table: Table, protein: string)
    requires AllListed(protein, table)
    ensures |Expansions(table, protein)| == Permutations(table, protein)
  {
    if protein != [] {
      ExpansionsCount(table, protein[..|protein| - 1]);
    }
  }

  /**
   * The order of `backtranslate`: appending a residue puts, at position
   * `j * N + i`, the `i`-th sequence of the shorter protein followed by
   * the `j`-th codon of the new residue, where N is the number of
   * sequences of the shorter protein.
   */
  lemma ExpansionsOrder(table: Table, protein: string, a: char, i: nat, j: nat)
    requires AllListed(protein, table) && a in table
    requires i < |Expansions(table, protein)| && j < |table[a]|
    ensures AllListed(protein + [a], table)
    ensures var n := |Expansions(table, protein)|;
      j * n + i < |Expansions(table, protein + [a])|
      && Expansions(table, protein + [a])[j * n + i] == Expansions(table, protein)[i] + table[a][j]
  {
    assert (protein + [a])[..|protein|] == protein;
    ExtendOrder(Expansions(table, protein), table[a], j, i);
  }

  /** `codons` picks, for each residue of `protein`, one of the codons listed for it. */
  predicate Picks(table: Table, protein: string, codons: seq<string>)
  {
    |codons| == |protein| && forall i | 0 <= i < |protein| :: protein[i] in table && codons[i] in table[protein[i]]
  }

  /** The members of `Extend(sequences, codons)` are the sequences each followed by one of the codons. */
  lemma {:induction false} ExtendMembership(sequences: seq<string>, codons: seq<string>, x: string)
    ensures x in Extend(sequences, codons) <==> exists s, c :: s in sequences && c in codons && x == s + c
  {
    if codons != [] {
      var init, last := codons[..|codons| - 1], codons[|codons| - 1];
      ExtendMembership(sequences, init, x);
      if x in Extend(sequences, codons) && x !in Extend(sequences, init) {
        var i :| 0 <= i < |sequences| && Appended(sequences, last)[i] == x;
        assert sequences[i] in sequences && last in codons;
      }
      if exists s, c :: s in sequences && c in codons && x == s + c {
        var s, c :| s in sequences && c in codons && x == s + c;
        if c == last {
          var i :| 0 <= i < |sequences| && sequences[i] == s;
          assert Appended(sequences, last)[i] == x;
        } else {
          assert c in init;
        }
      }
    }
  }

  /**
   * A string is a back-translation of `protein` exactly when it is the
   * concatenation of one listed codon per residue, in residue order.
   */
  lemma ExpansionsMembership(table: Table, protein: string, x: string)
    requires AllListed(protein, table)
    ensures x in Expansions(table, protein) <==> exists codons :: Picks(table, protein, codons) && x == Concat(codons)
  {
    if x in Expansions(table, protein) {
      var codons := ExpansionPicks(table, protein, x);
    }
    if exists codons :: Picks(table, protein, codons) && x == Concat(codons) {
      var codons :| Picks(table, protein, codons) && x == Concat(codons);
      PicksExpand(table, protein, codons);
    }
  }

  /** Every back-translation is the concatenation of a choice of codons. */
  lemma {:induction false} ExpansionPicks(table: Table, protein: string, x: string) returns (codons: seq<string>)
    requires AllListed(protein, table) && x in Expansions(table, protein)
    ensures Picks(table, protein, codons) && x == Concat(codons)
  {
    if protein == [] {
      codons := [];
    } else {
      var n := |protein| - 1;
      var init, a := protein[..n], protein[n];
      var shorter := Expansions(table, init);
      ExtendMembership(shorter, table[a], x);
      var s, c :| s in shorter && c in table[a] && x == s + c;
      var prefix := ExpansionPicks(table, init, s);
      codons := prefix + [c];
      assert codons[..n] == prefix;
    }
  }

  /** Every choice of codons, concatenated, is a back-translation. */
  lemma {:induction false} PicksExpand(table: Table, protein: string, codons: seq<string>)
    requires AllListed(protein, table) && Picks(table, protein, codons)
    ensures Concat(codons) in Expansions(table, protein)
  {
    if protein != [] {
      var n := |protein| - 1;
      var init, a := protein[..n], protein[n];
      assert Picks(table, init, codons[..n]);
      PicksExpand(table, init, codons[..n]);
      ExtendMembership(Expansions(table, init), table[a], Concat(codons));
    }
  }

  /** Every entry of every list of `table` has length `w`. */
  predicate UniformWidth(table: Table, w: nat)
  {
    forall aa, k | aa in table && 0 <= k < |table[aa]| :: |table[aa][k]| == w
  }

  /** With codons of one width, every back-translation has that many characters per residue. */
  lemma ExpansionLength(table: Table, w: nat, protein: string, x: string)
    requires AllListed(protein, table) && UniformWidth(table, w) && x in Expansions(table, protein)
    ensures |x| == w * |protein|
  {
    var codons := ExpansionPicks(table, protein, x);
    ConcatUniformLength(codons, w);
  }

  /**
   * When every entry of `table` is one character long, a back-translation is
   * a string with one character per residue, each listed for that residue.
   */
  lemma SingletonExpansions(table: Table, protein: string, x: string)
    requires AllListed(protein, table) && UniformWidth(table, 1)
    ensures x in Expansions(table, protein) <==>
      |x| == |protein| && forall i | 0 <= i < |protein| :: [x[i]] in table[protein[i]]
  {
    ExpansionsMembership(table, protein, x);
    if x in Expansions(table, protein) {
      var codons :| Picks(table, protein, codons) && x == Concat(codons);
      ConcatSingletons(codons);
      forall i | 0 <= i < |protein| ensures [x[i]] in table[protein[i]] {
        assert codons[i] == [codons[i][0]];
      }
    }
    if |x| == |protein| && forall i | 0 <= i < |protein| :: [x[i]] in table[protein[i]] {
      var codons := seq(|x|, i requires 0 <= i < |x| => [x[i]]);
      assert Picks(table, protein, codons);
      ConcatSingletons(codons);
      assert Concat(codons) == x;
    }
  }

  /**
   * `backtranslate_permutations`: multiply the number of codons of each
   * residue into an accumulator; a residue without an entry raises
   * `KeyError`.
   */
  method BacktranslatePermutations(protein: string, table: Table) returns (r: Result<nat>)
    ensures AllListed(protein, table) ==> r == Ok(Permutations(table, protein))
    ensures !AllListed(protein, table) ==> r == Raise(KeyError)
  {
    var permutations := 1;
    for k := 0 to |protein|
      invariant AllListed(protein[..k], table)
      invariant permutations == Permutations(table, protein[..k])
    {
      var aminoAcid := protein[k];
      if aminoAcid !in table {
        return Raise(KeyError);
      }
      assert protein[..k + 1][..k] == protein[..k];
      permutations := permutations * |table[aminoAcid]|;
    }
    assert protein[..|protein|] == protein;
    return Ok(permutations);
  }

  /**
   * `backtranslate`: start from the codons of the first residue, then for
   * each further residue replace the list by every codon of that residue
   * appended to every sequence so far, codon by codon. An empty protein
   * raises `IndexError` at `protein[0]`; a residue without an entry raises
   * `KeyError`.
   */
  method Backtranslate(protein: string, table: Table) returns (r: Result<seq<string>>)
    ensures protein == [] ==> r == Raise(IndexError)
    ensures protein != [] && !AllListed(protein, table) ==> r == Raise(KeyError)
    ensures protein != [] && AllListed(protein, table) ==> r == Ok(Expansions(table, protein))
  {
    if |protein| == 0 {
      return Raise(IndexError);
    }
    if protein[0] !in table {
      return Raise(KeyError);
    }
    var sequences := table[protein[0]];
    FirstExpansions(table, protein);
    for k := 1 to |protein|
      invariant AllListed(protein[..k], table)
      invariant sequences == Expansions(table, protein[..k])
    {
      var aminoAcid := protein[k];
      if aminoAcid !in table {
        return Raise(KeyError);
      }
      ExpansionsStep(table, protein, k);
      sequences := ExtendSequences(sequences, table[aminoAcid]);
    }
    assert protein[..|protein|] == protein;
    return Ok(sequences);
  }

  /**
   * The body of the outer loop of `backtranslate`: for each codon, append
   * every sequence of `toExtend` followed by that codon.
   */
  method ExtendSequences(toExtend: seq<string>, codons: seq<string>) returns (sequences: seq<string>)
    ensures sequences == Extend(toExtend, codons)
  {
    sequences := [];
    for j := 0 to |codons|
      invariant sequences == Extend(toExtend, codons[..j])
    {
      var codon := codons[j];
      for i := 0 to |toExtend|
        invariant sequences == Extend(toExtend, codons[..j]) + Appended(toExtend[..i], codon)
      {
        sequences := sequences + [toExtend[i] + codon];
      }
      assert codons[..j + 1][..j] == codons[..j] && toExtend[..|toExtend|] == toExtend;
    }
    assert codons[..|codons|] == codons;
  }

  /** The list the source starts from, the codons of the first residue, is the back-translation of that residue alone. */
  lemma FirstExpansions(table: Table, protein: string)
    requires protein != [] && protein[0] in table
    ensures AllListed(protein[..1], table)
    ensures Expansions(table, protein[..1]) == table[protein[0]]
  {
    var codons := table[protein[0]];
    assert protein[..1][..0] == [];
    ExtendSingle(codons);
  }

  /** Extending the one empty sequence by a list of codons gives the list back. */
  lemma {:induction false} ExtendSingle(codons: seq<string>)
    ensures Extend([""], codons) == codons
  {
    if codons != [] {
      ExtendSingle(codons[..|codons| - 1]);
      var last := codons[|codons| - 1];
      assert Appended([""], last)[0] == "" + last == last;
      assert codons == codons[..|codons| - 1] + [last];
    }
  }
}
