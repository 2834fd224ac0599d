/**
 * Step 5 of parser/temp_backtranslate.py: `ambiguous_bases_reversed`, the
 * table from each IUPAC symbol back to the sorted list of bases it stands
 * for, built by walking the items of `ambiguous_bases`. Python 2 yields the
 * items of a dict keyed by frozensets in an order that depends on hashing,
 * so the order is a parameter here, constrained only to list every entry
 * exactly once.
 */
module ReversedBases {
  import opened Common
  import opened AmbiguityCodes

  /** Every character is smaller than every later one. */
  predicate StrictlyIncreasing(s: string)
  {
    forall i, j | 0 <= i < j < |s| :: s[i] < s[j]
  }

  /** The letters every key of `ambiguous_bases` is drawn from, in sorted order. */
  const Alphabet: string := "ACGTU"

  /** The characters of `alphabet` that are in `bases`, each as a one-letter string, in the order of `alphabet`. */
  function LettersIn(alphabet: string, bases: set<char>): seq<string>
  {
    if alphabet == "" then []
    else (if alphabet[0] in bases then [[alphabet[0]]] else []) + LettersIn(alphabet[1..], bases)
  }

  /**
   * Filtering a strictly increasing alphabet by `bases` keeps exactly the
   * letters of `bases`, each once, in increasing order.
   */
  lemma {:induction false} LettersInSorted(alphabet: string, bases: set<char>)
    requires StrictlyIncreasing(alphabet)
    ensures forall i | 0 <= i < |LettersIn(alphabet, bases)| ::
      |LettersIn(alphabet, bases)[i]| == 1 && LettersIn(alphabet, bases)[i][0] in bases && LettersIn(alphabet, bases)[i][0] in alphabet
    ensures forall c | c in alphabet && c in bases :: [c] in LettersIn(alphabet, bases)
    ensures forall i, j | 0 <= i < j < |LettersIn(alphabet, bases)| :: LettersIn(alphabet, bases)[i][0] < LettersIn(alphabet, bases)[j][0]
  {
    if alphabet != "" {
      var rest := LettersIn(alphabet[1..], bases);
      LettersInSorted(alphabet[1..], bases);
      FirstIsSmallest(alphabet, rest);
    }
  }

  lemma FirstIsSmallest(alphabet: string, rest: seq<string>)
    requires StrictlyIncreasing(alphabet) && alphabet != ""
    requires forall i | 0 <= i < |rest| :: |rest[i]| == 1 && rest[i][0] in alphabet[1..]
    ensures forall i | 0 <= i < |rest| :: alphabet[0] < rest[i][0]
  {
    forall i | 0 <= i < |rest| ensures alphabet[0] < rest[i][0] {
      var k :| 0 <= k < |alphabet[1..]| && alphabet[1..][k] == rest[i][0];
      assert alphabet[k + 1] == rest[i][0];
    }
  }

  /**
   * `sorted(list(key))` for a key of `ambiguous_bases`: the letters of the
   * key, each as a one-letter string, in alphabetical order.
   */
  function SortedLetters(bases: set<char>): (letters: seq<string>)
    ensures forall i | 0 <= i < |letters| :: |letters[i]| == 1 && letters[i][0] in bases
    ensures forall c | c in bases && c in Alphabet :: [c] in letters
    ensures forall i, j | 0 <= i < j < |letters| :: letters[i][0] < letters[j][0]
  {
    assert StrictlyIncreasing(Alphabet);
    LettersInSorted(Alphabet, bases);
    LettersIn(Alphabet, bases)
  }

  lemma FirstTwoDiffer(letters: seq<string>)
    requires |letters| > 1 && |letters[0]| > 0 && |letters[1]| > 0
    requires forall i, j | 0 <= i < j < |letters| :: |letters[i]| > 0 && |letters[j]| > 0 && letters[i][0] < letters[j][0]
    ensures letters[0][0] != letters[1][0]
  {
  }

  /** A single letter sorts to the one-element list of itself. */
  lemma SingletonLetters(b: char)
    requires b in Alphabet
    ensures SortedLetters({b}) == [[b]]
  {
    var letters := SortedLetters({b});
    assert [b] in letters;
    if |letters| > 1 {
      FirstTwoDiffer(letters);
      assert false;
    }
    assert letters[0] == [b];
  }

  /** `ambiguous_bases.iteritems()`: every entry of the table exactly once, in some order. */
  predicate ListsAmbiguousBases(items: seq<(set<char>, char)>)
  {
    && (forall i | 0 <= i < |items| :: items[i].0 in AmbiguousBases && AmbiguousBases[items[i].0] == items[i].1)
    && (forall i, j | 0 <= i < j < |items| :: items[i].0 != items[j].0)
    && (forall bases | bases in AmbiguousBases :: exists i :: 0 <= i < |items| && items[i].0 == bases)
  }

  /** The items in the order the source writes the dict literal, one order Python may yield. */
  const SourceOrder: seq<(set<char>, char)> := [
    ({'A'}, 'A'), ({'C'}, 'C'), ({'G'}, 'G'), ({'T'}, 'T'), ({'U'}, 'T'),
    ({'A', 'G'}, 'R'), ({'C', 'T'}, 'Y'), ({'G', 'C'}, 'S'), ({'A', 'T'}, 'W'),
    ({'G', 'T'}, 'K'), ({'A', 'C'}, 'M'), ({'C', 'G', 'T'}, 'B'), ({'A', 'G', 'T'}, 'D'),
    ({'A', 'C', 'T'}, 'H'), ({'A', 'C', 'G'}, 'V'), ({'A', 'C', 'G', 'T'}, 'N')
  ]

  /** The values of `items`, in order. */
  function Values(items: seq<(set<char>, char)>): (values: string)
    ensures |values| == |items|
    ensures forall i | 0 <= i < |items| :: values[i] == items[i].1
  {
    if items == [] then "" else Values(items[..|items| - 1]) + [items[|items| - 1].1]
  }

  /** The index of the last item whose value is `v`, or -1 when there is none. */
  function LastWithValue(items: seq<(set<char>, char)>, v: char): (j: int)
    ensures -1 <= j < |items|
    ensures j == -1 <==> v !in Values(items)
    ensures 0 <= j ==> items[j].1 == v
    ensures forall k | j < k < |items| :: items[k].1 != v
  {
    if items == [] then -1
    else if items[|items| - 1].1 == v then |items| - 1
    else LastWithValue(items[..|items| - 1], v)
  }

  /**
   * `dict((value, sorted(list(key))) for (key, value) in items)`: a later
   * item with the same value replaces the entry of an earlier one.
   */
  function Reversed(items: seq<(set<char>, char)>): (rev: map<char, seq<string>>)
    ensures forall v :: v in rev <==> v in Values(items)
  {
    if items == [] then map[]
    else Reversed(items[..|items| - 1])[items[|items| - 1].1 := SortedLetters(items[|items| - 1].0)]
  }

  /** The entry for `v` comes from the last item whose value is `v`. */
  lemma {:induction false} ReversedTakesLastItem(items: seq<(set<char>, char)>, v: char)
    requires v in Values(items)
    ensures var j := LastWithValue(items, v);
      0 <= j && Reversed(items)[v] == SortedLetters(items[j].0)
  {
    if items[|items| - 1].1 != v {
      ReversedTakesLastItem(items[..|items| - 1], v);
    }
  }

  /** The source's own item order lists every entry of `ambiguous_bases` once. */
  lemma SourceOrderListsAmbiguousBases()
    ensures ListsAmbiguousBases(SourceOrder)
  {
    assert forall i | 0 <= i < |SourceOrder| ::
      SourceOrder[i].0 in AmbiguousBases && AmbiguousBases[SourceOrder[i].0] == SourceOrder[i].1;
    SourceOrderKeysDistinct();
    forall bases | bases in AmbiguousBases
      ensures exists i :: 0 <= i < |SourceOrder| && SourceOrder[i].0 == bases
    {
      SourceOrderHasKey(bases);
    }
  }

  /** A number that tells the subsets of the alphabet apart: one bit per letter. */
  function LetterBits(bases: set<char>): nat
  {
    (if 'A' in bases then 1 else 0) + (if 'C' in bases then 2 else 0) + (if 'G' in bases then 4 else 0)
    + (if 'T' in bases then 8 else 0) + (if 'U' in bases then 16 else 0)
  }

  lemma SourceOrderKeysDistinct()
    ensures forall i, j | 0 <= i < j < |SourceOrder| :: SourceOrder[i].0 != SourceOrder[j].0
  {
    var bits := [1, 2, 4, 8, 16, 5, 10, 6, 9, 12, 3, 14, 13, 11, 7, 15];
    assert forall i | 0 <= i < 16 :: LetterBits(SourceOrder[i].0) == bits[i];
    assert forall i, j | 0 <= i < j < 16 :: bits[i] != bits[j];
  }

  lemma SourceOrderHasKey(bases: set<char>)
    requires bases in AmbiguousBases
    ensures exists i :: 0 <= i < |SourceOrder| && SourceOrder[i].0 == bases
  {
    if 'A' in bases {
      SourceOrderHasKeyWithA(bases);
    } else {
      SourceOrderHasKeyWithoutA(bases);
    }
  }

  lemma SourceOrderHasKeyWithA(bases: set<char>)
    requires bases in AmbiguousBases && 'A' in bases
    ensures exists i :: 0 <= i < |SourceOrder| && SourceOrder[i].0 == bases
  {
    var i: int;
    if bases == {'A'} {
      i := 0;
    } else if bases == {'A', 'G'} {
      i := 5;
    } else if bases == {'A', 'T'} {
      i := 8;
    } else if bases == {'A', 'C'} {
      i := 10;
    } else if bases == {'A', 'G', 'T'} {
      i := 12;
    } else if bases == {'A', 'C', 'T'} {
      i := 13;
    } else if bases == {'A', 'C', 'G'} {
      i := 14;
    } else {
      i := 15;
    }
    assert SourceOrder[i].0 == bases;
  }

  lemma SourceOrderHasKeyWithoutA(bases: set<char>)
    requires bases in AmbiguousBases && 'A' !in bases
    ensures exists i :: 0 <= i < |SourceOrder| && SourceOrder[i].0 == bases
  {
    var i: int;
    if bases == {'C'} {
      i := 1;
    } else if bases == {'G'} {
      i := 2;
    } else if bases == {'T'} {
      i := 3;
    } else if bases == {'U'} {
      i := 4;
    } else if bases == {'C', 'T'} {
      i := 6;
    } else if bases == {'G', 'C'} {
      i := 7;
    } else if bases == {'G', 'T'} {
      i := 9;
    } else {
      i := 11;
    }
    assert SourceOrder[i].0 == bases;
  }

  /** Filtering a strictly increasing alphabet keeps one entry per letter it shares with `bases`. */
  lemma {:induction false} LettersInCount(alphabet: string, bases: set<char>)
    requires StrictlyIncreasing(alphabet)
    ensures |LettersIn(alphabet, bases)| == |set c | c in alphabet && c in bases|
  {
    var shared := set c | c in alphabet && c in bases;
    if alphabet == "" {
      assert shared == {};
    } else {
      LettersInCount(alphabet[1..], bases);
      var rest := set c | c in alphabet[1..] && c in bases;
      assert alphabet[0] !in alphabet[1..];
      if alphabet[0] in bases {
        assert shared == rest + {alphabet[0]};
      } else {
        assert shared == rest;
      }
    }
  }

  /** `sorted(list(key))` has as many entries as the key has letters. */
  lemma SortedLettersCount(bases: set<char>)
    requires forall c | c in bases :: c in Alphabet
    ensures |SortedLetters(bases)| == |bases|
  {
    assert StrictlyIncreasing(Alphabet);
    LettersInCount(Alphabet, bases);
    assert (set c | c in Alphabet && c in bases) == bases;
  }

  /** `frozenset(letters)` for a list of one-letter strings, as a set of characters. */
  function LettersOf(letters: seq<string>): set<char>
  {
    set i | 0 <= i < |letters| && |letters[i]| == 1 :: letters[i][0]
  }

  /** Sorting the letters of a key and collecting them again gives the key back. */
  lemma SortedLettersRoundTrip(bases: set<char>)
    requires forall c | c in bases :: c in Alphabet
    ensures LettersOf(SortedLetters(bases)) == bases
  {
    var letters := SortedLetters(bases);
    forall c | c in bases ensures c in LettersOf(letters) {
      var i :| 0 <= i < |letters| && letters[i] == [c];
    }
  }

  /** Every key of `ambiguous_bases` is made of letters of the alphabet. */
  lemma KeyLetters(bases: set<char>)
    requires bases in AmbiguousBases
    ensures forall c | c in bases :: c in Alphabet
  {
    AmbiguousBasesInverse(bases, AmbiguousBases[bases]);
  }

  /**
   * Whatever order the items come in, `ambiguous_bases_reversed` has an
   * entry for exactly the fifteen IUPAC symbols; `ambiguous_bases` maps the
   * letters of each entry back to its symbol; every symbol other than 'T'
   * maps to the sorted bases it stands for; and 'T' maps to ['T'] or to
   * ['U'], whichever of `{'T'}` and `{'U'}` comes later.
   */
  lemma ReversedTableMeaning(items: seq<(set<char>, char)>)
    requires ListsAmbiguousBases(items)
    ensures forall s :: s in Reversed(items) <==> s in IupacSymbols
    ensures forall s | s in Reversed(items) ::
      LettersOf(Reversed(items)[s]) in AmbiguousBases && AmbiguousBases[LettersOf(Reversed(items)[s])] == s
    ensures forall s | s in Reversed(items) && s != 'T' :: Reversed(items)[s] == SortedLetters(IupacBases(s))
    ensures 'T' in Reversed(items) && (Reversed(items)['T'] == ["T"] || Reversed(items)['T'] == ["U"])
  {
    var rev := Reversed(items);
    forall s | s in rev
      ensures s in IupacSymbols
    {
      var i :| 0 <= i < |items| && Values(items)[i] == s;
      AmbiguousBasesInverse(items[i].0, s);
    }
    forall s | s in IupacSymbols
      ensures s in rev && LettersOf(rev[s]) in AmbiguousBases && AmbiguousBases[LettersOf(rev[s])] == s
      ensures s != 'T' ==> rev[s] == SortedLetters(IupacBases(s))
    {
      var key := SymbolEntry(items, s);
      AmbiguousBasesInverse(key, s);
      KeyLetters(key);
      SortedLettersRoundTrip(key);
    }
    var key := SymbolEntry(items, 'T');
    KeysOfT(key);
    SortedSingleton(key);
  }

  /** `items` with the items at `k` and `k + 1` exchanged: another order Python may yield. */
  function Swap(items: seq<(set<char>, char)>, k: nat): (swapped: seq<(set<char>, char)>)
    requires k + 1 < |items|
    ensures |swapped| == |items|
    ensures swapped[k] == items[k + 1] && swapped[k + 1] == items[k]
    ensures forall i | 0 <= i < |items| && i != k && i != k + 1 :: swapped[i] == items[i]
  {
    items[..k] + [items[k + 1], items[k]] + items[k + 2..]
  }

  /** Exchanging two neighbouring items still lists every entry of `ambiguous_bases` once. */
  lemma SwapKeepsListing(items: seq<(set<char>, char)>, k: nat)
    requires ListsAmbiguousBases(items) && k + 1 < |items|
    ensures ListsAmbiguousBases(Swap(items, k))
  {
    SwapKeepsEntries(items, k, AmbiguousBases);
  }

  /** The same for a listing of any map: the entries, their distinctness and their coverage survive the exchange. */
  lemma SwapKeepsEntries(items: seq<(set<char>, char)>, k: nat, m: map<set<char>, char>)
    requires k + 1 < |items|
    requires forall i | 0 <= i < |items| :: items[i].0 in m && m[items[i].0] == items[i].1
    requires forall i, j | 0 <= i < j < |items| :: items[i].0 != items[j].0
    requires forall bases | bases in m :: exists i :: 0 <= i < |items| && items[i].0 == bases
    ensures var swapped := Swap(items, k);
      && (forall i | 0 <= i < |swapped| :: swapped[i].0 in m && m[swapped[i].0] == swapped[i].1)
      && (forall i, j | 0 <= i < j < |swapped| :: swapped[i].0 != swapped[j].0)
      && (forall bases | bases in m :: exists i :: 0 <= i < |swapped| && swapped[i].0 == bases)
  {
    var swapped := Swap(items, k);
    assert forall i | 0 <= i < |items| :: swapped[i] == items[SwapSource(k, i)];
    forall i, j | 0 <= i < j < |swapped|
      ensures swapped[i].0 != swapped[j].0
    {
      var p, q := SwapSource(k, i), SwapSource(k, j);
      if p < q {
        assert items[p].0 != items[q].0;
      } else {
        assert items[q].0 != items[p].0;
      }
    }
    forall bases | bases in m
      ensures exists i :: 0 <= i < |swapped| && swapped[i].0 == bases
    {
      var j :| 0 <= j < |items| && items[j].0 == bases;
      assert swapped[SwapSource(k, j)].0 == bases;
    }
  }

  /** The position in `items` of the item `Swap(items, k)` holds at `i`. */
  function SwapSource(k: nat, i: nat): nat
  {
    if i == k then k + 1 else if i == k + 1 then k else i
  }

  /** An item carrying `v` with none after it gives the entry of `v`. */
  lemma ReversedOfLast(items: seq<(set<char>, char)>, v: char, j: nat)
    requires j < |items| && items[j].1 == v
    requires forall k | j < k < |items| :: items[k].1 != v
    ensures v in Reversed(items) && Reversed(items)[v] == SortedLetters(items[j].0)
  {
    LastWithValueAt(items, v, j);
    assert Values(items)[j] == v;
    ReversedTakesLastItem(items, v);
  }

  /** An item carrying `v` with none after it is the last one. */
  lemma LastWithValueAt(items: seq<(set<char>, char)>, v: char, j: nat)
    requires j < |items| && items[j].1 == v
    requires forall k | j < k < |items| :: items[k].1 != v
    ensures LastWithValue(items, v) == j
  {
    assert Values(items)[j] == v;
  }

  /**
   * In any listing, 'T' maps to ['U'] when `{'U'}` comes after `{'T'}` and
   * to ['T'] otherwise: the later of the two items wins.
   */
  lemma ReversedTFollowsOrder(items: seq<(set<char>, char)>, i: nat, j: nat)
    requires ListsAmbiguousBases(items) && i < |items| && j < |items|
    requires items[i].0 == {'T'} && items[j].0 == {'U'}
    ensures 'T' in Reversed(items)
    ensures Reversed(items)['T'] == (if i < j then ["U"] else ["T"])
  {
    TAndUMapToT();
    if i < j {
      NoLaterT(items, i, j, j);
      ReversedOfLast(items, 'T', j);
      SingletonLetters('U');
    } else {
      NoLaterT(items, i, j, i);
      ReversedOfLast(items, 'T', i);
      SingletonLetters('T');
    }
  }

  lemma TAndUMapToT()
    ensures {'T'} in AmbiguousBases && AmbiguousBases[{'T'}] == 'T'
    ensures {'U'} in AmbiguousBases && AmbiguousBases[{'U'}] == 'T'
  {
  }

  /** After both `{'T'}` and `{'U'}`, no item carries 'T'. */
  lemma NoLaterT(items: seq<(set<char>, char)>, i: nat, j: nat, last: nat)
    requires ListsAmbiguousBases(items) && i < |items| && j < |items|
    requires items[i].0 == {'T'} && items[j].0 == {'U'} && i <= last && j <= last
    ensures forall k | last < k < |items| :: items[k].1 != 'T'
  {
    forall k | last < k < |items|
      ensures items[k].1 != 'T'
    {
      assert items[k].0 != items[i].0 && items[k].0 != items[j].0;
      if items[k].1 == 'T' {
        KeysOfT(items[k].0);
      }
    }
  }

  /**
   * Both outcomes occur: the order the literal is written lists `{'T'}`
   * before `{'U'}`, and exchanging those two items gives another listing
   * with `{'U'}` first.
   */
  lemma BothOrdersOfT()
    ensures ListsAmbiguousBases(SourceOrder) && SourceOrder[3].0 == {'T'} && SourceOrder[4].0 == {'U'}
    ensures ListsAmbiguousBases(Swap(SourceOrder, 3)) && Swap(SourceOrder, 3)[4].0 == {'T'} && Swap(SourceOrder, 3)[3].0 == {'U'}
  {
    SourceOrderListsAmbiguousBases();
    SwapKeepsListing(SourceOrder, 3);
    SourceOrderPlacesT();
    var swapped := Swap(SourceOrder, 3);
    assert swapped[4] == SourceOrder[3] && swapped[3] == SourceOrder[4];
  }

  lemma SourceOrderPlacesT()
    ensures SourceOrder[3].0 == {'T'} && SourceOrder[4].0 == {'U'}
  {
  }

  /** Hence `rev['T']` is ['U'] for the literal's own order and ['T'] for the other. */
  lemma ReversedTDependsOnOrder()
    ensures 'T' in Reversed(SourceOrder) && Reversed(SourceOrder)['T'] == ["U"]
    ensures 'T' in Reversed(Swap(SourceOrder, 3)) && Reversed(Swap(SourceOrder, 3))['T'] == ["T"]
  {
    BothOrdersOfT();
    ReversedTFollowsOrder(SourceOrder, 3, 4);
    ReversedTFollowsOrder(Swap(SourceOrder, 3), 4, 3);
  }

  /** The entry for a symbol is the sorted letters of a key `ambiguous_bases` maps to it. */
  lemma SymbolEntry(items: seq<(set<char>, char)>, s: char) returns (key: set<char>)
    requires ListsAmbiguousBases(items) && s in IupacSymbols
    ensures key in AmbiguousBases && AmbiguousBases[key] == s
    ensures s in Reversed(items) && Reversed(items)[s] == SortedLetters(key)
  {
    SymbolHasEntry(s);
    ValueListed(items, IupacBases(s), s);
    key := EntryKey(items, s);
  }

  /** Two keys of `ambiguous_bases` map to 'T'. */
  lemma KeysOfT(key: set<char>)
    requires key in AmbiguousBases && AmbiguousBases[key] == 'T'
    ensures key == {'T'} || key == {'U'}
  {
    AmbiguousBasesInverse(key, 'T');
  }

  lemma SortedSingleton(key: set<char>)
    requires key == {'T'} || key == {'U'}
    ensures SortedLetters(key) == ["T"] || SortedLetters(key) == ["U"]
  {
    var b :| b in key;
    assert key == {b};
    SingletonLetters(b);
  }

  /** A value of an entry of `ambiguous_bases` is a value of every listing of it. */
  lemma ValueListed(items: seq<(set<char>, char)>, bases: set<char>, s: char)
    requires ListsAmbiguousBases(items) && bases in AmbiguousBases && AmbiguousBases[bases] == s
    ensures s in Values(items)
  {
    var i :| 0 <= i < |items| && items[i].0 == bases;
    assert Values(items)[i] == s;
  }

  /** The entry for `s` is the sorted letters of a key `ambiguous_bases` maps to `s`. */
  lemma EntryKey(items: seq<(set<char>, char)>, s: char) returns (key: set<char>)
    requires ListsAmbiguousBases(items) && s in Values(items)
    ensures key in AmbiguousBases && AmbiguousBases[key] == s
    ensures s in Reversed(items) && Reversed(items)[s] == SortedLetters(key)
  {
    ReversedTakesLastItem(items, s);
    key := items[LastWithValue(items, s)].0;
  }
}
