/**
 * The back-translation and windowing helpers of the plotting module, in
 * both revisions (src/main/python/viz.py and viz.py): inverting a forward
 * codon table, `naive_backtranslate`, locating a peptide's coding sequence
 * with `get_peptide_index`, `ngrams` and `make_trigrams`. The forward table
 * is a parameter: the items of a dict from codons to amino acids, in the
 * order the dict yields them.
 */
module Viz {
  import opened Common

  /** The items of a forward codon table, in iteration order: (codon, amino acid). */
  type ForwardTable = seq<(string, char)>

  /** The amino acids of the items, in order. */
  function Aminos(forward: ForwardTable): (aminos: string)
    ensures |aminos| == |forward|
    ensures forall i | 0 <= i < |forward| :: aminos[i] == forward[i].1
  {
    if forward == [] then [] else Aminos(forward[..|forward| - 1]) + [forward[|forward| - 1].1]
  }

  /** The codons the table maps to `amino`, in iteration order. */
  function Preimage(forward: ForwardTable, amino: char): seq<string>
  {
    if forward == [] then []
    else
      var last := forward[|forward| - 1];
      Preimage(forward[..|forward| - 1], amino) + (if last.1 == amino then [last.0] else [])
  }

  /** A codon is listed for `amino` exactly when the table maps it to `amino`; an amino acid no codon maps to has an empty list. */
  lemma {:induction false} PreimageMembership(forward: ForwardTable, amino: char, codon: string)
    ensures codon in Preimage(forward, amino) <==> (codon, amino) in forward
    ensures amino !in Aminos(forward) ==> Preimage(forward, amino) == []
  {
    if forward != [] {
      var init := forward[..|forward| - 1];
      PreimageMembership(init, amino, codon);
      assert forward == init + [forward[|forward| - 1]];
    }
  }

  /** No codon is listed twice for an amino acid when the table has no repeated codon (dict keys are unique). */
  lemma {:induction false} PreimageDistinct(forward: ForwardTable, amino: char)
    requires forall i, j | 0 <= i < j < |forward| :: forward[i].0 != forward[j].0
    ensures Distinct(Preimage(forward, amino))
  {
    if forward != [] {
      var init := forward[..|forward| - 1];
      var last := forward[|forward| - 1];
      PreimageDistinct(init, amino);
      if last.1 == amino {
        PreimageMembership(init, amino, last.0);
      }
    }
  }

  /** The total length of the lists of `aminos`. */
  function ListedCodons(forward: ForwardTable, aminos: string): nat
  {
    if aminos == [] then 0 else ListedCodons(forward, aminos[..|aminos| - 1]) + |Preimage(forward, aminos[|aminos| - 1])|
  }

  lemma {:induction false} ListedCodonsStep(forward: ForwardTable, item: (string, char), aminos: string)
    ensures ListedCodons(forward + [item], aminos) == ListedCodons(forward, aminos) + Occurrences(aminos, item.1)
  {
    var extended := forward + [item];
    assert extended[..|extended| - 1] == forward;
    if aminos != [] {
      ListedCodonsStep(forward, item, aminos[..|aminos| - 1]);
    }
  }

  /**
   * Every item lands in exactly one list: over any list of amino acids that
   * names each produced amino acid once, the lists' lengths add up to the
   * number of items.
   */
  lemma {:induction false} PreimagesPartition(forward: ForwardTable, aminos: string)
    requires Distinct(aminos) && forall i | 0 <= i < |forward| :: forward[i].1 in aminos
    ensures ListedCodons(forward, aminos) == |forward|
  {
    if forward == [] {
      ListedCodonsNone(aminos);
    } else {
      var init, last := forward[..|forward| - 1], forward[|forward| - 1];
      PreimagesPartition(init, aminos);
      assert forward == init + [last];
      ListedCodonsStep(init, last, aminos);
      OccurrencesOfDistinct(aminos, last.1);
    }
  }

  lemma {:induction false} ListedCodonsNone(aminos: string)
    ensures ListedCodons([], aminos) == 0
  {
    if aminos != [] {
      ListedCodonsNone(aminos[..|aminos| - 1]);
    }
  }

  /**
   * The loop of `naive_backtranslate` that fills `back_table`: each codon is
   * appended to the list of its amino acid, a list being started the first
   * time an amino acid is seen.
   */
  method BuildBackTable(forward: ForwardTable) returns (back: map<char, seq<string>>)
    ensures forall a :: a in back <==> a in Aminos(forward)
    ensures forall a | a in back :: back[a] == Preimage(forward, a)
  {
    back := map[];
    for i := 0 to |forward|
      invariant forall a :: a in back <==> a in Aminos(forward[..i])
      invariant forall a | a in back :: back[a] == Preimage(forward[..i], a)
    {
      var (codon, amino) := forward[i];
      forall a
        ensures Preimage(forward[..i + 1], a) == Preimage(forward[..i], a) + (if amino == a then [codon] else [])
        ensures a in Aminos(forward[..i + 1]) <==> a in Aminos(forward[..i]) || a == amino
      {
        ItemStep(forward, i, a);
      }
      if amino !in back {
        PreimageMembership(forward[..i], amino, codon);
        back := back[amino := [codon]];
      } else {
        back := back[amino := back[amino] + [codon]];
      }
    }
    assert forward[..|forward|] == forward;
  }

  /** Taking one more item extends the list of its amino acid by its codon and leaves the other lists alone. */
  lemma ItemStep(forward: ForwardTable, i: nat, a: char)
    requires i < |forward|
    ensures Preimage(forward[..i + 1], a) == Preimage(forward[..i], a) + (if forward[i].1 == a then [forward[i].0] else [])
    ensures a in Aminos(forward[..i + 1]) <==> a in Aminos(forward[..i]) || a == forward[i].1
  {
    assert forward[..i + 1][..i] == forward[..i];
  }

  /** Every residue of `protein` is an amino acid the table produces. */
  predicate AllProduced(protein: string, forward: ForwardTable)
  {
    forall i | 0 <= i < |protein| :: protein[i] in Aminos(forward)
  }

  /** The codon lists `naive_backtranslate` returns: one per residue. */
  function BackLists(protein: string, forward: ForwardTable): (lists: seq<seq<string>>)
    ensures |lists| == |protein|
  {
    seq(|protein|, i requires 0 <= i < |protein| => Preimage(forward, protein[i]))
  }

  /**
   * `naive_backtranslate(seq_object)`: invert the table, then look each
   * residue up; a residue the table does not produce raises `KeyError`.
   */
  method NaiveBacktranslate(protein: string, forward: ForwardTable) returns (r: Result<seq<seq<string>>>)
    ensures AllProduced(protein, forward) ==> r == Ok(BackLists(protein, forward))
    ensures !AllProduced(protein, forward) ==> r == Raise(KeyError)
  {
    var back := BuildBackTable(forward);
    if exists i | 0 <= i < |protein| :: protein[i] !in back {
      return Raise(KeyError);
    }
    var lists := seq(|protein|, i requires 0 <= i < |protein| => back[protein[i]]);
    assert lists == BackLists(protein, forward);
    return Ok(lists);
  }

  /**
   * Where Python puts a slice bound `i` in a sequence of length `len`: a
   * negative bound counts from the end, and the result is clamped to
   * `0..len`.
   */
  function PyBound(len: nat, i: int): (p: nat)
    ensures p <= len
    ensures 0 <= i <= len ==> p == i
    ensures len < i ==> p == len
    ensures i < 0 && 0 <= len + i ==> p == len + i
    ensures len + i < 0 ==> p == 0
  {
    if i < 0 then (if len + i < 0 then 0 else len + i) else (if i > len then len else i)
  }

  /** `s[:n]` with Python's slice rules: a negative `n` counts from the end, and `n` is clamped. */
  function PyPrefix<T>(s: seq<T>, n: int): (prefix: seq<T>)
    ensures |prefix| <= |s| && prefix == s[..|prefix|]
    ensures |prefix| == PyBound(|s|, n)
    ensures 0 <= n <= |s| ==> |prefix| == n
    ensures n < 0 && -n <= |s| ==> |prefix| == |s| + n
    ensures n > |s| ==> prefix == s
    ensures n + |s| < 0 ==> prefix == []
  {
    s[..PyBound(|s|, n)]
  }

  /** Every prefix in turn, followed by every entry of `last` in turn. */
  function Attach(prefixes: seq<seq<string>>, last: seq<string>): (r: seq<seq<string>>)
    ensures |r| == |prefixes| * |last|
  {
    if prefixes == [] then []
    else
      var p := prefixes[|prefixes| - 1];
      Attach(prefixes[..|prefixes| - 1], last) + Row(p, last)
  }

  /** `list(itertools.product(*lists))`: every choice of one entry per list, as a tuple. */
  function Product(lists: seq<seq<string>>): seq<seq<string>>
  {
    if lists == [] then [[]] else Attach(Product(lists[..|lists| - 1]), lists[|lists| - 1])
  }

  /** In `product`, the last position varies fastest: position `k * N + j` holds prefix `k` followed by entry `j`. */
  lemma {:induction false} AttachOrder(prefixes: seq<seq<string>>, last: seq<string>, k: nat, j: nat)
    requires k < |prefixes| && j < |last|
    ensures k * |last| + j < |Attach(prefixes, last)|
    ensures Attach(prefixes, last)[k * |last| + j] == prefixes[k] + [last[j]]
  {
    var n := |prefixes| - 1;
    var init := Attach(prefixes[..n], last);
    if k < n {
      AttachOrder(prefixes[..n], last, k, j);
      MulLess(k, n, |last|, j);
    } else {
      assert k * |last| == |init|;
    }
  }

  /** Prefix `p` followed by each entry of `last`: one row of `Attach`. */
  function Row(p: seq<string>, last: seq<string>): (row: seq<seq<string>>)
    ensures |row| == |last|
    ensures forall j | 0 <= j < |last| :: row[j] == p + [last[j]]
  {
    seq(|last|, j requires 0 <= j < |last| => p + [last[j]])
  }

  /** Every entry of `Attach` is one of the prefixes followed by an entry of `last`. */
  lemma {:induction false} AttachFrom(prefixes: seq<seq<string>>, last: seq<string>, x: seq<string>)
    requires x in Attach(prefixes, last)
    ensures |x| >= 1 && x[..|x| - 1] in prefixes && x[|x| - 1] in last
  {
    var n := |prefixes| - 1;
    if x in Attach(prefixes[..n], last) {
      AttachFrom(prefixes[..n], last, x);
    } else {
      var j :| 0 <= j < |last| && Row(prefixes[n], last)[j] == x;
      assert x[..|x| - 1] == prefixes[n];
    }
  }

  /** `Attach` holds exactly the prefixes followed by an entry of `last`. */
  lemma AttachMembership(prefixes: seq<seq<string>>, last: seq<string>, x: seq<string>)
    ensures x in Attach(prefixes, last) <==> |x| >= 1 && x[..|x| - 1] in prefixes && x[|x| - 1] in last
  {
    if x in Attach(prefixes, last) {
      AttachFrom(prefixes, last, x);
    }
    if |x| >= 1 && x[..|x| - 1] in prefixes && x[|x| - 1] in last {
      var k :| 0 <= k < |prefixes| && prefixes[k] == x[..|x| - 1];
      var j :| 0 <= j < |last| && last[j] == x[|x| - 1];
      AttachOrder(prefixes, last, k, j);
      assert x == prefixes[k] + [last[j]];
    }
  }

  /** The tuples of `product(*lists)` are exactly the tuples with one entry from each list. */
  lemma {:induction false} ProductMembership(lists: seq<seq<string>>, x: seq<string>)
    ensures x in Product(lists) <==> |x| == |lists| && forall i | 0 <= i < |lists| :: x[i] in lists[i]
  {
    if lists != [] {
      var n := |lists| - 1;
      var init := lists[..n];
      AttachMembership(Product(init), lists[n], x);
      if |x| >= 1 {
        ProductMembership(init, x[..|x| - 1]);
      }
    }
  }

  /** `text.find(pattern)` from position `start` on: the leftmost occurrence at or after `start`. */
  function FindFrom(text: string, pattern: string, start: nat): (r: Option<nat>)
    ensures r.Some? ==> start <= r.value && OccursAt(text, pattern, r.value)
    ensures r.Some? ==> forall j | start <= j < r.value :: !OccursAt(text, pattern, j)
    ensures r.None? ==> forall j: nat | start <= j :: !OccursAt(text, pattern, j)
    decreases |text| - start
  {
    if start + |pattern| > |text| then None
    else if text[start..start + |pattern|] == pattern then Some(start)
    else FindFrom(text, pattern, start + 1)
  }

  /** `text.index(pattern)`, with `None` where it raises `ValueError`: the leftmost occurrence. */
  function Find(text: string, pattern: string): Option<nat>
  {
    FindFrom(text, pattern, 0)
  }

  /** The leftmost position of the first candidate, in order, that occurs in `nuc`. */
  function FirstHit(nuc: string, candidates: seq<seq<string>>): Option<nat>
  {
    if candidates == [] then None
    else
      match Find(nuc, Concat(candidates[0]))
      case Some(i) => Some(i)
      case None => FirstHit(nuc, candidates[1..])
  }

  /**
   * `FirstHit` is the leftmost position of some candidate that occurs, and
   * every candidate before it does not occur; it is `None` exactly when no
   * candidate occurs.
   */
  lemma {:induction false} FirstHitMeaning(nuc: string, candidates: seq<seq<string>>)
    ensures FirstHit(nuc, candidates).None? <==> forall k | 0 <= k < |candidates| :: Find(nuc, Concat(candidates[k])).None?
    ensures FirstHit(nuc, candidates).Some? ==> exists k :: (0 <= k < |candidates| &&
      Find(nuc, Concat(candidates[k])) == FirstHit(nuc, candidates) &&
      forall l | 0 <= l < k :: Find(nuc, Concat(candidates[l])).None?)
  {
    if candidates != [] {
      FirstHitMeaning(nuc, candidates[1..]);
      if Find(nuc, Concat(candidates[0])).None? {
        if FirstHit(nuc, candidates).Some? {
          var k :| 0 <= k < |candidates[1..]| && Find(nuc, Concat(candidates[1..][k])) == FirstHit(nuc, candidates[1..]) &&
            forall l | 0 <= l < k :: Find(nuc, Concat(candidates[1..][l])).None?;
          assert Find(nuc, Concat(candidates[k + 1])) == FirstHit(nuc, candidates);
          forall l | 0 <= l < k + 1 ensures Find(nuc, Concat(candidates[l])).None? {
            if l > 0 {
              assert candidates[l] == candidates[1..][l - 1];
            }
          }
        }
        if forall k | 0 <= k < |candidates[1..]| :: Find(nuc, Concat(candidates[1..][k])).None? {
          forall k | 0 <= k < |candidates| ensures Find(nuc, Concat(candidates[k])).None? {
            if k > 0 {
              assert candidates[k] == candidates[1..][k - 1];
            }
          }
        }
      }
    }
  }

  /** The candidate sequences `get_peptide_index` searches for, in the order it tries them. */
  function Candidates(protein: string, forward: ForwardTable, codonCount: int): seq<seq<string>>
  {
    Product(PyPrefix(BackLists(protein, forward), codonCount))
  }

  /**
   * `get_peptide_index` of src/main/python/viz.py: back-translate the whole
   * protein (an unknown residue raises `KeyError`, even past the first
   * `codon_count`), then return the leftmost index of the first candidate,
   * in `product` order, that `nuc` contains; `None` when none does.
   */
  method GetPeptideIndex(nuc: string, protein: string, codonCount: int, forward: ForwardTable) returns (r: Result<Option<nat>>)
    ensures !AllProduced(protein, forward) ==> r == Raise(KeyError)
    ensures AllProduced(protein, forward) ==> r == Ok(FirstHit(nuc, Candidates(protein, forward, codonCount)))
  {
    var lists := NaiveBacktranslate(protein, forward);
    if lists.Raise? {
      return Raise(lists.error);
    }
    var search := Product(PyPrefix(lists.value, codonCount));
    for k := 0 to |search|
      invariant FirstHit(nuc, search) == FirstHit(nuc, search[k..])
    {
      assert search[k..][1..] == search[k + 1..];
      var found := Find(nuc, Concat(search[k]));
      if found.Some? {
        return Ok(found);
      }
    }
    return Ok(None);
  }

  /** With no codons to match (`codon_count` of 0, or an empty protein), the one empty candidate is found at 0. */
  lemma NoCodonsFoundAtZero(nuc: string, protein: string, forward: ForwardTable, codonCount: int)
    requires codonCount == 0 || protein == []
    ensures FirstHit(nuc, Candidates(protein, forward, codonCount)) == Some(0)
  {
    assert PyPrefix(BackLists(protein, forward), codonCount) == [];
    assert Candidates(protein, forward, codonCount) == [[]];
    assert Concat([]) == "";
    assert nuc[0..0] == "";
  }

  /** The leftmost positions of the candidates that occur in `nuc`, in candidate order. */
  function AllHits(nuc: string, candidates: seq<seq<string>>): (hits: seq<nat>)
    ensures |hits| <= |candidates|
  {
    if candidates == [] then []
    else
      var n := |candidates| - 1;
      AllHits(nuc, candidates[..n]) + (match Find(nuc, Concat(candidates[n])) case Some(i) => [i] case None => [])
  }

  /** A position is reported exactly when it is the leftmost occurrence of some candidate. */
  lemma AllHitsMeaning(nuc: string, candidates: seq<seq<string>>, i: nat)
    ensures i in AllHits(nuc, candidates) <==> exists k :: 0 <= k < |candidates| && Find(nuc, Concat(candidates[k])) == Some(i)
  {
    if i in AllHits(nuc, candidates) {
      var k := HitSource(nuc, candidates, i);
    }
    if exists k :: 0 <= k < |candidates| && Find(nuc, Concat(candidates[k])) == Some(i) {
      var k :| 0 <= k < |candidates| && Find(nuc, Concat(candidates[k])) == Some(i);
      HitReported(nuc, candidates, k);
    }
  }

  /** Every reported position comes from a candidate. */
  lemma {:induction false} HitSource(nuc: string, candidates: seq<seq<string>>, i: nat) returns (k: nat)
    requires i in AllHits(nuc, candidates)
    ensures k < |candidates| && Find(nuc, Concat(candidates[k])) == Some(i)
  {
    var n := |candidates| - 1;
    if i in AllHits(nuc, candidates[..n]) {
      k := HitSource(nuc, candidates[..n], i);
      assert candidates[..n][k] == candidates[k];
    } else {
      k := n;
    }
  }

  /** Every candidate that occurs has its leftmost position reported. */
  lemma {:induction false} HitReported(nuc: string, candidates: seq<seq<string>>, k: nat)
    requires k < |candidates| && Find(nuc, Concat(candidates[k])).Some?
    ensures Find(nuc, Concat(candidates[k])).value in AllHits(nuc, candidates)
  {
    var n := |candidates| - 1;
    if k < n {
      assert candidates[..n][k] == candidates[k];
      HitReported(nuc, candidates[..n], k);
    }
  }

  /**
   * `get_peptide_index` of viz.py: the same search, but it prints
   * `nuc.index(s)` for every candidate `s` that occurs and returns `None`;
   * the printed indices are the result here.
   */
  method GetPeptideIndexAll(nuc: string, protein: string, codonCount: int, forward: ForwardTable) returns (r: Result<seq<nat>>)
    ensures !AllProduced(protein, forward) ==> r == Raise(KeyError)
    ensures AllProduced(protein, forward) ==> r == Ok(AllHits(nuc, Candidates(protein, forward, codonCount)))
  {
    var lists := NaiveBacktranslate(protein, forward);
    if lists.Raise? {
      return Raise(lists.error);
    }
    var search := Product(PyPrefix(lists.value, codonCount));
    var printed := [];
    for k := 0 to |search|
      invariant printed == AllHits(nuc, search[..k])
    {
      assert search[..k + 1][..k] == search[..k];
      var found := Find(nuc, Concat(search[k]));
      if found.Some? {
        printed := printed + [found.value];
      }
    }
    assert search[..|search|] == search;
    return Ok(printed);
  }

  /** `seq[i:j]` with Python's slice rules: negative bounds count from the end, bounds are clamped, and an empty range gives nothing. */
  function PySlice(s: string, i: int, j: int): (r: string)
    ensures PyBound(|s|, i) < PyBound(|s|, j) ==> r == s[PyBound(|s|, i)..PyBound(|s|, j)]
    ensures PyBound(|s|, j) <= PyBound(|s|, i) ==> r == []
    ensures 0 <= i <= j <= |s| ==> r == s[i..j]
  {
    var lo := PyBound(|s|, i);
    var hi := PyBound(|s|, j);
    if lo < hi then s[lo..hi] else []
  }

  /** `ngrams(sequence, n)`: the windows `sequence[i:i+n]` for `i` in `range(max(0, len(sequence) - n + 1))`, each tuple of characters as a string. */
  function NGrams(s: string, n: int): (grams: seq<string>)
    ensures |grams| == if |s| - n + 1 > 0 then |s| - n + 1 else 0
    ensures forall i | 0 <= i < |grams| :: grams[i] == PySlice(s, i, i + n)
    ensures n >= 1 ==> forall i | 0 <= i < |grams| :: grams[i] == s[i..i + n]
  {
    var count := if |s| - n + 1 > 0 then |s| - n + 1 else 0;
    var grams := seq(count, i requires 0 <= i < count => PySlice(s, i, i + n));
    assert n >= 1 ==> forall i | 0 <= i < count :: grams[i] == PySlice(s, i, i + n) == s[i..i + n];
    grams
  }

  /** For a positive `n`, consecutive grams overlap in all but one character. */
  lemma NGramsOverlap(s: string, n: int)
    requires 1 <= n
    ensures forall i | 0 <= i < |NGrams(s, n)| - 1 :: NGrams(s, n)[i][1..] == NGrams(s, n)[i + 1][..n - 1]
  {
    var grams := NGrams(s, n);
    forall i | 0 <= i < |grams| - 1 ensures grams[i][1..] == grams[i + 1][..n - 1] {
      assert grams[i][1..] == s[i + 1..i + n] == grams[i + 1][..n - 1];
    }
  }

  /** For `1 <= n <= len(s)`, the first characters of the grams followed by the rest of the last gram spell `s` again. */
  lemma NGramsSpell(s: string, n: int)
    requires 1 <= n <= |s|
    ensures var grams := NGrams(s, n);
      |grams| > 0 && (forall i | 0 <= i < |grams| :: |grams[i]| == n) &&
      Concat(seq(|grams|, i requires 0 <= i < |grams| => [grams[i][0]])) + grams[|grams| - 1][1..] == s
  {
    var grams := NGrams(s, n);
    var m := |grams| - 1;
    NGramHeads(s, n);
    assert m + n == |s|;
    assert grams[m] == s[m..];
    assert grams[m][1..] == s[m + 1..];
    assert s[..m + 1] + s[m + 1..] == s;
  }

  /** The first characters of the grams spell the start of `s`, up to the last gram. */
  lemma NGramHeads(s: string, n: int)
    requires 1 <= n <= |s|
    ensures var grams := NGrams(s, n);
      Concat(seq(|grams|, i requires 0 <= i < |grams| => [grams[i][0]])) == s[..|s| - n + 1]
  {
    var grams := NGrams(s, n);
    var heads := seq(|grams|, i requires 0 <= i < |grams| => [grams[i][0]]);
    ConcatSingletons(heads);
    forall i | 0 <= i < |grams|
      ensures Concat(heads)[i] == s[i]
    {
      assert grams[i] == s[i..i + n];
    }
  }

  /** A non-positive `n` still gives `len - n + 1` grams, cut by Python's slice rules: `ngrams("abc", -1)`. */
  lemma NGramsOfNegative()
    ensures NGrams("abc", -1) == ["ab", "", "", "", ""]
  {
    var grams := NGrams("abc", -1);
    assert grams[0] == PySlice("abc", 0, -1) == "ab";
    assert grams[1] == PySlice("abc", 1, 0) == "";
    assert grams[2] == PySlice("abc", 2, 1) == "";
    assert grams[3] == PySlice("abc", 3, 2) == "";
    assert grams[4] == PySlice("abc", 4, 3) == "";
  }

  /** The argument of `make_trigrams`: a Biopython record, a Biopython sequence, a `str`, or anything else. */
  datatype SequenceObject = Record(letters: string) | Sequence(letters: string) | Str(letters: string) | Other

  /** `make_trigrams(sequence)`: the length-3 windows of the letters, each joined into a string; any other type raises `TypeError`. */
  function MakeTrigrams(sequence: SequenceObject): (r: Result<seq<string>>)
    ensures sequence.Other? <==> r == Raise(TypeError)
  {
    match sequence
    case Record(letters) => Ok(NGrams(letters, 3))
    case Sequence(letters) => Ok(NGrams(letters, 3))
    case Str(letters) => Ok(NGrams(letters, 3))
    case Other => Raise(TypeError)
  }

  /** Every trigram has three letters, trigram `i` starts at letter `i`, and there are `max(0, len - 2)` of them. */
  lemma TrigramsAreWindows(sequence: SequenceObject)
    requires !sequence.Other?
    ensures var trigrams := MakeTrigrams(sequence).value;
      && |trigrams| == (if |sequence.letters| >= 3 then |sequence.letters| - 2 else 0)
      && forall i | 0 <= i < |trigrams| :: |trigrams[i]| == 3 && trigrams[i] == sequence.letters[i..i + 3]
  {
  }
}
