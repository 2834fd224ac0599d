/**
 * Values shared by every part of the model: the optional and error-carrying
 * results that stand for Python's `None` and raised exceptions (and for a
 * thrown JavaScript `TypeError`), and a few sequence helpers.
 */
module Common {

  datatype Option<T> = None | Some(value: T)

  /** The exceptions the modelled code can raise. */
  datatype Error = IndexError | KeyError | TypeError | ValueError

  /** A value, or the exception that was raised instead of returning one. */
  datatype Result<T> = Ok(value: T) | Raise(error: Error)

  /** `''.join(parts)`: the concatenation of a list of strings. */
  function Concat(parts: seq<string>): string
  {
    if parts == [] then "" else Concat(parts[..|parts| - 1]) + parts[|parts| - 1]
  }

  lemma {:induction false} ConcatAppend(a: seq<string>, b: seq<string>)
    ensures Concat(a + b) == Concat(a) + Concat(b)
    decreases |b|
  {
    if b == [] {
      assert a + b == a;
    } else {
      var b' := b[..|b| - 1];
      assert (a + b)[..|a + b| - 1] == a + b';
      ConcatAppend(a, b');
    }
  }

  /** Every part of `parts` has length `w`, so `Concat(parts)` has length `w * |parts|`. */
  lemma {:induction false} ConcatUniformLength(parts: seq<string>, w: nat)
    requires forall i | 0 <= i < |parts| :: |parts[i]| == w
    ensures |Concat(parts)| == w * |parts|
  {
    if parts != [] {
      ConcatUniformLength(parts[..|parts| - 1], w);
    }
  }

  /** Joining one-character strings spells out their characters in order. */
  lemma {:induction false} ConcatSingletons(parts: seq<string>)
    requires forall i | 0 <= i < |parts| :: |parts[i]| == 1
    ensures |Concat(parts)| == |parts|
    ensures forall i | 0 <= i < |parts| :: Concat(parts)[i] == parts[i][0]
  {
    if parts != [] {
      ConcatSingletons(parts[..|parts| - 1]);
    }
  }

  /** Joining three-character strings puts part `i` at characters `3 * i` to `3 * i + 3`. */
  lemma {:induction false} ConcatCodons(parts: seq<string>)
    requires forall k | 0 <= k < |parts| :: |parts[k]| == 3
    ensures |Concat(parts)| == 3 * |parts|
    ensures forall i | 0 <= i < |parts| :: Concat(parts)[3 * i..3 * i + 3] == parts[i]
  {
    if parts != [] {
      var n := |parts| - 1;
      var init := parts[..n];
      ConcatCodons(init);
      var joined := Concat(parts);
      assert joined == Concat(init) + parts[n];
      forall i | 0 <= i < |parts|
        ensures joined[3 * i..3 * i + 3] == parts[i]
      {
        if i < n {
          assert joined[3 * i..3 * i + 3] == Concat(init)[3 * i..3 * i + 3];
        } else {
          assert joined[3 * i..3 * i + 3] == parts[n];
        }
      }
    }
  }

  /** Row `j` of a table with rows of width `w` ends before row `n` starts. */
  lemma MulLess(j: nat, n: nat, w: nat, i: nat)
    requires j < n && i < w
    ensures j * w + i < n * w
  {
    assert (j + 1) * w <= n * w;
  }

  /** No element occurs twice. */
  predicate Distinct<T(==)>(s: seq<T>)
  {
    forall i, j | 0 <= i < j < |s| :: s[i] != s[j]
  }

  /** The number of positions of `s` holding `x`. */
  function Occurrences<T(==)>(s: seq<T>, x: T): nat
  {
    if s == [] then 0 else Occurrences(s[..|s| - 1], x) + (if s[|s| - 1] == x then 1 else 0)
  }

  /** In a list without repeats, a value occurs once if it is listed and not at all otherwise. */
  lemma {:induction false} OccurrencesOfDistinct<T>(s: seq<T>, x: T)
    requires Distinct(s)
    ensures Occurrences(s, x) == if x in s then 1 else 0
  {
    if s != [] {
      var init := s[..|s| - 1];
      OccurrencesOfDistinct(init, x);
      assert s == init + [s[|s| - 1]];
    }
  }

  /** `s[::-1]` */
  function Reverse<T>(s: seq<T>): (r: seq<T>)
    ensures |r| == |s|
    ensures forall i | 0 <= i < |s| :: r[i] == s[|s| - 1 - i]
  {
    if s == [] then [] else [s[|s| - 1]] + Reverse(s[..|s| - 1])
  }

  /** `pattern` occurs in `text` at position `j`. */
  predicate OccursAt(text: string, pattern: string, j: nat)
  {
    j + |pattern| <= |text| && text[j..j + |pattern|] == pattern
  }
}
