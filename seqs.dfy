/**
 * Boolean-mask selection on sequences, as numpy's `a[mask]` and
 * `np.sum(mask)`.
 */
module Seqs {

  /** `np.sum(mask)`: the number of true entries. */
  function CountTrue(b: seq<bool>): (n: nat)
    ensures n <= |b|
  {
    if |b| == 0 then 0 else CountTrue(b[..|b| - 1]) + (if b[|b| - 1] then 1 else 0)
  }

  /** All entries true exactly when the count is the length. */
  lemma {:induction false} CountTrueFull(b: seq<bool>)
    ensures CountTrue(b) == |b| <==> forall i :: 0 <= i < |b| ==> b[i]
  {
    if |b| > 0 {
      var b' := b[..|b| - 1];
      CountTrueFull(b');
      assert forall i :: 0 <= i < |b'| ==> b'[i] == b[i];
    }
  }

  /** No entry true exactly when the count is zero. */
  lemma {:induction false} CountTrueZero(b: seq<bool>)
    ensures CountTrue(b) == 0 <==> forall i :: 0 <= i < |b| ==> !b[i]
  {
    if |b| > 0 {
      var b' := b[..|b| - 1];
      CountTrueZero(b');
      assert forall i :: 0 <= i < |b'| ==> b'[i] == b[i];
    }
  }

  lemma {:induction false} CountTrueAppend(a: seq<bool>, c: seq<bool>)
    ensures CountTrue(a + c) == CountTrue(a) + CountTrue(c)
    decreases |c|
  {
    if |c| == 0 {
      assert a + c == a;
    } else {
      var c' := c[..|c| - 1];
      assert (a + c)[..|a + c| - 1] == a + c';
      CountTrueAppend(a, c');
    }
  }

  /** Counting a slice entry by entry from its low end. */
  lemma CountTrueFront(b: seq<bool>, lo: int, hi: int)
    requires 0 <= lo < hi <= |b|
    ensures CountTrue(b[lo..hi]) == (if b[lo] then 1 else 0) + CountTrue(b[lo + 1..hi])
  {
    assert b[lo..hi] == [b[lo]] + b[lo + 1..hi];
    CountTrueAppend([b[lo]], b[lo + 1..hi]);
    assert [b[lo]][..0] == [];
  }

  /** The true entries of b[..i] are counted among those of b[..j]. */
  lemma CountTruePrefix(b: seq<bool>, i: int, j: int)
    requires 0 <= i <= j <= |b|
    ensures CountTrue(b[..i]) <= CountTrue(b[..j])
    ensures i < j && b[i] ==> CountTrue(b[..i]) < CountTrue(b[..j])
  {
    assert b[..j] == b[..i] + b[i..j];
    CountTrueAppend(b[..i], b[i..j]);
    if i < j && b[i] {
      assert b[i..j] == [b[i]] + b[i + 1..j];
      CountTrueAppend([b[i]], b[i + 1..j]);
    }
  }

  /** Two false entries leave at most |b| - 2 true ones. */
  lemma CountTrueTwoFalse(b: seq<bool>, n: int, m: int)
    requires 0 <= n < m < |b| && !b[n] && !b[m]
    ensures CountTrue(b) <= |b| - 2
  {
    assert b == b[..n] + [b[n]] + b[n + 1..m] + [b[m]] + b[m + 1..];
    CountTrueAppend(b[..n] + [b[n]] + b[n + 1..m] + [b[m]], b[m + 1..]);
    CountTrueAppend(b[..n] + [b[n]] + b[n + 1..m], [b[m]]);
    CountTrueAppend(b[..n] + [b[n]], b[n + 1..m]);
    CountTrueAppend(b[..n], [b[n]]);
  }

  /** `s[mask]`: the entries of s whose mask entry is true, in order. */
  function Filter<T>(s: seq<T>, b: seq<bool>): (r: seq<T>)
    requires |s| == |b|
    ensures |r| == CountTrue(b)
  {
    if |s| == 0 then []
    else Filter(s[..|s| - 1], b[..|b| - 1]) + (if b[|b| - 1] then [s[|s| - 1]] else [])
  }

  lemma {:induction false} FilterAppend<T>(s: seq<T>, b: seq<bool>, t: seq<T>, c: seq<bool>)
    requires |s| == |b| && |t| == |c|
    ensures Filter(s + t, b + c) == Filter(s, b) + Filter(t, c)
    decreases |t|
  {
    if |t| == 0 {
      assert s + t == s && b + c == b;
    } else {
      assert (s + t)[..|s + t| - 1] == s + t[..|t| - 1];
      assert (b + c)[..|b + c| - 1] == b + c[..|c| - 1];
      FilterAppend(s, b, t[..|t| - 1], c[..|c| - 1]);
    }
  }

  /** A kept entry lands at its rank among the kept entries. */
  lemma FilterAt<T>(s: seq<T>, b: seq<bool>, i: int)
    requires |s| == |b| && 0 <= i < |s| && b[i]
    ensures CountTrue(b[..i]) < CountTrue(b)
    ensures Filter(s, b)[CountTrue(b[..i])] == s[i]
  {
    assert s == s[..i] + [s[i]] + s[i + 1..];
    assert b == b[..i] + [b[i]] + b[i + 1..];
    FilterAppend(s[..i] + [s[i]], b[..i] + [b[i]], s[i + 1..], b[i + 1..]);
    FilterAppend(s[..i], b[..i], [s[i]], [b[i]]);
    assert Filter([s[i]], [b[i]]) == [s[i]] by {
      assert [s[i]][..0] == [] && [b[i]][..0] == [];
    }
  }

  /** Every entry of the selection is a kept entry of the source. */
  lemma {:induction false} FilterFrom<T>(s: seq<T>, b: seq<bool>, j: int)
    requires |s| == |b| && 0 <= j < |Filter(s, b)|
    ensures exists i :: 0 <= i < |s| && b[i] && Filter(s, b)[j] == s[i]
    decreases |s|
  {
    var s', b' := s[..|s| - 1], b[..|b| - 1];
    if j < |Filter(s', b')| {
      FilterFrom(s', b', j);
      var i :| 0 <= i < |s'| && b'[i] && Filter(s', b')[j] == s'[i];
      assert b[i] && s[i] == s'[i];
    } else {
      assert b[|b| - 1] && Filter(s, b)[j] == s[|s| - 1];
    }
  }

  /** An all-true mask keeps everything. */
  lemma {:induction false} FilterAllTrue<T>(s: seq<T>, b: seq<bool>)
    requires |s| == |b| && forall i :: 0 <= i < |b| ==> b[i]
    ensures Filter(s, b) == s
    decreases |s|
  {
    if |s| > 0 {
      FilterAllTrue(s[..|s| - 1], b[..|b| - 1]);
      assert s == s[..|s| - 1] + [s[|s| - 1]];
    }
  }
}
