/**
 * Three-way comparison (Rust's `core::cmp::Ordering`), the byte-wise key
 * comparison glib uses for collation keys, and a stable insertion sort
 * standing in for `Vec::sort_by`.
 */
module Orders {

  datatype Ordering = Less | Equal | Greater {
    /** The ordering of the swapped pair (`Ordering::reverse`). */
    function Reverse(): Ordering {
      match this
      case Less => Greater
      case Equal => Equal
      case Greater => Less
    }
  }

  /**
   * Lexicographic comparison of two keys, character by character, a proper
   * prefix first: what `strcmp` does with the keys glib builds for
   * `FilenameCollationKey`.
   */
  function LexCmp(a: string, b: string): Ordering {
    if |a| == 0 && |b| == 0 then Equal
    else if |a| == 0 then Less
    else if |b| == 0 then Greater
    else if a[0] < b[0] then Less
    else if b[0] < a[0] then Greater
    else LexCmp(a[1..], b[1..])
  }

  lemma {:induction false} LexCmpReverse(a: string, b: string)
    ensures LexCmp(a, b) == LexCmp(b, a).Reverse()
  {
    if |a| > 0 && |b| > 0 && a[0] == b[0] {
      LexCmpReverse(a[1..], b[1..]);
    }
  }

  lemma {:induction false} LexCmpEqual(a: string, b: string)
    ensures LexCmp(a, b) == Equal <==> a == b
  {
    if |a| > 0 && |b| > 0 && a[0] == b[0] {
      LexCmpEqual(a[1..], b[1..]);
      assert a == [a[0]] + a[1..] && b == [b[0]] + b[1..];
    } else if |a| > 0 && |b| > 0 {
      assert a[0] != b[0];
    }
  }

  lemma {:induction false} LexCmpTransitive(a: string, b: string, c: string)
    requires LexCmp(a, b) != Greater && LexCmp(b, c) != Greater
    ensures LexCmp(a, c) != Greater
  {
    if |a| > 0 && |b| > 0 && |c| > 0 && a[0] == b[0] && b[0] == c[0] {
      LexCmpTransitive(a[1..], b[1..], c[1..]);
    }
  }

  /**
   * `cmp` behaves as a total preorder on the values `ok` accepts: swapping the
   * arguments reverses the answer, and "not greater" is transitive.
   */
  ghost predicate TotalPreorderOn<T(!new)>(cmp: (T, T) -> Ordering, ok: T -> bool) {
    && (forall x, y :: ok(x) && ok(y) ==> cmp(x, y) == cmp(y, x).Reverse())
    && (forall x, y, z :: ok(x) && ok(y) && ok(z) && cmp(x, y) != Greater && cmp(y, z) != Greater
                          ==> cmp(x, z) != Greater)
  }

  ghost predicate AllOk<T>(s: seq<T>, ok: T -> bool) {
    forall i :: 0 <= i < |s| ==> ok(s[i])
  }

  /** No element is followed by one it compares Greater than. */
  ghost predicate Sorted<T>(s: seq<T>, cmp: (T, T) -> Ordering) {
    forall i, j :: 0 <= i < j < |s| ==> cmp(s[i], s[j]) != Greater
  }

  /** Inserts `x` after every element it does not compare Less than. */
  function Insert<T>(s: seq<T>, x: T, cmp: (T, T) -> Ordering): (r: seq<T>)
    ensures multiset(r) == multiset(s) + multiset{x}
  {
    if s == [] then [x]
    else if cmp(x, s[0]) == Less then [x] + s
    else
      assert s == [s[0]] + s[1..];
      [s[0]] + Insert(s[1..], x, cmp)
  }

  /** Stable insertion sort: the elements are taken from left to right. */
  function InsertionSort<T>(s: seq<T>, cmp: (T, T) -> Ordering): (r: seq<T>)
    ensures multiset(r) == multiset(s)
  {
    if s == [] then []
    else
      assert s == s[..|s| - 1] + [s[|s| - 1]];
      Insert(InsertionSort(s[..|s| - 1], cmp), s[|s| - 1], cmp)
  }

  /** A sorted list stays sorted under a head that is not Greater than any of its elements. */
  lemma SortedCons<T>(h: T, t: seq<T>, cmp: (T, T) -> Ordering)
    requires Sorted(t, cmp) && forall j :: 0 <= j < |t| ==> cmp(h, t[j]) != Greater
    ensures Sorted([h] + t, cmp)
  {
    var r := [h] + t;
    forall i, j | 0 <= i < j < |r| ensures cmp(r[i], r[j]) != Greater {
      if i > 0 {
        assert r[i] == t[i - 1] && r[j] == t[j - 1];
      } else {
        assert r[j] == t[j - 1];
      }
    }
  }

  lemma SortedTail<T>(s: seq<T>, cmp: (T, T) -> Ordering)
    requires |s| > 0 && Sorted(s, cmp)
    ensures Sorted(s[1..], cmp)
  {
    forall i, j | 0 <= i < j < |s| - 1 ensures cmp(s[1..][i], s[1..][j]) != Greater {
      assert s[1..][i] == s[i + 1] && s[1..][j] == s[j + 1];
    }
  }

  lemma AllOkCons<T>(h: T, t: seq<T>, ok: T -> bool)
    requires ok(h) && AllOk(t, ok)
    ensures AllOk([h] + t, ok)
  {
    forall i | 0 <= i < |[h] + t| ensures ok(([h] + t)[i]) {
      if i > 0 { assert ([h] + t)[i] == t[i - 1]; }
    }
  }

  lemma {:induction false} InsertSorted<T(!new)>(s: seq<T>, x: T, cmp: (T, T) -> Ordering, ok: T -> bool)
    requires TotalPreorderOn(cmp, ok) && AllOk(s, ok) && ok(x) && Sorted(s, cmp)
    ensures Sorted(Insert(s, x, cmp), cmp) && AllOk(Insert(s, x, cmp), ok)
  {
    if s == [] {
    } else if cmp(x, s[0]) == Less {
      forall j | 0 <= j < |s| ensures cmp(x, s[j]) != Greater {
        if j > 0 {
          assert cmp(s[0], s[j]) != Greater;
        }
      }
      SortedCons(x, s, cmp);
      AllOkCons(x, s, ok);
    } else {
      var t := Insert(s[1..], x, cmp);
      assert AllOk(s[1..], ok) by {
        forall i | 0 <= i < |s| - 1 ensures ok(s[1..][i]) { assert s[1..][i] == s[i + 1]; }
      }
      SortedTail(s, cmp);
      InsertSorted(s[1..], x, cmp, ok);
      assert cmp(s[0], x) != Greater by {
        assert cmp(x, s[0]) == cmp(s[0], x).Reverse();
      }
      forall j | 0 <= j < |t| ensures cmp(s[0], t[j]) != Greater {
        assert t[j] in multiset(s[1..]) + multiset{x} by {
          assert t[j] in multiset(t);
        }
        if t[j] != x {
          var k :| 0 <= k < |s| - 1 && s[1..][k] == t[j];
          assert s[k + 1] == t[j];
        }
      }
      SortedCons(s[0], t, cmp);
      AllOkCons(s[0], t, ok);
      assert Insert(s, x, cmp) == [s[0]] + t;
    }
  }

  lemma {:induction false} InsertionSortSorted<T(!new)>(s: seq<T>, cmp: (T, T) -> Ordering, ok: T -> bool)
    requires TotalPreorderOn(cmp, ok) && AllOk(s, ok)
    ensures Sorted(InsertionSort(s, cmp), cmp) && AllOk(InsertionSort(s, cmp), ok)
  {
    if s != [] {
      InsertionSortSorted(s[..|s| - 1], cmp, ok);
      InsertSorted(InsertionSort(s[..|s| - 1], cmp), s[|s| - 1], cmp, ok);
    }
  }
}
