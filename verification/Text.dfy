/**
 Strings in code-unit order, and the insertion sort that stands for the runtime's stable
 `Array.prototype.sort` under that order (src/bytes.ts `byCodeUnit`). A sort here is a function,
 so "sorted the same way on every machine" is the statement that sorted permutations are unique.
 */
module Text {

  datatype Option<+T> = None | Some(value: T)

  /** `a < b` by raw code unit, the comparison behind `byCodeUnit`. */
  predicate Less(a: string, b: string) {
    |b| > 0 && (|a| == 0 || a[0] < b[0] || (a[0] == b[0] && Less(a[1..], b[1..])))
  }

  /** A text comes before another exactly if it is a proper prefix of it, or smaller where they first differ. */
  lemma {:induction false} LessMeans(a: string, b: string)
    ensures Less(a, b) <==>
      || (|a| < |b| && b[..|a|] == a)
      || exists k :: 0 <= k < |a| && k < |b| && a[..k] == b[..k] && a[k] < b[k]
  {
    if |a| > 0 && |b| > 0 {
      if a[0] == b[0] {
        LessMeans(a[1..], b[1..]);
        if |a| < |b| {
          assert b[..|a|] == [b[0]] + b[1..][..|a| - 1] && a == [a[0]] + a[1..];
          assert b[..|a|] == a ==> b[1..][..|a| - 1] == b[..|a|][1..];
        }
        if k :| 0 <= k < |a| && k < |b| && a[..k] == b[..k] && a[k] < b[k] {
          assert a[1..][..k - 1] == a[..k][1..] && b[1..][..k - 1] == b[..k][1..];
          assert a[1..][k - 1] < b[1..][k - 1];
        }
        if k :| 0 <= k < |a| - 1 && k < |b| - 1 && a[1..][..k] == b[1..][..k] && a[1..][k] < b[1..][k] {
          assert a[..k + 1] == [a[0]] + a[1..][..k] && b[..k + 1] == [b[0]] + b[1..][..k];
          assert a[k + 1] < b[k + 1];
        }
      } else {
        assert a[..0] == b[..0];
        if |a| < |b| {
          assert b[..|a|][0] == b[0];
        }
        forall k | 0 < k < |a| && k < |b| ensures a[..k] != b[..k] {
          assert a[..k][0] != b[..k][0];
        }
      }
    }
  }

  lemma {:induction false} LessIrreflexive(a: string)
    ensures !Less(a, a)
  {
    if |a| > 0 {
      LessIrreflexive(a[1..]);
    }
  }

  lemma {:induction false} LessTransitive(a: string, b: string, c: string)
    requires Less(a, b) && Less(b, c)
    ensures Less(a, c)
  {
    if |a| > 0 && a[0] == b[0] && b[0] == c[0] {
      LessTransitive(a[1..], b[1..], c[1..]);
    }
  }

  lemma {:induction false} LessTotal(a: string, b: string)
    ensures a == b || Less(a, b) || Less(b, a)
  {
    if |a| > 0 && |b| > 0 && a[0] == b[0] {
      LessTotal(a[1..], b[1..]);
      assert a == [a[0]] + a[1..] && b == [b[0]] + b[1..];
    }
  }

  ghost predicate SortedBy<T>(xs: seq<T>, key: T -> string) {
    forall i, j :: 0 <= i < j < |xs| ==> !Less(key(xs[j]), key(xs[i]))
  }

  /** Distinct elements never share a key, so the key order determines the element order. */
  ghost predicate KeyDetermines<T(!new)>(xs: seq<T>, key: T -> string) {
    forall x, y :: x in xs && y in xs && key(x) == key(y) ==> x == y
  }

  function InsertBy<T>(x: T, xs: seq<T>, key: T -> string): (r: seq<T>)
    ensures multiset(r) == multiset([x]) + multiset(xs)
    ensures |r| == |xs| + 1
  {
    if xs == [] then [x]
    else if Less(key(xs[0]), key(x)) then
      assert xs == [xs[0]] + xs[1..];
      [xs[0]] + InsertBy(x, xs[1..], key)
    else
      [x] + xs
  }

  function SortBy<T>(xs: seq<T>, key: T -> string): (r: seq<T>)
    ensures multiset(r) == multiset(xs)
    ensures |r| == |xs|
  {
    if xs == [] then []
    else
      assert xs == [xs[0]] + xs[1..];
      InsertBy(xs[0], SortBy(xs[1..], key), key)
  }

  lemma {:induction false} InsertKeepsSorted<T>(x: T, xs: seq<T>, key: T -> string)
    requires SortedBy(xs, key)
    ensures SortedBy(InsertBy(x, xs, key), key)
  {
    if xs == [] {
    } else if Less(key(xs[0]), key(x)) {
      var rest := InsertBy(x, xs[1..], key);
      InsertKeepsSorted(x, xs[1..], key);
      var r := [xs[0]] + rest;
      forall j | 0 < j < |r| ensures !Less(key(r[j]), key(r[0])) {
        assert rest[j - 1] in multiset(rest);
        if rest[j - 1] == x {
          if Less(key(x), key(xs[0])) {
            LessTransitive(key(x), key(xs[0]), key(x));
            LessIrreflexive(key(x));
          }
        } else {
          assert rest[j - 1] in multiset(xs[1..]);
        }
      }
    } else {
      forall j | 0 <= j < |xs| ensures !Less(key(xs[j]), key(x)) {
        if Less(key(xs[j]), key(x)) {
          NotLessChain(key(xs[0]), key(xs[j]), key(x));
        }
      }
    }
  }

  lemma NotLessChain(a: string, b: string, c: string)
    requires !Less(b, a) && Less(b, c)
    ensures Less(a, c)
  {
    LessTotal(a, b);
    if Less(a, b) {
      LessTransitive(a, b, c);
    }
  }

  lemma {:induction false} SortIsSorted<T>(xs: seq<T>, key: T -> string)
    ensures SortedBy(SortBy(xs, key), key)
  {
    if xs != [] {
      SortIsSorted(xs[1..], key);
      InsertKeepsSorted(xs[0], SortBy(xs[1..], key), key);
    }
  }

  lemma SortedHeads<T(!new)>(xs: seq<T>, ys: seq<T>, key: T -> string)
    requires SortedBy(xs, key) && SortedBy(ys, key)
    requires multiset(xs) == multiset(ys)
    requires KeyDetermines(xs, key)
    requires |xs| > 0 && |ys| > 0
    ensures xs[0] == ys[0]
  {
    var x, y := xs[0], ys[0];
    assert x in multiset(ys) && y in multiset(xs);
    var i :| 0 <= i < |ys| && ys[i] == x;
    var j :| 0 <= j < |xs| && xs[j] == y;
    LessTotal(key(x), key(y));
    LessIrreflexive(key(x));
    assert !Less(key(x), key(y)) by {
      if i > 0 { assert !Less(key(ys[i]), key(ys[0])); }
    }
    assert !Less(key(y), key(x)) by {
      if j > 0 { assert !Less(key(xs[j]), key(xs[0])); }
    }
  }

  lemma TailMultisets<T>(xs: seq<T>, ys: seq<T>)
    requires |xs| > 0 && |ys| > 0 && xs[0] == ys[0]
    requires multiset(xs) == multiset(ys)
    ensures multiset(xs[1..]) == multiset(ys[1..])
  {
    assert xs == [xs[0]] + xs[1..] && ys == [ys[0]] + ys[1..];
    assert multiset(xs) == multiset{xs[0]} + multiset(xs[1..]);
    assert multiset(ys) == multiset{ys[0]} + multiset(ys[1..]);
    assert multiset(xs[1..]) == multiset(xs) - multiset{xs[0]};
  }

  lemma TailKeys<T(!new)>(xs: seq<T>, key: T -> string)
    requires |xs| > 0 && KeyDetermines(xs, key)
    ensures KeyDetermines(xs[1..], key)
  {
    forall x, y | x in xs[1..] && y in xs[1..] && key(x) == key(y) ensures x == y {
      assert x in xs && y in xs;
    }
  }

  /** Sorted permutations are unique once the key tells elements apart. */
  lemma {:induction false} SortedUnique<T(!new)>(xs: seq<T>, ys: seq<T>, key: T -> string)
    requires SortedBy(xs, key) && SortedBy(ys, key)
    requires multiset(xs) == multiset(ys)
    requires KeyDetermines(xs, key)
    ensures xs == ys
    decreases |xs|
  {
    assert |xs| == |multiset(xs)| == |multiset(ys)| == |ys|;
    if xs != [] {
      SortedHeads(xs, ys, key);
      TailMultisets(xs, ys);
      TailKeys(xs, key);
      SortedUnique(xs[1..], ys[1..], key);
      assert xs == [xs[0]] + xs[1..] && ys == [ys[0]] + ys[1..];
    }
  }

  /** The input order never shows in a sorted result. */
  lemma SortOrderIndependent<T(!new)>(xs: seq<T>, ys: seq<T>, key: T -> string)
    requires multiset(xs) == multiset(ys)
    requires KeyDetermines(xs, key)
    ensures SortBy(xs, key) == SortBy(ys, key)
  {
    SortIsSorted(xs, key);
    SortIsSorted(ys, key);
    var sx, sy := SortBy(xs, key), SortBy(ys, key);
    assert KeyDetermines(sx, key) by {
      forall a, b | a in sx && b in sx && key(a) == key(b) ensures a == b {
        assert a in multiset(sx) && b in multiset(sx);
        assert a in xs && b in xs;
      }
    }
    SortedUnique(sx, sy, key);
  }

  /** A plain sort of strings, by themselves. */
  function SortText(xs: seq<string>): (r: seq<string>)
    ensures multiset(r) == multiset(xs)
  {
    SortBy(xs, (x: string) => x)
  }

  // ---- Sequences ------------------------------------------------------------------

  predicate Distinct<T(==)>(xs: seq<T>) {
    forall i, j :: 0 <= i < j < |xs| ==> xs[i] != xs[j]
  }

  lemma PrefixStep<T>(xs: seq<T>, k: nat)
    requires k < |xs|
    ensures xs[..k + 1] == xs[..k] + [xs[k]]
    ensures xs[..k + 1][..k] == xs[..k]
  {
  }

  lemma LastNotAfter(c: char, x: string, y: string, n: string, m: string)
    requires c !in m && x + [c] + n == y + [c] + m
    ensures |x| <= |y|
  {
    var whole := y + [c] + m;
    assert (x + [c] + n)[|x|] == c;
    assert forall i :: |y| < i < |whole| ==> whole[i] == m[i - |y| - 1];
  }

  /** Where what follows holds no separator, the last one tells where to cut. */
  lemma SplitAtLast(c: char, x: string, y: string, n: string, m: string)
    requires c !in n && c !in m && x + [c] + n == y + [c] + m
    ensures x == y && n == m
  {
    LastNotAfter(c, x, y, n, m);
    LastNotAfter(c, y, x, m, n);
    assert (x + [c] + n)[..|x|] == x && (y + [c] + m)[..|y|] == y;
    assert (x + [c] + n)[|x| + 1..] == n && (y + [c] + m)[|y| + 1..] == m;
  }
}
