/** Small sequence utilities shared by every module: an Option type, string
    concatenation of a list, and the `Array.prototype.filter` of the source. */
module Common {

  datatype Option<T> = None | Some(value: T)

  function Min(a: int, b: int): int { if a <= b then a else b }

  function Max(a: int, b: int): int { if a >= b then a else b }

  /** `Math.ceil(a / b)` for a natural a and a positive b. */
  function CeilDiv(a: nat, b: nat): (r: nat)
    requires b > 0
    ensures a <= r * b
    ensures r > 0 ==> (r - 1) * b < a
  {
    (a + b - 1) / b
  }

  /** Taking b off a (at least b) leaves one part fewer. */
  lemma CeilDivStep(a: nat, b: nat)
    requires 0 < b <= a
    ensures CeilDiv(a, b) == CeilDiv(a - b, b) + 1
  {
    var x := a - 1;
    var q := x / b;
    var r := x % b;
    assert x + b == (q + 1) * b + r;
    DivUnique(x + b, b, q + 1, r);
  }

  /** Up to b items make one part. */
  lemma CeilDivOne(a: nat, b: nat)
    requires 0 < a <= b
    ensures CeilDiv(a, b) == 1
  {
    DivUnique(a + b - 1, b, 1, a - 1);
  }

  lemma DivUnique(a: int, b: int, q: int, r: int)
    requires b > 0 && 0 <= r < b && a == q * b + r
    ensures a / b == q
  {
    var q' := a / b;
    var r' := a % b;
    assert (q - q') * b == r' - r;
    if q > q' {
      MulAtLeast(q - q', b);
    } else if q < q' {
      MulAtLeast(q' - q, b);
    }
  }

  lemma {:induction false} MulAtLeast(k: int, b: int)
    requires k >= 1 && b > 0
    ensures k * b >= b
    decreases k
  {
    if k > 1 {
      MulAtLeast(k - 1, b);
      assert k * b == (k - 1) * b + b;
    }
  }

  /** Concatenation of a list of sequences (`list.join('')`). */
  function Concat<T>(xs: seq<seq<T>>): seq<T>
  {
    if xs == [] then [] else xs[0] + Concat(xs[1..])
  }

  lemma {:induction false} ConcatAppend<T>(xs: seq<seq<T>>, ys: seq<seq<T>>)
    ensures Concat(xs + ys) == Concat(xs) + Concat(ys)
  {
    if xs == [] {
      assert xs + ys == ys;
    } else {
      assert (xs + ys)[0] == xs[0];
      assert (xs + ys)[1..] == xs[1..] + ys;
      ConcatAppend(xs[1..], ys);
    }
  }

  /** r is obtained from s by deleting some elements, keeping the order of the rest. */
  ghost predicate IsSubsequence<T>(r: seq<T>, s: seq<T>)
    decreases |s|
  {
    if r == [] then true
    else if s == [] then false
    else (r[0] == s[0] && IsSubsequence(r[1..], s[1..])) || IsSubsequence(r, s[1..])
  }

  /** `s.filter(keep)`: the elements of s satisfying keep, in their original order. */
  function Filter<T>(s: seq<T>, keep: T -> bool): (r: seq<T>)
    ensures |r| <= |s|
    ensures forall i :: 0 <= i < |r| ==> r[i] in s && keep(r[i])
    ensures forall i :: 0 <= i < |s| && keep(s[i]) ==> s[i] in r
    ensures IsSubsequence(r, s)
  {
    if s == [] then []
    else if keep(s[0]) then [s[0]] + Filter(s[1..], keep)
    else Filter(s[1..], keep)
  }

  /** Filtering keeps every copy of a kept value and no copy of any other value. */
  lemma {:induction false} FilterCounts<T>(s: seq<T>, keep: T -> bool)
    ensures forall x :: multiset(Filter(s, keep))[x] == if keep(x) then multiset(s)[x] else 0
  {
    if s != [] {
      FilterCounts(s[1..], keep);
      assert s == [s[0]] + s[1..];
    }
  }

  /** Filtering a list with a first element: that element, if kept, then the rest filtered. */
  lemma FilterCons<T>(x: T, t: seq<T>, keep: T -> bool)
    ensures Filter([x] + t, keep) == (if keep(x) then [x] else []) + Filter(t, keep)
  {
    assert ([x] + t)[0] == x && ([x] + t)[1..] == t;
  }

  /** When every element is kept, filtering changes nothing. */
  lemma {:induction false} FilterAll<T>(s: seq<T>, keep: T -> bool)
    requires forall i :: 0 <= i < |s| ==> keep(s[i])
    ensures Filter(s, keep) == s
  {
    if s != [] {
      FilterAll(s[1..], keep);
    }
  }

  /** When no element is kept, the filter is empty. */
  lemma {:induction false} FilterNone<T>(s: seq<T>, keep: T -> bool)
    requires forall i :: 0 <= i < |s| ==> !keep(s[i])
    ensures Filter(s, keep) == []
  {
    if s != [] {
      FilterNone(s[1..], keep);
    }
  }

  /** Every element of s.filter(keep) satisfies keep and whatever every element of s satisfies. */
  lemma {:induction false} FilterKeeps<T>(s: seq<T>, keep: T -> bool, prop: T -> bool)
    requires forall i :: 0 <= i < |s| ==> prop(s[i])
    ensures var r := Filter(s, keep); forall i :: 0 <= i < |r| ==> keep(r[i]) && prop(r[i])
  {
    if s != [] {
      FilterKeeps(s[1..], keep, prop);
    }
  }

  /** Filtering distributes over concatenation. */
  lemma {:induction false} FilterAppend<T>(a: seq<T>, b: seq<T>, keep: T -> bool)
    ensures Filter(a + b, keep) == Filter(a, keep) + Filter(b, keep)
  {
    if a == [] {
      assert a + b == b;
    } else {
      assert (a + b)[0] == a[0];
      assert (a + b)[1..] == a[1..] + b;
      FilterAppend(a[1..], b, keep);
    }
  }

  /** No two elements of s share a key. */
  ghost predicate DistinctBy<T, K>(s: seq<T>, key: T -> K)
  {
    forall i, j :: 0 <= i < j < |s| ==> key(s[i]) != key(s[j])
  }

  /** A subsequence of a list with distinct keys has distinct keys. */
  lemma {:induction false} SubsequenceDistinct<T, K>(r: seq<T>, s: seq<T>, key: T -> K)
    requires IsSubsequence(r, s) && DistinctBy(s, key)
    ensures DistinctBy(r, key)
    decreases |s|
  {
    if r != [] {
      assert s != [];
      if r[0] == s[0] && IsSubsequence(r[1..], s[1..]) {
        SubsequenceDistinct(r[1..], s[1..], key);
        SubsequenceMembers(r[1..], s[1..]);
        forall j | 0 < j < |r| ensures key(r[0]) != key(r[j]) {
          assert r[j] == r[1..][j - 1];
          var k :| 0 <= k < |s[1..]| && s[1..][k] == r[1..][j - 1];
          assert s[k + 1] == r[j];
        }
        forall i, j | 0 <= i < j < |r| ensures key(r[i]) != key(r[j]) {
          if i > 0 {
            assert r[i] == r[1..][i - 1] && r[j] == r[1..][j - 1];
          }
        }
      } else {
        SubsequenceDistinct(r, s[1..], key);
      }
    }
  }

  /** Every element of a subsequence occurs in the sequence, at some index. */
  lemma {:induction false} SubsequenceMembers<T>(r: seq<T>, s: seq<T>)
    requires IsSubsequence(r, s)
    ensures forall i :: 0 <= i < |r| ==> exists k :: 0 <= k < |s| && s[k] == r[i]
    decreases |s|
  {
    if r != [] {
      if r[0] == s[0] && IsSubsequence(r[1..], s[1..]) {
        SubsequenceMembers(r[1..], s[1..]);
        forall i | 0 <= i < |r| ensures exists k :: 0 <= k < |s| && s[k] == r[i] {
          if i == 0 {
            assert s[0] == r[0];
          } else {
            assert r[i] == r[1..][i - 1];
            var k :| 0 <= k < |s[1..]| && s[1..][k] == r[i];
            assert s[k + 1] == r[i];
          }
        }
      } else {
        SubsequenceMembers(r, s[1..]);
        forall i | 0 <= i < |r| ensures exists k :: 0 <= k < |s| && s[k] == r[i] {
          var k :| 0 <= k < |s[1..]| && s[1..][k] == r[i];
          assert s[k + 1] == r[i];
        }
      }
    }
  }

  /** `s.find(test)`: the first element passing the test, if any. */
  function Find<T>(s: seq<T>, test: T -> bool): (r: Option<T>)
    ensures r.None? <==> forall k :: 0 <= k < |s| ==> !test(s[k])
    ensures r.Some? ==> exists k :: (0 <= k < |s| && s[k] == r.value && test(r.value)
      && forall j :: 0 <= j < k ==> !test(s[j]))
  {
    if s == [] then None
    else if test(s[0]) then Some(s[0])
    else
      var r := Find(s[1..], test);
      assert r.Some? ==> exists k :: (0 <= k < |s| && s[k] == r.value && test(r.value)
        && forall j :: 0 <= j < k ==> !test(s[j])) by {
        if r.Some? {
          var k :| 0 <= k < |s[1..]| && s[1..][k] == r.value && test(r.value)
            && forall j :: 0 <= j < k ==> !test(s[1..][j]);
          assert s[k + 1] == r.value;
          forall j | 0 <= j < k + 1 ensures !test(s[j]) {
            if j > 0 { assert s[j] == s[1..][j - 1]; }
          }
        }
      }
      r
  }

  /** The first passing element is unique: any passing element with no earlier one is it. */
  lemma FindFirst<T>(s: seq<T>, test: T -> bool, k: nat)
    requires k < |s| && test(s[k]) && forall j :: 0 <= j < k ==> !test(s[j])
    ensures Find(s, test) == Some(s[k])
  {
    var r := Find(s, test);
    var m :| 0 <= m < |s| && s[m] == r.value && test(r.value) && forall j :: 0 <= j < m ==> !test(s[j]);
    assert m == k;
  }
}
