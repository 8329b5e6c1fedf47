/**
 * Sequences of primary keys: strictly ascending listings, prefixes of
 * bounded length, and the split of a listing into consecutive pages.
 */
module Sequences {

  /** Every key is strictly smaller than every key after it. */
  predicate Increasing(s: seq<int>) {
    forall i, j :: 0 <= i < j < |s| ==> s[i] < s[j]
  }

  /** Two ascending listings of the same keys are the same listing. */
  lemma {:induction false} IncreasingUnique(a: seq<int>, b: seq<int>)
    requires Increasing(a) && Increasing(b)
    requires forall k :: k in a <==> k in b
    ensures a == b
    decreases |a|
  {
    if a == [] {
      HeadMember(b);
    } else {
      assert a[0] in a;
      assert a[0] in b;
      assert b != [] && b[0] in a;
      assert a[0] == b[0] by {
        var i :| 0 <= i < |b| && b[i] == a[0];
        var j :| 0 <= j < |a| && a[j] == b[0];
        assert b[0] <= b[i];
        assert a[0] <= a[j];
      }
      forall k
        ensures k in a[1..] <==> k in b[1..]
      {
        if k in a[1..] {
          var i :| 1 <= i < |a| && a[i] == k;
          assert k != a[0];
          assert k in b;
          var j :| 0 <= j < |b| && b[j] == k;
          assert j != 0;
          assert b[j] == b[1..][j - 1];
        }
        if k in b[1..] {
          var j :| 1 <= j < |b| && b[j] == k;
          assert k != b[0];
          assert k in a;
          var i :| 0 <= i < |a| && a[i] == k;
          assert i != 0;
          assert a[i] == a[1..][i - 1];
        }
      }
      IncreasingSlice(a, 1, |a|);
      IncreasingSlice(b, 1, |b|);
      IncreasingUnique(a[1..], b[1..]);
      assert a == [a[0]] + a[1..];
      assert b == [b[0]] + b[1..];
    }
  }

  lemma HeadMember(s: seq<int>)
    ensures s != [] ==> s[0] in s
  {
  }

  /** A slice of an ascending listing is ascending. */
  lemma IncreasingSlice(s: seq<int>, lo: int, hi: int)
    requires Increasing(s) && 0 <= lo <= hi <= |s|
    ensures Increasing(s[lo..hi])
  {
    forall i, j | 0 <= i < j < hi - lo ensures s[lo..hi][i] < s[lo..hi][j] {
      assert s[lo..hi][i] == s[lo + i] && s[lo..hi][j] == s[lo + j];
    }
  }

  /** The first `n` elements of `s`, or all of them when there are fewer. */
  function Take(s: seq<int>, n: nat): (r: seq<int>)
    ensures |r| == if |s| < n then |s| else n
    ensures r == s[..|r|]
  {
    if |s| <= n then s else s[..n]
  }

  /** The first `n` keys of an ascending listing are those up to the n-th one. */
  lemma TakeMembers(s: seq<int>, n: nat)
    requires Increasing(s) && n >= 1
    ensures Increasing(Take(s, n))
    ensures forall k :: k in Take(s, n) <==> k in s && (|Take(s, n)| < n || k <= Take(s, n)[n - 1])
  {
    var t := Take(s, n);
    IncreasingSlice(s, 0, |t|);
    forall k | k in s && |t| == n && k <= t[n - 1] ensures k in t {
      var j :| 0 <= j < |s| && s[j] == k;
      assert t[j] == k;
    }
  }

  /** What follows the first `n` keys of an ascending listing is everything above the n-th key. */
  lemma DropMembers(s: seq<int>, n: nat)
    requires Increasing(s) && 1 <= n <= |s|
    ensures Increasing(s[n..])
    ensures forall k :: k in s[n..] <==> k in s && s[n - 1] < k
  {
    IncreasingSlice(s, n, |s|);
    forall k | k in s && s[n - 1] < k ensures k in s[n..] {
      var j :| 0 <= j < |s| && s[j] == k;
      assert s[n..][j - n] == k;
    }
  }

  lemma ConcatAssoc(a: seq<seq<int>>, b: seq<seq<int>>, c: seq<seq<int>>)
    ensures a + (b + c) == (a + b) + c
  {
  }

  /** The pages of a pass, laid end to end. */
  function Flatten(pages: seq<seq<int>>): (r: seq<int>)
  {
    if pages == [] then [] else pages[0] + Flatten(pages[1..])
  }

  lemma {:induction false} FlattenAppend(pages: seq<seq<int>>, page: seq<int>)
    ensures Flatten(pages + [page]) == Flatten(pages) + page
    decreases |pages|
  {
    if pages == [] {
      assert [page][1..] == [];
    } else {
      assert (pages + [page])[1..] == pages[1..] + [page];
      FlattenAppend(pages[1..], page);
    }
  }

  /**
   * The reference split of a listing into pages of `of` keys: every page is
   * full except possibly the last, which is never empty.
   */
  function Chunks(s: seq<int>, of: int): (r: seq<seq<int>>)
    requires of >= 1
    ensures Flatten(r) == s
    ensures forall i :: 0 <= i < |r| ==> 0 < |r[i]| <= of
    ensures forall i :: 0 <= i < |r| - 1 ==> |r[i]| == of
    decreases |s|
  {
    if |s| == 0 then []
    else if |s| < of then
      assert [s][1..] == [];
      [s]
    else
      var rest := Chunks(s[of..], of);
      assert ([s[..of]] + rest)[1..] == rest;
      assert s == s[..of] + s[of..];
      [s[..of]] + rest
  }

  /**
   * Chunks undoes Flatten: pages shaped as Chunks makes them (non-empty, at
   * most `of` keys, all full but the last) are the split of their keys.
   */
  lemma {:induction false} ChunksFlatten(pages: seq<seq<int>>, of: int)
    requires of >= 1
    requires forall i :: 0 <= i < |pages| ==> 0 < |pages[i]| <= of
    requires forall i :: 0 <= i < |pages| - 1 ==> |pages[i]| == of
    ensures Chunks(Flatten(pages), of) == pages
    decreases |pages|
  {
    if pages != [] {
      var s := Flatten(pages);
      var tail := pages[1..];
      assert s == pages[0] + Flatten(tail);
      if tail == [] {
        assert s == pages[0];
        if |s| == of {
          assert s[of..] == [];
        }
      } else {
        assert |pages[0]| == of;
        assert s[..of] == pages[0] && s[of..] == Flatten(tail);
        ChunksFlatten(tail, of);
        assert pages == [pages[0]] + tail;
      }
    }
  }

  /** A listing of `n` keys splits into ceil(n / of) pages. */
  lemma {:induction false} ChunksCount(s: seq<int>, of: int)
    requires of >= 1
    ensures |Chunks(s, of)| == (|s| + of - 1) / of
    decreases |s|
  {
    var n := |s|;
    if n == 0 {
      DivUnique(of - 1, of, 0, of - 1);
    } else if n < of {
      DivUnique(n + of - 1, of, 1, n - 1);
    } else {
      var rest := s[of..];
      assert Chunks(s, of) == [s[..of]] + Chunks(rest, of);
      ChunksCount(rest, of);
      var c := |Chunks(rest, of)|;
      assert c == (n - 1) / of;
      DivShift(n + of - 1, of);
      assert (n - 1) / of + 1 == (n + of - 1) / of;
    }
  }

  /** The quotient of a natural number by a positive divisor is a natural number. */
  lemma DivNat(x: nat, d: int)
    requires d >= 1
    ensures x / d >= 0
  {
    MulMono(x / d, d);
  }

  /** Adding the divisor to the dividend adds one to the quotient. */
  lemma DivShift(x: int, d: int)
    requires d >= 1
    ensures (x - d) / d + 1 == x / d
  {
    var q, r := (x - d) / d, (x - d) % d;
    assert x - d == q * d + r && 0 <= r < d;
    assert (q + 1) * d == q * d + d;
    DivUnique(x, d, q + 1, r);
  }

  /** Euclidean division is determined by the quotient and remainder it produces. */
  lemma DivUnique(x: int, d: int, q: int, r: int)
    requires d >= 1 && 0 <= r < d && x == q * d + r
    ensures x / d == q
  {
    var q', r' := x / d, x % d;
    assert x == q' * d + r' && 0 <= r' < d;
    assert (q - q') * d == q * d - q' * d;
    MulMono(q - q', d);
  }

  /** Laying out two runs of pages end to end lays out their keys end to end. */
  lemma {:induction false} FlattenConcat(a: seq<seq<int>>, b: seq<seq<int>>)
    ensures Flatten(a + b) == Flatten(a) + Flatten(b)
    decreases |a|
  {
    if a != [] {
      assert (a + b)[1..] == a[1..] + b;
      FlattenConcat(a[1..], b);
    } else {
      assert a + b == b;
    }
  }

  /** Pages that are all full hold `of` keys each. */
  lemma {:induction false} FlattenFull(pages: seq<seq<int>>, of: int)
    requires forall i :: 0 <= i < |pages| ==> |pages[i]| == of
    ensures |Flatten(pages)| == |pages| * of
    decreases |pages|
  {
    if pages != [] {
      FlattenFull(pages[1..], of);
      MulSucc(|pages| - 1, of);
    }
  }

  lemma MulSucc(a: int, b: int)
    ensures (a + 1) * b == a * b + b
  {
  }

  /** A non-zero multiple of `d` is at least `d` away from zero. */
  lemma {:induction false} MulMono(k: int, d: int)
    requires d >= 1
    ensures k >= 1 ==> k * d >= d
    ensures k <= -1 ==> k * d <= -d
    decreases if k < 0 then -k else k
  {
    if k > 1 {
      MulMono(k - 1, d);
      assert k * d == (k - 1) * d + d;
    } else if k < -1 {
      MulMono(k + 1, d);
      assert k * d == (k + 1) * d - d;
    }
  }

  /** Two ascending listings, the first entirely below the second, make an ascending listing. */
  lemma ConcatIncreasing(a: seq<int>, b: seq<int>)
    requires Increasing(a) && Increasing(b)
    requires forall x, y :: x in a && y in b ==> x < y
    ensures Increasing(a + b)
  {
    var f := a + b;
    forall i, j | 0 <= i < j < |f| ensures f[i] < f[j] {
      if j < |a| {
        assert f[i] == a[i] && f[j] == a[j];
      } else if |a| <= i {
        assert f[i] == b[i - |a|] && f[j] == b[j - |a|];
      } else {
        assert f[i] == a[i] && a[i] in a;
        assert f[j] == b[j - |a|] && b[j - |a|] in b;
      }
    }
  }

  /** The two halves of an ascending listing are ascending, and the first lies below the second. */
  lemma AppendIncreasing(a: seq<int>, b: seq<int>)
    requires Increasing(a + b)
    ensures Increasing(a) && Increasing(b)
    ensures forall x, y :: x in a && y in b ==> x < y
  {
    var f := a + b;
    forall i, j | 0 <= i < j < |a| ensures a[i] < a[j] {
      assert a[i] == f[i] && a[j] == f[j];
    }
    forall i, j | 0 <= i < j < |b| ensures b[i] < b[j] {
      assert b[i] == f[|a| + i] && b[j] == f[|a| + j];
    }
    forall x, y | x in a && y in b ensures x < y {
      var i :| 0 <= i < |a| && a[i] == x;
      var j :| 0 <= j < |b| && b[j] == y;
      assert f[i] == x && f[|a| + j] == y;
    }
  }

  /**
   * When the pages laid end to end are ascending, each page is ascending and
   * every key of an earlier page is below every key of a later one.
   */
  lemma {:induction false} FlattenIncreasing(pages: seq<seq<int>>)
    requires Increasing(Flatten(pages))
    ensures forall i :: 0 <= i < |pages| ==> Increasing(pages[i])
    ensures forall i, j, x, y :: 0 <= i < j < |pages| && x in pages[i] && y in pages[j] ==> x < y
    decreases |pages|
  {
    if pages != [] {
      var tail := pages[1..];
      assert Flatten(pages) == pages[0] + Flatten(tail);
      AppendIncreasing(pages[0], Flatten(tail));
      FlattenIncreasing(tail);
      FlattenMember(tail);
      forall i, j, x, y | 0 <= i < j < |pages| && x in pages[i] && y in pages[j]
        ensures x < y
      {
        assert y in tail[j - 1];
        if i == 0 {
          assert y in Flatten(tail);
        } else {
          assert x in tail[i - 1];
        }
      }
    }
  }

  /**
   * When the pages laid end to end are ascending, the pages after page `i`
   * laid end to end are ascending and hold exactly the keys above the last
   * key of page `i`.
   */
  lemma FlattenAfter(pages: seq<seq<int>>, i: int)
    requires Increasing(Flatten(pages)) && 0 <= i < |pages| && pages[i] != []
    ensures Increasing(Flatten(pages[i + 1..]))
    ensures forall k :: k in Flatten(pages[i + 1..]) <==> k in Flatten(pages) && pages[i][|pages[i]| - 1] < k
  {
    var done, rest := pages[..i + 1], pages[i + 1..];
    var last := pages[i][|pages[i]| - 1];
    assert pages == done + rest;
    FlattenConcat(done, rest);
    AppendIncreasing(Flatten(done), Flatten(rest));
    assert done == pages[..i] + [pages[i]];
    FlattenAppend(pages[..i], pages[i]);
    var before := Flatten(done);
    assert before[|before| - 1] == last;
    forall k | k in before ensures k <= last {
      var j :| 0 <= j < |before| && before[j] == k;
      assert before[j] <= before[|before| - 1];
    }
    assert last in before;
    forall k ensures k in Flatten(rest) <==> k in Flatten(pages) && last < k {
      assert k in Flatten(pages) <==> k in before || k in Flatten(rest);
    }
  }

  /** Every key of a page occurs in the pages laid end to end. */
  lemma {:induction false} FlattenMember(pages: seq<seq<int>>)
    ensures forall i, x :: 0 <= i < |pages| && x in pages[i] ==> x in Flatten(pages)
    decreases |pages|
  {
    if pages != [] {
      FlattenMember(pages[1..]);
      forall i, x | 0 <= i < |pages| && x in pages[i] ensures x in Flatten(pages) {
        if i > 0 {
          assert x in pages[1..][i - 1];
        }
      }
    }
  }
}
