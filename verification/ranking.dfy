/**
 `Object.entries(tally).sort((a, b) => b.count - a.count).slice(0, 5)`: a stable
 sort by descending count (as `Array.prototype.sort` is required to be since
 ECMAScript 2019), then the first five entries.
 */
module Ranking {
  import opened Tallies

  /** How many openings are kept per colour. */
  const TopCount: nat := 5

  predicate NonIncreasing(s: seq<OpeningStat>)
  {
    forall i, j :: 0 <= i < j < |s| ==> s[i].count >= s[j].count
  }

  /** The entries whose count is `k`, in list order. */
  function WithCount(s: seq<OpeningStat>, k: nat): seq<OpeningStat>
  {
    if s == [] then [] else (if s[0].count == k then [s[0]] else []) + WithCount(s[1..], k)
  }

  /** Filtering a list that starts with `x`: `x` (when it has count `k`) then the rest's entries. */
  lemma WithCountCons(x: OpeningStat, s: seq<OpeningStat>, k: nat)
    ensures WithCount([x] + s, k) == (if x.count == k then [x] else []) + WithCount(s, k)
  {
    assert ([x] + s)[1..] == s;
  }

  lemma {:induction false} WithCountConcat(a: seq<OpeningStat>, b: seq<OpeningStat>, k: nat)
    ensures WithCount(a + b, k) == WithCount(a, k) + WithCount(b, k)
  {
    if a == [] {
      assert a + b == b;
    } else {
      var t := a[1..];
      assert a == [a[0]] + t;
      assert a + b == [a[0]] + (t + b);
      WithCountConcat(t, b, k);
      WithCountCons(a[0], t + b, k);
      WithCountCons(a[0], t, k);
    }
  }

  /** Inserts `x` into a list ahead of the first entry whose count does not exceed its own. */
  function Insert(x: OpeningStat, s: seq<OpeningStat>): (r: seq<OpeningStat>)
    ensures |r| == |s| + 1
  {
    if s == [] || x.count >= s[0].count then [x] + s else [s[0]] + Insert(x, s[1..])
  }

  /** Insertion adds `x` and loses nothing. */
  lemma {:induction false} InsertPermutes(x: OpeningStat, s: seq<OpeningStat>)
    ensures multiset(Insert(x, s)) == multiset(s) + multiset{x}
  {
    if s != [] && x.count < s[0].count {
      InsertPermutes(x, s[1..]);
      assert s == [s[0]] + s[1..];
    }
  }

  /** The head of an insertion is the inserted entry or the old head. */
  lemma InsertHead(x: OpeningStat, s: seq<OpeningStat>)
    ensures Insert(x, s)[0] == x || (s != [] && Insert(x, s)[0] == s[0])
  {
  }

  /** Inserting into a sorted list keeps it sorted. */
  lemma {:induction false} InsertSorted(x: OpeningStat, s: seq<OpeningStat>)
    requires NonIncreasing(s)
    ensures NonIncreasing(Insert(x, s))
  {
    if s != [] && x.count < s[0].count {
      var rest := Insert(x, s[1..]);
      InsertSorted(x, s[1..]);
      InsertHead(x, s[1..]);
      assert s[0].count >= rest[0].count;
      var r := [s[0]] + rest;
      assert Insert(x, s) == r;
      forall i, j | 0 <= i < j < |r|
        ensures r[i].count >= r[j].count
      {
        if i == 0 {
          assert r[j] == rest[j - 1];
        } else {
          assert r[i] == rest[i - 1] && r[j] == rest[j - 1];
        }
      }
    }
  }

  /** `x` lands ahead of the entries it ties with: for every count, the entries with that
      count are `x` (when it has it) followed by those of `s`, in their order. */
  lemma {:induction false} InsertWithCount(x: OpeningStat, s: seq<OpeningStat>, k: nat)
    ensures WithCount(Insert(x, s), k) == (if x.count == k then [x] else []) + WithCount(s, k)
  {
    if s == [] || x.count >= s[0].count {
      WithCountCons(x, s, k);
    } else {
      var h, t := s[0], s[1..];
      var rest := Insert(x, t);
      assert Insert(x, s) == [h] + rest;
      assert s == [h] + t;
      InsertWithCount(x, t, k);
      WithCountCons(h, rest, k);
      WithCountCons(h, t, k);
      var w := WithCount(t, k);
      if x.count == k {
        assert h.count != k;
        assert WithCount(Insert(x, s), k) == [x] + w;
        assert WithCount(s, k) == w;
      } else if h.count == k {
        assert WithCount(Insert(x, s), k) == [h] + w;
        assert WithCount(s, k) == [h] + w;
      } else {
        assert WithCount(Insert(x, s), k) == w;
        assert WithCount(s, k) == w;
      }
    }
  }

  /** Stable sort by descending count: a permutation of the input, non-increasing in count, and
      entries with equal counts stay in their input order. */
  function SortByCount(s: seq<OpeningStat>): (r: seq<OpeningStat>)
    ensures |r| == |s|
    ensures multiset(r) == multiset(s)
    ensures NonIncreasing(r)
    ensures forall k: nat :: WithCount(r, k) == WithCount(s, k)
  {
    if s == [] then []
    else
      var rest := SortByCount(s[1..]);
      assert s == [s[0]] + s[1..];
      InsertSorted(s[0], rest);
      InsertPermutes(s[0], rest);
      assert forall k: nat :: WithCount(Insert(s[0], rest), k) == WithCount(s, k) by {
        forall k: nat
          ensures WithCount(Insert(s[0], rest), k) == WithCount(s, k)
        {
          InsertWithCount(s[0], rest, k);
        }
      }
      Insert(s[0], rest)
  }

  /** A prefix of a sorted list holds entries played at least as often as any entry left behind. */
  lemma PrefixKeepsHighest(sorted: seq<OpeningStat>, n: nat, x: OpeningStat, y: OpeningStat)
    requires NonIncreasing(sorted) && n <= |sorted|
    requires x in sorted[..n] && y in sorted && y !in sorted[..n]
    ensures x.count >= y.count
  {
    var i :| 0 <= i < n && sorted[..n][i] == x;
    var m :| 0 <= m < |sorted| && sorted[m] == y;
  }

  /** Cutting a list keeps, for each count, a prefix of the entries with that count. */
  lemma PrefixWithCount(s: seq<OpeningStat>, n: nat, k: nat)
    requires n <= |s|
    ensures WithCount(s[..n], k) <= WithCount(s, k)
  {
    assert s == s[..n] + s[n..];
    WithCountConcat(s[..n], s[n..], k);
  }

  /** A prefix of a sorted permutation of `s` outranks everything it leaves behind. */
  lemma CutOutranksRest(s: seq<OpeningStat>, sorted: seq<OpeningStat>, n: nat)
    requires NonIncreasing(sorted) && multiset(sorted) == multiset(s) && n <= |sorted|
    ensures forall x, y :: x in sorted[..n] && y in s && y !in sorted[..n] ==> x.count >= y.count
  {
    forall x, y | x in sorted[..n] && y in s && y !in sorted[..n]
      ensures x.count >= y.count
    {
      assert y in multiset(sorted);
      PrefixKeepsHighest(sorted, n, x, y);
    }
  }

  /** A prefix of a permutation of `s` draws its entries from `s`. */
  lemma CutIsSubMultiset(s: seq<OpeningStat>, sorted: seq<OpeningStat>, n: nat)
    requires multiset(sorted) == multiset(s) && n <= |sorted|
    ensures multiset(sorted[..n]) <= multiset(s)
  {
    assert sorted == sorted[..n] + sorted[n..];
    assert multiset(sorted) == multiset(sorted[..n]) + multiset(sorted[n..]);
  }

  /** A prefix of a stable sort keeps, for each count, the first entries of `s` with that count. */
  lemma CutKeepsTieOrder(s: seq<OpeningStat>, sorted: seq<OpeningStat>, n: nat)
    requires n <= |sorted|
    requires forall k: nat :: WithCount(sorted, k) == WithCount(s, k)
    ensures forall k: nat :: WithCount(sorted[..n], k) <= WithCount(s, k)
  {
    forall k: nat
      ensures WithCount(sorted[..n], k) <= WithCount(s, k)
    {
      PrefixWithCount(sorted, n, k);
    }
  }

  /** In a list with distinct names every entry occurs at most once. */
  lemma {:induction false} DistinctOnce(s: seq<OpeningStat>, x: OpeningStat)
    requires Distinct(s)
    ensures multiset(s)[x] <= 1
  {
    if s != [] {
      var t := s[1..];
      assert s == [s[0]] + t;
      assert Distinct(t) by {
        forall i, j | 0 <= i < j < |t|
          ensures t[i].name != t[j].name
        {
          assert t[i] == s[i + 1] && t[j] == s[j + 1];
        }
      }
      DistinctOnce(t, x);
      NotInTail(s, x);
    }
  }

  /** The head's name does not recur, so an entry equal to the head is not in the tail. */
  lemma NotInTail(s: seq<OpeningStat>, x: OpeningStat)
    requires Distinct(s) && s != []
    ensures x == s[0] ==> multiset(s[1..])[x] == 0
  {
    if x in s[1..] {
      var i :| 0 <= i < |s[1..]| && s[1..][i] == x;
      assert s[i + 1] == x;
    }
  }

  /** An entry at two positions occurs at least twice. */
  lemma TwiceCounted(r: seq<OpeningStat>, i: nat, j: nat)
    requires i < j < |r|
    ensures r[i] == r[j] ==> multiset(r)[r[j]] >= 2
  {
    assert r == r[..j] + [r[j]] + r[j + 1..];
    assert r[i] == r[..j][i];
  }

  /** Two entries of a list with distinct names that share a name are the same entry. */
  lemma SameNameSame(s: seq<OpeningStat>, x: OpeningStat, y: OpeningStat)
    requires Distinct(s)
    ensures x in s && y in s && x.name == y.name ==> x == y
  {
    if x in s && y in s {
      var a :| 0 <= a < |s| && s[a] == x;
      var b :| 0 <= b < |s| && s[b] == y;
    }
  }

  /** Drawing entries from a list with distinct names, each at most as often as there, keeps
      the names distinct. */
  lemma SubMultisetDistinct(r: seq<OpeningStat>, s: seq<OpeningStat>)
    requires Distinct(s) && multiset(r) <= multiset(s)
    ensures Distinct(r)
  {
    forall i, j | 0 <= i < j < |r|
      ensures r[i].name != r[j].name
    {
      assert r[i] in multiset(r) && r[j] in multiset(r);
      SameNameSame(s, r[i], r[j]);
      TwiceCounted(r, i, j);
      DistinctOnce(s, r[j]);
    }
  }

  /** The ranked openings of one colour: the (at most) five most played, most played first,
      with no name twice when the tally has none twice. Every kept opening was played at least
      as often as every dropped one, and among equal counts the kept ones are the first in
      insertion order. */
  function Top(s: seq<OpeningStat>): (r: seq<OpeningStat>)
    ensures |r| == if |s| < TopCount then |s| else TopCount
    ensures NonIncreasing(r)
    ensures multiset(r) <= multiset(s)
    ensures forall x, y :: x in r && y in s && y !in r ==> x.count >= y.count
    ensures forall k: nat :: WithCount(r, k) <= WithCount(s, k)
    ensures Distinct(s) ==> Distinct(r)
  {
    var sorted := SortByCount(s);
    var n := if |s| < TopCount then |s| else TopCount;
    CutOutranksRest(s, sorted, n);
    CutIsSubMultiset(s, sorted, n);
    CutKeepsTieOrder(s, sorted, n);
    assert Distinct(s) ==> Distinct(sorted[..n]) by {
      if Distinct(s) {
        SubMultisetDistinct(sorted[..n], s);
      }
    }
    sorted[..n]
  }

  /** Sorting a list that is already non-increasing leaves it as it is. */
  lemma {:induction false} SortSortedIsIdentity(s: seq<OpeningStat>)
    requires NonIncreasing(s)
    ensures SortByCount(s) == s
  {
    if s != [] {
      SortSortedIsIdentity(s[1..]);
      assert s == [s[0]] + s[1..];
    }
  }

  /** So the ranking of an already ranked list is its first five entries. */
  lemma TopOfSorted(s: seq<OpeningStat>)
    requires NonIncreasing(s)
    ensures Top(s) == s[..if |s| < TopCount then |s| else TopCount]
  {
    SortSortedIsIdentity(s);
  }

  /** A non-empty list has an entry with its own head's count. */
  lemma HeadCounted(s: seq<OpeningStat>)
    ensures s != [] ==> WithCount(s, s[0].count) != []
  {
  }

  /** A non-increasing list has no entry with a count above its head's. */
  lemma {:induction false} AboveHeadAbsent(s: seq<OpeningStat>, k: nat)
    ensures NonIncreasing(s) && s != [] && k > s[0].count ==> WithCount(s, k) == []
  {
    if NonIncreasing(s) && s != [] && k > s[0].count && s[1..] != [] {
      AboveHeadAbsent(s[1..], k);
    }
  }

  /** Non-increasing order plus the same entries per count, in the same order, determine a list:
      every stable sort by descending count agrees with `SortByCount`. */
  lemma {:induction false} StableSortUnique(a: seq<OpeningStat>, b: seq<OpeningStat>)
    requires NonIncreasing(a) && NonIncreasing(b)
    requires forall k: nat :: WithCount(a, k) == WithCount(b, k)
    ensures a == b
    decreases |a| + |b|
  {
    HeadCounted(a);
    HeadCounted(b);
    if a != [] && b != [] {
      AboveHeadAbsent(a, b[0].count);
      AboveHeadAbsent(b, a[0].count);
      var m := a[0].count;
      assert m == b[0].count;
      assert WithCount(a, m) == [a[0]] + WithCount(a[1..], m);
      assert WithCount(b, m) == [b[0]] + WithCount(b[1..], m);
      assert a[0] == WithCount(a, m)[0] == WithCount(b, m)[0] == b[0];
      forall k: nat
        ensures WithCount(a[1..], k) == WithCount(b[1..], k)
      {
        var wa := WithCount(a, k);
        assert wa == WithCount(b, k);
        if k == m {
          assert wa[1..] == WithCount(a[1..], k);
          assert wa[1..] == WithCount(b[1..], k);
        } else {
          assert wa == WithCount(a[1..], k);
          assert wa == WithCount(b[1..], k);
        }
      }
      StableSortUnique(a[1..], b[1..]);
      assert a == [a[0]] + a[1..] && b == [b[0]] + b[1..];
    }
  }

  /** The cut can drop an opening played more often than another dropped one: with counts
      9, 9, 9, 9, 9, 8, 7 (openings "a" to "g") both the 8 and the 7 are left out, so what holds
      is only that every kept opening is played at least as often as every dropped one. */
  lemma DroppedCanOutrankDropped()
    ensures var s := seq(7, i requires 0 <= i < 7 =>
                         OpeningStat([('a' as int + i) as char], if i < 5 then 9 else 13 - i, 0, 0));
            && s[5] !in Top(s) && s[6] !in Top(s) && s[5].count > s[6].count
  {
    var s := seq(7, i requires 0 <= i < 7 =>
                 OpeningStat([('a' as int + i) as char], if i < 5 then 9 else 13 - i, 0, 0));
    TopOfSorted(s);
    var top := Top(s);
    assert top == s[..5];
    assert forall x :: x in top ==> x.count == 9;
  }
}
