/**
 * Small generic vocabulary shared by the models: optional values, results,
 * counting and summing over the rows of a table, the distinct keys of a
 * GROUP BY, and a stable sort by an integer key.
 */
module Common {

  datatype Option<+T> = None | Some(value: T)

  function GetOr<T>(o: Option<T>, default: T): (r: T)
    ensures o.Some? ==> r == o.value
    ensures o.None? ==> r == default
  {
    if o.Some? then o.value else default
  }

  /** Python truthiness of an optional id: a missing id and the id 0 are both false. */
  predicate Truthy(id: Option<int>) {
    id.Some? && id.value != 0
  }

  // ---------------------------------------------------------------------
  // First match (a query's `.first()`, a `for ... return` search)
  // ---------------------------------------------------------------------

  /** Index of the first row of `s` that satisfies `p`. */
  function First<T>(s: seq<T>, p: T -> bool): (r: Option<nat>)
    ensures r.None? <==> forall i :: 0 <= i < |s| ==> !p(s[i])
    ensures r.Some? ==> r.value < |s| && p(s[r.value])
    ensures r.Some? ==> forall i :: 0 <= i < r.value ==> !p(s[i])
  {
    if s == [] then None
    else if p(s[0]) then Some(0)
    else
      match First(s[1..], p)
      case None => None
      case Some(k) => Some(k + 1)
  }

  /** A row appended at the end is found only when no earlier row matches. */
  lemma {:induction false} FirstAppend<T>(s: seq<T>, x: T, p: T -> bool)
    ensures First(s + [x], p) ==
      if First(s, p).Some? then First(s, p) else if p(x) then Some(|s|) else None
  {
    if s == [] {
      assert [x][1..] == [];
    } else {
      assert (s + [x])[0] == s[0];
      assert (s + [x])[1..] == s[1..] + [x];
      FirstAppend(s[1..], x, p);
    }
  }

  /** Changing a row that matches neither before nor after keeps the first match. */
  lemma {:induction false} FirstUpdateOther<T>(s: seq<T>, i: nat, x: T, p: T -> bool)
    requires i < |s| && !p(x) && !p(s[i])
    ensures First(s[i := x], p) == First(s, p)
  {
    if i == 0 {
      assert s[i := x][1..] == s[1..];
    } else {
      assert s[i := x][0] == s[0];
      assert s[i := x][1..] == s[1..][i - 1 := x];
      FirstUpdateOther(s[1..], i - 1, x, p);
    }
  }

  // ---------------------------------------------------------------------
  // Filtering (a WHERE clause, a list comprehension with a condition)
  // ---------------------------------------------------------------------

  /** The rows of `s` that satisfy `p`, in their order. */
  function Filter<T>(s: seq<T>, p: T -> bool): (r: seq<T>)
    ensures |r| == Count(s, p)
    ensures forall j :: 0 <= j < |r| ==> p(r[j]) && r[j] in s
    ensures forall i :: 0 <= i < |s| && p(s[i]) ==> s[i] in r
  {
    if s == [] then []
    else
      var init := s[..|s| - 1];
      var r0 := Filter(init, p);
      assert forall i :: 0 <= i < |init| ==> s[i] == init[i];
      if p(s[|s| - 1]) then r0 + [s[|s| - 1]] else r0
  }
  /**
   * Where the rows of `Filter(s, p)` sit in `s`: strictly increasing
   * indices, so the filter keeps the table's order.
   */
  function FilterIndices<T>(s: seq<T>, p: T -> bool): (idx: seq<nat>)
    ensures |idx| == |Filter(s, p)|
    ensures forall k :: 0 <= k < |idx| ==> idx[k] < |s| && Filter(s, p)[k] == s[idx[k]]
    ensures forall k, l :: 0 <= k < l < |idx| ==> idx[k] < idx[l]
  {
    if s == [] then []
    else
      var init := s[..|s| - 1];
      var i0 := FilterIndices(init, p);
      var idx := if p(s[|s| - 1]) then i0 + [|s| - 1] else i0;
      FilterIndicesStep(s, p, i0, idx);
      idx
  }

  lemma FilterIndicesStep<T>(s: seq<T>, p: T -> bool, i0: seq<nat>, idx: seq<nat>)
    requires s != []
    requires |i0| == |Filter(s[..|s| - 1], p)|
    requires forall k :: 0 <= k < |i0| ==> i0[k] < |s| - 1 && Filter(s[..|s| - 1], p)[k] == s[..|s| - 1][i0[k]]
    requires forall k, l :: 0 <= k < l < |i0| ==> i0[k] < i0[l]
    requires idx == if p(s[|s| - 1]) then i0 + [|s| - 1] else i0
    ensures |idx| == |Filter(s, p)|
    ensures forall k :: 0 <= k < |idx| ==> idx[k] < |s| && Filter(s, p)[k] == s[idx[k]]
    ensures forall k, l :: 0 <= k < l < |idx| ==> idx[k] < idx[l]
  {
    var init := s[..|s| - 1];
    var r0 := Filter(init, p);
    var r := Filter(s, p);
    assert r == if p(s[|s| - 1]) then r0 + [s[|s| - 1]] else r0;
    forall k | 0 <= k < |idx|
      ensures idx[k] < |s| && r[k] == s[idx[k]]
    {
      if k < |i0| {
        assert idx[k] == i0[k];
        assert r[k] == r0[k];
      }
    }
  }

  /** A member of a filtered sequence was in the original and passes the filter. */
  lemma FilterMember<T>(s: seq<T>, p: T -> bool, x: T)
    requires x in Filter(s, p)
    ensures p(x) && x in s
  {
  }


  // ---------------------------------------------------------------------
  // Counting (SQL COUNT, Python len of a comprehension)
  // ---------------------------------------------------------------------

  /** Indices of the rows of `s` that satisfy `p`. */
  ghost function Where<T>(s: seq<T>, p: T -> bool): set<nat> {
    set i: nat | i < |s| && p(s[i])
  }

  /** Number of rows of `s` that satisfy `p`, counted from the back. */
  function Count<T>(s: seq<T>, p: T -> bool): (n: nat)
    ensures n <= |s|
    ensures n == |Where(s, p)|
  {
    if s == [] then 0
    else
      var init := s[..|s| - 1];
      var n0 := Count(init, p);
      assert Where(s, p) == Where(init, p) + (if p(s[|s| - 1]) then {|s| - 1} else {});
      n0 + (if p(s[|s| - 1]) then 1 else 0)
  }

  lemma CountZero<T>(s: seq<T>, p: T -> bool)
    ensures Count(s, p) == 0 <==> forall i :: 0 <= i < |s| ==> !p(s[i])
  {
    if Count(s, p) == 0 {
      forall i | 0 <= i < |s| ensures !p(s[i]) {
        assert p(s[i]) ==> i in Where(s, p);
      }
    } else {
      var i :| i in Where(s, p);
    }
  }

  lemma CountAppend<T>(s: seq<T>, x: T, p: T -> bool)
    ensures Count(s + [x], p) == Count(s, p) + (if p(x) then 1 else 0)
  {
    assert (s + [x])[..|s|] == s;
  }

  /** Replacing one row changes the count by what the two rows contribute. */
  lemma {:induction false} CountUpdate<T>(s: seq<T>, i: nat, x: T, p: T -> bool)
    requires i < |s|
    ensures Count(s[i := x], p) ==
            Count(s, p) - (if p(s[i]) then 1 else 0) + (if p(x) then 1 else 0)
  {
    var last := |s| - 1;
    if i == last {
      assert s[i := x][..last] == s[..last];
    } else {
      CountUpdate(s[..last], i, x, p);
      assert s[i := x][..last] == s[..last][i := x];
    }
  }

  /** A count of a disjunction of disjoint conditions is the sum of the counts. */
  lemma {:induction false} CountDisjoint<T>(s: seq<T>, p: T -> bool, q: T -> bool, pq: T -> bool)
    requires forall x :: pq(x) <==> (p(x) || q(x))
    requires forall x :: !(p(x) && q(x))
    ensures Count(s, pq) == Count(s, p) + Count(s, q)
  {
    if s != [] {
      CountDisjoint(s[..|s| - 1], p, q, pq);
    }
  }

  /** A condition that implies another is met by no more rows. */
  lemma {:induction false} CountMono<T>(s: seq<T>, p: T -> bool, q: T -> bool)
    requires forall x :: p(x) ==> q(x)
    ensures Count(s, p) <= Count(s, q)
  {
    if s != [] {
      CountMono(s[..|s| - 1], p, q);
    }
  }

  /** Every row satisfies exactly one of a condition and its complement. */
  lemma {:induction false} CountComplement<T>(s: seq<T>, p: T -> bool, q: T -> bool)
    requires forall x :: q(x) <==> !p(x)
    ensures Count(s, p) + Count(s, q) == |s|
  {
    if s != [] {
      CountComplement(s[..|s| - 1], p, q);
    }
  }

  // ---------------------------------------------------------------------
  // Summing (SQL SUM of a column over the rows a WHERE keeps; 0 when none)
  // ---------------------------------------------------------------------

  function Sum<T>(s: seq<T>, p: T -> bool, amount: T -> int): int {
    if s == [] then 0
    else Sum(s[..|s| - 1], p, amount) + (if p(s[|s| - 1]) then amount(s[|s| - 1]) else 0)
  }

  lemma SumAppend<T>(s: seq<T>, x: T, p: T -> bool, amount: T -> int)
    ensures Sum(s + [x], p, amount) == Sum(s, p, amount) + (if p(x) then amount(x) else 0)
  {
    assert (s + [x])[..|s|] == s;
  }

  /** A sum over two tables laid end to end is the sum of the two sums. */
  lemma {:induction false} SumConcat<T>(s: seq<T>, t: seq<T>, p: T -> bool, amount: T -> int)
    ensures Sum(s + t, p, amount) == Sum(s, p, amount) + Sum(t, p, amount)
  {
    if t == [] {
      assert s + t == s;
    } else {
      var init := t[..|t| - 1];
      assert s + t == (s + init) + [t[|t| - 1]];
      SumConcat(s, init, p, amount);
      SumAppend(s + init, t[|t| - 1], p, amount);
      SumAppend(init, t[|t| - 1], p, amount);
      assert init + [t[|t| - 1]] == t;
    }
  }

  /** Removing the row at `i` takes away exactly its own contribution. */
  lemma SumRemove<T>(s: seq<T>, i: nat, p: T -> bool, amount: T -> int)
    requires i < |s|
    ensures Sum(s[..i] + s[i + 1..], p, amount) == Sum(s, p, amount) - (if p(s[i]) then amount(s[i]) else 0)
  {
    assert s == s[..i] + [s[i]] + s[i + 1..];
    SumConcat(s[..i] + [s[i]], s[i + 1..], p, amount);
    SumAppend(s[..i], s[i], p, amount);
    SumConcat(s[..i], s[i + 1..], p, amount);
  }

  /** Rows the WHERE clause drops do not contribute. */
  lemma {:induction false} SumNone<T>(s: seq<T>, p: T -> bool, amount: T -> int)
    requires forall i :: 0 <= i < |s| ==> !p(s[i])
    ensures Sum(s, p, amount) == 0
  {
    if s != [] {
      SumNone(s[..|s| - 1], p, amount);
    }
  }

  /** Summing over a condition split in two disjoint parts. */
  lemma {:induction false} SumDisjoint<T>(s: seq<T>, p: T -> bool, q: T -> bool, pq: T -> bool, amount: T -> int)
    requires forall x :: pq(x) <==> (p(x) || q(x))
    requires forall x :: !(p(x) && q(x))
    ensures Sum(s, pq, amount) == Sum(s, p, amount) + Sum(s, q, amount)
  {
    if s != [] {
      SumDisjoint(s[..|s| - 1], p, q, pq, amount);
    }
  }

  /** With non-negative amounts a sum is non-negative. */
  lemma {:induction false} SumNonNegative<T>(s: seq<T>, p: T -> bool, amount: T -> int)
    requires forall i :: 0 <= i < |s| ==> amount(s[i]) >= 0
    ensures Sum(s, p, amount) >= 0
  {
    if s != [] {
      SumNonNegative(s[..|s| - 1], p, amount);
    }
  }

  // ---------------------------------------------------------------------
  // GROUP BY: the distinct keys of the kept rows, and the sum of one group
  // ---------------------------------------------------------------------

  /** The distinct keys of the rows of `s` that `p` keeps, in order of first appearance. */
  function Keys<T, K(==)>(s: seq<T>, p: T -> bool, key: T -> K): (ks: seq<K>)
    ensures forall a, b :: 0 <= a < b < |ks| ==> ks[a] != ks[b]
    ensures forall i :: 0 <= i < |s| && p(s[i]) ==> key(s[i]) in ks
    ensures forall k :: k in ks ==> exists i :: 0 <= i < |s| && p(s[i]) && key(s[i]) == k
  {
    if s == [] then []
    else
      var init := s[..|s| - 1];
      var x := s[|s| - 1];
      var k0 := Keys(init, p, key);
      assert forall i :: 0 <= i < |init| ==> s[i] == init[i];
      if p(x) && key(x) !in k0 then k0 + [key(x)] else k0
  }

  /** Sum of the amounts of the kept rows whose key is `k`. */
  function GroupSum<T, K(==)>(s: seq<T>, p: T -> bool, key: T -> K, k: K, amount: T -> int): int {
    if s == [] then 0
    else
      var x := s[|s| - 1];
      GroupSum(s[..|s| - 1], p, key, k, amount) + (if p(x) && key(x) == k then amount(x) else 0)
  }

  /** Sum of the group sums over a list of keys. */
  function GroupTotal<T, K(==)>(ks: seq<K>, s: seq<T>, p: T -> bool, key: T -> K, amount: T -> int): int {
    if ks == [] then 0
    else GroupTotal(ks[..|ks| - 1], s, p, key, amount) + GroupSum(s, p, key, ks[|ks| - 1], amount)
  }

  lemma {:induction false} GroupSumAbsent<T, K>(s: seq<T>, p: T -> bool, key: T -> K, k: K, amount: T -> int)
    requires forall i :: 0 <= i < |s| && p(s[i]) ==> key(s[i]) != k
    ensures GroupSum(s, p, key, k, amount) == 0
  {
    if s != [] {
      GroupSumAbsent(s[..|s| - 1], p, key, k, amount);
    }
  }

  /** Appending a row adds its amount to the one group among `ks` that holds its key. */
  lemma {:induction false} GroupTotalAppend<T, K>(ks: seq<K>, s: seq<T>, x: T, p: T -> bool, key: T -> K, amount: T -> int)
    requires forall a, b :: 0 <= a < b < |ks| ==> ks[a] != ks[b]
    ensures GroupTotal(ks, s + [x], p, key, amount) ==
            GroupTotal(ks, s, p, key, amount) + (if p(x) && key(x) in ks then amount(x) else 0)
  {
    assert (s + [x])[..|s|] == s;
    if ks != [] {
      var init := ks[..|ks| - 1];
      GroupTotalAppend(init, s, x, p, key, amount);
      assert key(x) in ks <==> key(x) in init || key(x) == ks[|ks| - 1] by {
        assert ks == init + [ks[|ks| - 1]];
      }
      assert key(x) == ks[|ks| - 1] ==> key(x) !in init;
    }
  }

  /** Extending a prefix of the keys by one key adds that key's group sum. */
  lemma GroupTotalStep<T, K>(ks: seq<K>, a: nat, s: seq<T>, p: T -> bool, key: T -> K, amount: T -> int)
    requires a < |ks|
    ensures GroupTotal(ks[..a + 1], s, p, key, amount) ==
            GroupTotal(ks[..a], s, p, key, amount) + GroupSum(s, p, key, ks[a], amount)
  {
    assert ks[..a + 1][..a] == ks[..a];
  }

  /** `f` applied to every element of `s`, in order. */
  function MapSeq<A, B>(f: A -> B, s: seq<A>): seq<B> {
    if s == [] then [] else MapSeq(f, s[..|s| - 1]) + [f(s[|s| - 1])]
  }

  lemma MapSeqStep<A, B>(f: A -> B, s: seq<A>, i: nat)
    requires i < |s|
    ensures MapSeq(f, s[..i + 1]) == MapSeq(f, s[..i]) + [f(s[i])]
  {
    assert s[..i + 1][..i] == s[..i];
  }

  lemma {:induction false} MapSeqEntries<A, B>(f: A -> B, s: seq<A>)
    ensures |MapSeq(f, s)| == |s|
    ensures forall k :: 0 <= k < |s| ==> MapSeq(f, s)[k] == f(s[k])
  {
    if s != [] {
      MapSeqEntries(f, s[..|s| - 1]);
    }
  }

  /** `f(n - 1), ..., f(1), f(0)`: the list built by putting `f(0)`, `f(1)`, ... each at the front. */
  function Countdown<T>(f: nat -> T, n: nat): seq<T> {
    if n == 0 then [] else [f(n - 1)] + Countdown(f, n - 1)
  }

  lemma {:induction false} CountdownEntries<T>(f: nat -> T, n: nat)
    ensures |Countdown(f, n)| == n
    ensures forall k :: 0 <= k < n ==> Countdown(f, n)[k] == f(n - 1 - k)
  {
    if n > 0 {
      CountdownEntries(f, n - 1);
    }
  }

  /** The per-key totals of a GROUP BY add up to the total of all kept rows. */
  lemma {:induction false} GroupTotalsAddUp<T, K>(s: seq<T>, p: T -> bool, key: T -> K, amount: T -> int)
    ensures GroupTotal(Keys(s, p, key), s, p, key, amount) == Sum(s, p, amount)
  {
    if s != [] {
      var init := s[..|s| - 1];
      var x := s[|s| - 1];
      assert s == init + [x];
      var k0 := Keys(init, p, key);
      GroupTotalsAddUp(init, p, key, amount);
      GroupTotalAppend(k0, init, x, p, key, amount);
      if p(x) && key(x) !in k0 {
        var ks := k0 + [key(x)];
        assert ks[..|k0|] == k0;
        GroupSumAbsent(init, p, key, key(x), amount);
        assert GroupSum(s, p, key, key(x), amount) == amount(x);
      }
    }
  }

  // ---------------------------------------------------------------------
  // Stable sorting by an integer key (Python's sorted, SQL ORDER BY)
  // ---------------------------------------------------------------------

  ghost predicate SortedBy<T>(s: seq<T>, key: T -> int) {
    forall i, j :: 0 <= i < j < |s| ==> key(s[i]) <= key(s[j])
  }

  /** Inserts `x` after every element whose key is not greater than its own. */
  function Insert<T>(s: seq<T>, x: T, key: T -> int): (r: seq<T>)
    requires SortedBy(s, key)
    ensures SortedBy(r, key)
    ensures multiset(r) == multiset(s) + multiset{x}
  {
    if s == [] then [x]
    else if key(x) < key(s[0]) then [x] + s
    else
      var rest := Insert(s[1..], x, key);
      assert s == [s[0]] + s[1..];
      LeastFirst(s[0], s[1..], x, rest, key);
      [s[0]] + rest
  }

  /** Putting `h` in front of a sorted rearrangement of `t` and `x` keeps it sorted when `h` is least. */
  lemma LeastFirst<T>(h: T, t: seq<T>, x: T, rest: seq<T>, key: T -> int)
    requires SortedBy([h] + t, key) && key(h) <= key(x)
    requires SortedBy(rest, key) && multiset(rest) == multiset(t) + multiset{x}
    ensures SortedBy([h] + rest, key)
  {
    forall i | 0 <= i < |rest| ensures key(h) <= key(rest[i]) {
      assert rest[i] in multiset(rest);
      if rest[i] != x {
        assert rest[i] in multiset(t);
        var k :| 0 <= k < |t| && t[k] == rest[i];
        assert ([h] + t)[0] == h && ([h] + t)[k + 1] == t[k];
        assert key(([h] + t)[0]) <= key(([h] + t)[k + 1]);
      }
    }
    var r := [h] + rest;
    forall i, j | 0 <= i < j < |r| ensures key(r[i]) <= key(r[j]) {
      if i > 0 {
        assert r[i] == rest[i - 1] && r[j] == rest[j - 1];
      } else {
        assert r[j] == rest[j - 1];
      }
    }
  }

  /** Stable insertion sort on `key`, ascending. */
  function SortBy<T>(s: seq<T>, key: T -> int): (r: seq<T>)
    ensures SortedBy(r, key)
    ensures multiset(r) == multiset(s)
    ensures |r| == |s|
  {
    if s == [] then []
    else
      var init := s[..|s| - 1];
      assert s == init + [s[|s| - 1]];
      var r := Insert(SortBy(init, key), s[|s| - 1], key);
      assert |r| == |multiset(r)|;
      r
  }

  /** A non-empty finite set of integers has a least element (the next row of an ascending scan). */
  lemma {:induction false} MinExists(s: set<int>)
    requires s != {}
    ensures exists k :: k in s && forall j :: j in s ==> k <= j
    decreases |s|
  {
    if forall j :: j !in s {
      assert false;
    }
    var x :| x in s;
    var rest := s - {x};
    if rest == {} {
      forall j | j in s ensures x <= j {
        assert j !in rest;
      }
    } else {
      MinExists(rest);
      var m :| m in rest && forall j :: j in rest ==> m <= j;
      var k := if x < m then x else m;
      forall j | j in s ensures k <= j {
        if j != x {
          assert j in rest;
        }
      }
      assert k in s;
    }
  }
}
