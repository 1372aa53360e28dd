/** Generic operations on a table held as a sequence of rows: lookup by
    key, filtering (a `WHERE` clause), counting, summing, and ordering (an
    `ORDER BY ... DESC` clause). Every repository query is built from these. */
module Tables {
  import opened Common

  /** `a` is an order-preserving subsequence of `b`. */
  ghost predicate Subseq<T(!new)>(a: seq<T>, b: seq<T>)
    decreases |b|
  {
    if a == [] then true
    else if b == [] then false
    else (a[0] == b[0] && Subseq(a[1..], b[1..])) || Subseq(a, b[1..])
  }

  /** The rows satisfying `p`, in table order. */
  function Filter<T(!new)>(s: seq<T>, p: T -> bool): (r: seq<T>)
    ensures |r| <= |s|
    ensures forall x :: x in r <==> x in s && p(x)
    ensures forall i :: 0 <= i < |r| ==> p(r[i])
  {
    if s == [] then []
    else if p(s[0]) then [s[0]] + Filter(s[1..], p)
    else Filter(s[1..], p)
  }

  /** A filter keeps the table order. */
  lemma {:induction false} FilterIsSubseq<T(!new)>(s: seq<T>, p: T -> bool)
    ensures Subseq(Filter(s, p), s)
  {
    if s != [] {
      FilterIsSubseq(s[1..], p);
      if p(s[0]) {
        assert Filter(s, p)[1..] == Filter(s[1..], p);
      }
    }
  }

  lemma {:induction false} FilterAppend<T(!new)>(s: seq<T>, t: seq<T>, p: T -> bool)
    ensures Filter(s + t, p) == Filter(s, p) + Filter(t, p)
  {
    if s == [] {
      assert s + t == t;
    } else {
      assert (s + t)[1..] == s[1..] + t;
      FilterAppend(s[1..], t, p);
    }
  }

  /** Two predicates that agree on every row of `s` select the same rows. */
  lemma {:induction false} FilterCongruent<T(!new)>(s: seq<T>, p: T -> bool, q: T -> bool)
    requires forall x :: x in s ==> p(x) == q(x)
    ensures Filter(s, p) == Filter(s, q)
  {
    if s != [] {
      FilterCongruent(s[1..], p, q);
    }
  }

  /** Filtering by `p` and then by `q` is filtering by their conjunction `pq`. */
  lemma {:induction false} FilterConjunction<T(!new)>(s: seq<T>, p: T -> bool, q: T -> bool, pq: T -> bool)
    requires forall x :: pq(x) == (p(x) && q(x))
    ensures Filter(Filter(s, p), q) == Filter(s, pq)
  {
    if s != [] {
      FilterConjunction(s[1..], p, q, pq);
    }
  }

  /** A predicate no row meets selects nothing. */
  lemma {:induction false} FilterNone<T(!new)>(s: seq<T>, p: T -> bool)
    requires forall x :: x in s ==> !p(x)
    ensures Filter(s, p) == []
  {
    if s != [] {
      FilterNone(s[1..], p);
    }
  }

  /** A predicate every row meets keeps the table as it is. */
  lemma {:induction false} FilterAll<T(!new)>(s: seq<T>, p: T -> bool)
    requires forall x :: x in s ==> p(x)
    ensures Filter(s, p) == s
  {
    if s != [] {
      FilterAll(s[1..], p);
    }
  }

  /** `p` and its negation split the table: each row lands in exactly one part. */
  lemma {:induction false} FilterSplit<T(!new)>(s: seq<T>, p: T -> bool, notP: T -> bool)
    requires forall x :: notP(x) == !p(x)
    ensures |Filter(s, p)| + |Filter(s, notP)| == |s|
    ensures multiset(Filter(s, p)) + multiset(Filter(s, notP)) == multiset(s)
  {
    if s != [] {
      FilterSplit(s[1..], p, notP);
      assert s == [s[0]] + s[1..];
    }
  }

  /** `SELECT COUNT(*) ... WHERE p`. */
  function Count<T(!new)>(s: seq<T>, p: T -> bool): (n: nat)
    ensures n <= |s|
  {
    if s == [] then 0
    else (if p(s[0]) then 1 else 0) + Count(s[1..], p)
  }

  lemma {:induction false} CountIsFilterLength<T(!new)>(s: seq<T>, p: T -> bool)
    ensures Count(s, p) == |Filter(s, p)|
  {
    if s != [] {
      CountIsFilterLength(s[1..], p);
    }
  }

  /** The sum of `amount` over the rows. */
  function Sum<T(!new)>(s: seq<T>, amount: T -> int): int
  {
    if s == [] then 0 else amount(s[0]) + Sum(s[1..], amount)
  }

  lemma {:induction false} SumAppend<T(!new)>(s: seq<T>, t: seq<T>, amount: T -> int)
    ensures Sum(s + t, amount) == Sum(s, amount) + Sum(t, amount)
  {
    if s == [] {
      assert s + t == t;
    } else {
      assert (s + t)[1..] == s[1..] + t;
      SumAppend(s[1..], t, amount);
    }
  }

  /** With non-negative amounts, the rows `p` selects sum to at most the whole table. */
  lemma {:induction false} SumFilterAtMost<T(!new)>(s: seq<T>, p: T -> bool, amount: T -> int)
    requires forall x :: x in s ==> amount(x) >= 0
    ensures Sum(Filter(s, p), amount) <= Sum(s, amount)
  {
    if s != [] {
      SumFilterAtMost(s[1..], p, amount);
      if p(s[0]) {
        assert Filter(s, p) == [s[0]] + Filter(s[1..], p);
        assert Filter(s, p)[1..] == Filter(s[1..], p);
      }
    }
  }

  /** Filtering a sub-selection: rows of `Filter(s, q)` that `p` selects sum to at most those `p` selects in `s`. */
  lemma {:induction false} SumFilterMonotone<T(!new)>(s: seq<T>, p: T -> bool, q: T -> bool, amount: T -> int)
    requires forall x :: x in s ==> amount(x) >= 0
    requires forall x :: q(x) ==> p(x)
    ensures Sum(Filter(s, q), amount) <= Sum(Filter(s, p), amount)
  {
    if s != [] {
      SumFilterMonotone(s[1..], p, q, amount);
      var fp, fq := Filter(s, p), Filter(s, q);
      if q(s[0]) {
        assert fq == [s[0]] + Filter(s[1..], q) && fq[1..] == Filter(s[1..], q);
        assert fp == [s[0]] + Filter(s[1..], p) && fp[1..] == Filter(s[1..], p);
      } else if p(s[0]) {
        assert fp == [s[0]] + Filter(s[1..], p) && fp[1..] == Filter(s[1..], p);
      }
    }
  }

  /** Replacing row `i` by `x` changes a filtered sum by what `x` brings in minus what row `i` took out. */
  lemma {:induction false} SumFilterUpdate<T(!new)>(s: seq<T>, i: nat, x: T, p: T -> bool, amount: T -> int)
    requires i < |s|
    ensures Sum(Filter(s[i := x], p), amount)
         == Sum(Filter(s, p), amount) - (if p(s[i]) then amount(s[i]) else 0) + (if p(x) then amount(x) else 0)
  {
    var t := s[i := x];
    if i == 0 {
      assert t[1..] == s[1..];
    } else {
      assert t[1..] == s[1..][i - 1 := x];
      SumFilterUpdate(s[1..], i - 1, x, p, amount);
    }
    if p(t[0]) {
      assert Filter(t, p)[1..] == Filter(t[1..], p);
    }
    if p(s[0]) {
      assert Filter(s, p)[1..] == Filter(s[1..], p);
    }
  }

  function One<T>(x: T): int { 1 }

  /** Counting rows is summing ones. */
  lemma {:induction false} SumOneIsLength<T(!new)>(s: seq<T>)
    ensures Sum(s, One) == |s|
  {
    if s != [] {
      SumOneIsLength(s[1..]);
    }
  }

  /** A non-empty table of positive amounts has a positive sum. */
  lemma {:induction false} SumPositive<T(!new)>(s: seq<T>, amount: T -> int)
    requires s != []
    requires forall x :: x in s ==> amount(x) > 0
    ensures Sum(s, amount) > 0
  {
    if |s| > 1 {
      SumPositive(s[1..], amount);
    } else {
      assert s[1..] == [];
    }
  }

  /** The rows whose `key` is `k` (a derived `findByX` condition). */
  function KeyIs<T, K(==)>(key: T -> K, k: K): T -> bool
  {
    x => key(x) == k
  }

  /** Some row has key `k`. */
  ghost predicate HasKey<T(!new), K>(s: seq<T>, key: T -> K, k: K)
  {
    exists x :: x in s && key(x) == k
  }

  /** Replacing a row by one with the same key keeps the set of keys. */
  lemma HasKeyUpdate<T(!new), K>(s: seq<T>, key: T -> K, i: nat, x: T, k: K)
    requires i < |s| && key(x) == key(s[i])
    ensures HasKey(s[i := x], key, k) <==> HasKey(s, key, k)
  {
    if HasKey(s, key, k) {
      var y :| y in s && key(y) == k;
      var j :| 0 <= j < |s| && s[j] == y;
      assert key(s[i := x][j]) == k;
    }
    if HasKey(s[i := x], key, k) {
      var y :| y in s[i := x] && key(y) == k;
      var j :| 0 <= j < |s| && s[i := x][j] == y;
      assert key(s[j]) == k;
    }
  }

  /** Every row's key holds at most once. */
  predicate UniqueBy<T(!new), K(==)>(s: seq<T>, key: T -> K)
  {
    forall i, j :: 0 <= i < j < |s| ==> key(s[i]) != key(s[j])
  }

  /** Under a unique key, the key identifies the row. */
  lemma UniqueByIdentifies<T(!new), K>(s: seq<T>, key: T -> K, x: T, y: T)
    requires UniqueBy(s, key) && x in s && y in s && key(x) == key(y)
    ensures x == y
  {
    var i :| 0 <= i < |s| && s[i] == x;
    var j :| 0 <= j < |s| && s[j] == y;
    assert key(s[i]) == key(s[j]);
    assert i == j;
  }

  /** Index of the first row whose key is `k`. */
  function IndexOf<T(!new), K(==)>(s: seq<T>, key: T -> K, k: K): (r: Option<nat>)
    ensures r.Some? ==> r.value < |s| && key(s[r.value]) == k
    ensures r.Some? ==> forall j :: 0 <= j < r.value ==> key(s[j]) != k
    ensures r.None? <==> forall j :: 0 <= j < |s| ==> key(s[j]) != k
  {
    if s == [] then None
    else if key(s[0]) == k then Some(0)
    else match IndexOf(s[1..], key, k)
      case None => None
      case Some(j) => Some(j + 1)
  }

  /** Lookup depends only on the keys of the rows. */
  lemma {:induction false} IndexOfSameKeys<T(!new), K>(s: seq<T>, t: seq<T>, key: T -> K, k: K)
    requires |s| == |t|
    requires forall j :: 0 <= j < |s| ==> key(s[j]) == key(t[j])
    ensures IndexOf(s, key, k) == IndexOf(t, key, k)
  {
    if s != [] {
      IndexOfSameKeys(s[1..], t[1..], key, k);
    }
  }

  /** `findById`/`findByX` on a unique key: the row with that key, if any. */
  function FindBy<T(!new), K(==)>(s: seq<T>, key: T -> K, k: K): (r: Option<T>)
    ensures r.Some? ==> r.value in s && key(r.value) == k
    ensures r.None? <==> forall x :: x in s ==> key(x) != k
  {
    match IndexOf(s, key, k)
    case None => None
    case Some(i) => Some(s[i])
  }

  /** On a unique key the row found is the only one with that key. */
  lemma FindByUnique<T(!new), K>(s: seq<T>, key: T -> K, k: K)
    requires UniqueBy(s, key)
    ensures FindBy(s, key, k).Some? ==> Filter(s, KeyIs(key, k)) == [FindBy(s, key, k).value]
    ensures FindBy(s, key, k).None? ==> Filter(s, KeyIs(key, k)) == []
  {
    var i := IndexOf(s, key, k);
    if i.Some? {
      FilterAppendThree(s, i.value, KeyIs(key, k));
    } else {
      FilterNone(s, KeyIs(key, k));
    }
  }

  /** On a unique key the row found is the one with that key wherever it sits. */
  lemma FindByUniqueAt<T(!new), K>(s: seq<T>, key: T -> K, i: nat)
    requires UniqueBy(s, key) && i < |s|
    ensures FindBy(s, key, key(s[i])) == Some(s[i])
  {
  }

  /** Replacing a row by one whose key no other row has keeps the key unique. */
  lemma UniqueByUpdate<T(!new), K>(s: seq<T>, key: T -> K, i: nat, x: T)
    requires UniqueBy(s, key) && i < |s|
    requires forall j :: 0 <= j < |s| && j != i ==> key(s[j]) != key(x)
    ensures UniqueBy(s[i := x], key)
  {
  }

  /** Appending a row with a new key keeps the key unique. */
  lemma UniqueByAppend<T(!new), K>(s: seq<T>, key: T -> K, x: T)
    requires UniqueBy(s, key)
    requires forall y :: y in s ==> key(y) != key(x)
    ensures UniqueBy(s + [x], key)
  {
    var r := s + [x];
    forall i, j | 0 <= i < j < |r| ensures key(r[i]) != key(r[j]) {
      if j < |s| {
        assert r[i] == s[i] && r[j] == s[j];
      } else {
        assert r[i] in s;
      }
    }
  }

  /** The identity `save` gives a row posted with identifier `id`: a stored
      identifier is kept (the row is merged over the stored one), a null or
      unknown one gives way to the next identity value. */
  function SavedId<T(!new)>(s: seq<T>, key: T -> nat, next: nat, id: Option<nat>): (k: nat)
    ensures id.Some? && HasKey(s, key, id.value) ==> k == id.value
    ensures !(id.Some? && HasKey(s, key, id.value)) ==> k == next
  {
    if id.Some? && IndexOf(s, key, id.value).Some? then id.value else next
  }

  /** The identity counter after `save` of a row with identity `k`: it
      advances only when the row is new. */
  function SavedNext<T(!new)>(s: seq<T>, key: T -> nat, next: nat, k: nat): (n: nat)
    ensures HasKey(s, key, k) ==> n == next
    ensures !HasKey(s, key, k) ==> n == next + 1
  {
    if IndexOf(s, key, k).Some? then next else next + 1
  }

  /** The table after `save(x)`: the stored row with `x`'s key is replaced
      (a merge), otherwise `x` is appended (a persist). */
  function Upsert<T(!new), K(==)>(s: seq<T>, key: T -> K, x: T): (r: seq<T>)
    ensures x in r
    ensures forall y :: y in r ==> y == x || y in s
    ensures forall y :: y in s && key(y) != key(x) ==> y in r
    ensures HasKey(s, key, key(x)) ==> |r| == |s|
    ensures !HasKey(s, key, key(x)) ==> r == s + [x]
  {
    match IndexOf(s, key, key(x))
    case None => s + [x]
    case Some(k) =>
      assert s[k := x][k] == x;
      forall y | y in s && key(y) != key(x) ensures y in s[k := x] {
        var j :| 0 <= j < |s| && s[j] == y;
        assert s[k := x][j] == y;
      }
      s[k := x]
  }

  /** A save keeps its own key unique. */
  lemma UniqueByUpsert<T(!new), K>(s: seq<T>, key: T -> K, x: T)
    requires UniqueBy(s, key)
    ensures UniqueBy(Upsert(s, key, x), key)
  {
    match IndexOf(s, key, key(x))
    case None => UniqueByAppend(s, key, x);
    case Some(k) => UniqueByUpdate(s, key, k, x);
  }

  /** A save of a row whose `other` value no stored row has keeps `other` unique. */
  lemma UniqueByUpsertFresh<T(!new), K, L>(s: seq<T>, key: T -> K, other: T -> L, x: T)
    requires UniqueBy(s, other)
    requires forall y :: y in s ==> other(y) != other(x)
    ensures UniqueBy(Upsert(s, key, x), other)
  {
    match IndexOf(s, key, key(x))
    case None => UniqueByAppend(s, other, x);
    case Some(k) =>
      forall j | 0 <= j < |s| && j != k ensures other(s[j]) != other(x) {
        assert s[j] in s;
      }
      UniqueByUpdate(s, other, k, x);
  }

  /** A save loses no key. */
  lemma HasKeyUpsert<T(!new), K>(s: seq<T>, key: T -> K, x: T, k: K)
    requires HasKey(s, key, k)
    ensures HasKey(Upsert(s, key, x), key, k)
  {
    if k != key(x) {
      var y :| y in s && key(y) == k;
      assert y in Upsert(s, key, x);
    }
  }

  /** Dropping rows keeps a key unique. */
  lemma {:induction false} UniqueByFilter<T(!new), K>(s: seq<T>, key: T -> K, p: T -> bool)
    requires UniqueBy(s, key)
    ensures UniqueBy(Filter(s, p), key)
  {
    if s != [] {
      assert UniqueBy(s[1..], key) by {
        forall i, j | 0 <= i < j < |s[1..]| ensures key(s[1..][i]) != key(s[1..][j]) {
          assert s[1..][i] == s[i + 1] && s[1..][j] == s[j + 1];
        }
      }
      UniqueByFilter(s[1..], key, p);
      if p(s[0]) {
        var rest := Filter(s[1..], p);
        forall y | y in rest ensures key(y) != key(s[0]) {
          var j :| 1 <= j < |s| && s[j] == y by {
            assert y in s[1..];
            var k :| 0 <= k < |s[1..]| && s[1..][k] == y;
            assert s[k + 1] == y;
          }
        }
        UniqueByAppend([], key, s[0]);
        assert UniqueBy([s[0]] + rest, key) by {
          var r := [s[0]] + rest;
          forall i, j | 0 <= i < j < |r| ensures key(r[i]) != key(r[j]) {
            if i == 0 {
              assert r[j] in rest;
            } else {
              assert r[i] == rest[i - 1] && r[j] == rest[j - 1];
            }
          }
        }
      }
    }
  }

  /** Removing one row keeps a key unique. */
  lemma UniqueByRemove<T(!new), K>(s: seq<T>, key: T -> K, i: nat)
    requires UniqueBy(s, key) && i < |s|
    ensures UniqueBy(RemoveAt(s, i), key)
  {
    var r := RemoveAt(s, i);
    forall a, b | 0 <= a < b < |r| ensures key(r[a]) != key(r[b]) {
      var a', b' := if a < i then a else a + 1, if b < i then b else b + 1;
      assert r[a] == s[a'] && r[b] == s[b'];
    }
  }

  lemma FilterAppendThree<T(!new)>(s: seq<T>, i: nat, p: T -> bool)
    requires i < |s| && p(s[i])
    requires forall j :: 0 <= j < |s| && j != i ==> !p(s[j])
    ensures Filter(s, p) == [s[i]]
  {
    assert s == s[..i] + [s[i]] + s[i + 1..];
    FilterAppend(s[..i] + [s[i]], s[i + 1..], p);
    FilterAppend(s[..i], [s[i]], p);
    FilterNone(s[..i], p);
    FilterNone(s[i + 1..], p);
  }

  /** The table without the row at position `i`. */
  function RemoveAt<T(!new)>(s: seq<T>, i: nat): (r: seq<T>)
    requires i < |s|
    ensures |r| == |s| - 1
    ensures forall j :: 0 <= j < i ==> r[j] == s[j]
    ensures forall j :: i <= j < |r| ==> r[j] == s[j + 1]
    ensures multiset(r) + multiset{s[i]} == multiset(s)
  {
    assert s == s[..i] + [s[i]] + s[i + 1..];
    s[..i] + s[i + 1..]
  }


  /** Under a unique key, removing a row keeps exactly the rows with another key. */
  lemma RemoveAtKeepsOthers<T(!new), K>(s: seq<T>, key: T -> K, i: nat)
    requires UniqueBy(s, key) && i < |s|
    ensures forall x :: x in RemoveAt(s, i) <==> x in s && key(x) != key(s[i])
  {
    var r := RemoveAt(s, i);
    forall x | x in r ensures x in s && key(x) != key(s[i]) {
      var j :| 0 <= j < |r| && r[j] == x;
      if j < i {
        assert r[j] == s[j] && key(s[j]) != key(s[i]);
      } else {
        assert r[j] == s[j + 1] && key(s[i]) != key(s[j + 1]);
      }
    }
    forall x | x in s && key(x) != key(s[i]) ensures x in r {
      var j :| 0 <= j < |s| && s[j] == x;
      if j < i { assert r[j] == x; } else { assert j > i && r[j - 1] == x; }
    }
  }
  /** Rows sorted so that `key` never increases (`ORDER BY key DESC`). */
  predicate SortedDesc<T(!new)>(s: seq<T>, key: T -> int)
  {
    forall i, j :: 0 <= i < j < |s| ==> key(s[i]) >= key(s[j])
  }

  /** Places `x` before the first row with a smaller key. */
  function InsertDesc<T(!new)>(x: T, s: seq<T>, key: T -> int): (r: seq<T>)
    requires SortedDesc(s, key)
    ensures |r| == |s| + 1
    ensures r[0] == x || (s != [] && r[0] == s[0])
    ensures SortedDesc(r, key)
    ensures multiset(r) == multiset(s) + multiset{x}
  {
    if s == [] then [x]
    else if key(x) >= key(s[0]) then [x] + s
    else
      var rest := InsertDesc(x, s[1..], key);
      assert s == [s[0]] + s[1..];
      assert key(s[0]) >= key(rest[0]);
      [s[0]] + rest
  }

  /** Insertion sort by a non-increasing key. */
  function SortDesc<T(!new)>(s: seq<T>, key: T -> int): (r: seq<T>)
    ensures SortedDesc(r, key)
    ensures multiset(r) == multiset(s)
    ensures |r| == |s|
  {
    if s == [] then []
    else
      assert s == [s[0]] + s[1..];
      InsertDesc(s[0], SortDesc(s[1..], key), key)
  }
}
