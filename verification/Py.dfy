/** Python values the modelled code manipulates: optional values, insertion-ordered
    dictionaries, list slices and string helpers. */
module Py {

  datatype Option<+T> = None | Some(value: T)

  /** No element occurs twice. */
  ghost predicate Distinct<T>(s: seq<T>) {
    forall i, j :: 0 <= i < j < |s| ==> s[i] != s[j]
  }

  lemma {:induction false} DistinctSnoc<T>(s: seq<T>, x: T)
    ensures Distinct(s + [x]) <==> Distinct(s) && x !in s
  {
    var t := s + [x];
    if Distinct(t) {
      forall i, j | 0 <= i < j < |s| ensures s[i] != s[j] { assert t[i] != t[j]; }
      forall i | 0 <= i < |s| ensures s[i] != x { assert t[i] != t[|s|]; }
    }
  }

  lemma {:induction false} DistinctSplice<T>(a: seq<T>, x: T, b: seq<T>)
    requires Distinct(a + [x] + b)
    ensures x !in a && x !in b && Distinct(a + b)
  {
    var s, t := a + [x] + b, a + b;
    forall i | 0 <= i < |a| ensures a[i] != x { assert s[i] != s[|a|]; }
    forall i | 0 <= i < |b| ensures b[i] != x { assert s[|a|] != s[|a| + 1 + i]; }
    forall i, j | 0 <= i < j < |t| ensures t[i] != t[j] {
      var i', j' := if i < |a| then i else i + 1, if j < |a| then j else j + 1;
      assert s[i'] != s[j'];
    }
  }

  lemma {:induction false} DistinctCardinality<T>(s: seq<T>)
    requires Distinct(s)
    ensures |set x | x in s| == |s|
  {
    if s != [] {
      var n := |s| - 1;
      DistinctCardinality(s[..n]);
      assert (set x | x in s) == (set x | x in s[..n]) + {s[n]};
    }
  }

  function Min(a: int, b: int): int { if a <= b then a else b }

  function Max(a: int, b: int): int { if a <= b then b else a }

  /** `s[:n]` for any integer n: a negative n counts from the end. */
  function Take<T>(s: seq<T>, n: int): (r: seq<T>)
    ensures r <= s
    ensures 0 <= n <= |s| ==> |r| == n
    ensures n > |s| ==> r == s
    ensures n < 0 ==> |r| == if |s| < -n then 0 else |s| + n
  {
    if n >= 0 then s[..Min(n, |s|)] else s[..Max(0, |s| + n)]
  }

  lemma {:induction false} TakeElements<T>(s: seq<T>, n: int)
    ensures forall x :: x in Take(s, n) ==> x in s
  {
    var r := Take(s, n);
    forall x | x in r ensures x in s {
      var i :| 0 <= i < |r| && r[i] == x;
      assert s[i] == x;
    }
  }

  /** `int(a / b)`: division truncated toward zero. */
  function TruncDiv(a: int, b: int): int
    requires b > 0
  {
    if a >= 0 then a / b else -((-a) / b)
  }

  lemma {:induction false} TruncDivMeaning(a: int, b: int)
    requires b > 0
    ensures var p := b * TruncDiv(a, b); if a >= 0 then p <= a < p + b else p - b < a <= p
  {
    if a >= 0 {
      DivBounds(a, b);
    } else {
      DivBounds(-a, b);
      NegatedFactor(b, -a / b);
    }
  }

  lemma {:induction false} DivBounds(n: nat, b: int)
    requires b > 0
    ensures b * (n / b) <= n < b * (n / b) + b
  {
    assert n == b * (n / b) + n % b;
  }

  lemma {:induction false} NegatedFactor(b: int, x: int)
    ensures b * -x == -(b * x)
  {
  }

  /** A Python dict: a finite map together with the insertion order of its keys. */
  datatype Dict<K(==), V> = Dict(keys: seq<K>, at: map<K, V>) {

    ghost predicate Valid() {
      && Distinct(keys)
      && (forall k :: k in keys ==> k in at)
      && (forall k :: k in at ==> k in keys)
    }

    function Get(k: K, default: V): V { if k in at then at[k] else default }

    /** `d[k] = v`: an existing key keeps its position. */
    function Put(k: K, v: V): (d: Dict<K, V>)
      ensures Valid() ==> d.Valid()
    {
      DistinctSnoc(keys, k);
      Dict(if k in at then keys else keys + [k], at[k := v])
    }

    /** `del d[k]` */
    function Del(k: K): Dict<K, V> {
      Dict(Without(keys, k), at - {k})
    }
  }

  function Without<K(==)>(s: seq<K>, k: K): seq<K> {
    if s == [] then []
    else if s[0] == k then Without(s[1..], k)
    else [s[0]] + Without(s[1..], k)
  }

  lemma {:induction false} WithoutAbsent<K>(s: seq<K>, k: K)
    requires k !in s
    ensures Without(s, k) == s
  {
    if s != [] { WithoutAbsent(s[1..], k); }
  }

  /** Deleting the one occurrence of a key splices it out. */
  lemma {:induction false} WithoutSplice<K>(a: seq<K>, k: K, b: seq<K>)
    requires k !in a && k !in b
    ensures Without(a + [k] + b, k) == a + b
  {
    var s := a + [k] + b;
    if a == [] {
      assert s[1..] == b;
      WithoutAbsent(b, k);
      assert a + b == b;
    } else {
      assert s[1..] == a[1..] + [k] + b;
      WithoutSplice(a[1..], k, b);
      assert a + b == [a[0]] + (a[1..] + b);
    }
  }

  lemma {:induction false} Associate<T>(a: seq<T>, b: seq<T>, c: seq<T>)
    ensures a + b + c == a + (b + c)
  {
  }

  lemma {:induction false} PrefixAfter<T>(a: seq<T>, b: seq<T>, c: seq<T>)
    requires b <= c
    ensures a + b <= a + c
  {
  }

  /** The sum of a quantity over a list. */
  ghost function Total<T, U>(s: seq<T>, f: T -> multiset<U>): multiset<U> {
    if s == [] then multiset{} else Total(s[..|s| - 1], f) + f(s[|s| - 1])
  }

  lemma {:induction false} TotalSnoc<T, U>(s: seq<T>, x: T, f: T -> multiset<U>)
    ensures Total(s + [x], f) == Total(s, f) + f(x)
  {
    assert (s + [x])[..|s|] == s;
  }

  lemma {:induction false} TotalRemove<T, U>(a: seq<T>, x: T, b: seq<T>, f: T -> multiset<U>)
    ensures Total(a + [x] + b, f) == Total(a + b, f) + f(x)
  {
    if b == [] {
      TotalSnoc(a, x, f);
      assert a + [x] + b == a + [x] && a + b == a;
    } else {
      var init, y := b[..|b| - 1], b[|b| - 1];
      TotalRemove(a, x, init, f);
      TotalSnoc(a + [x] + init, y, f);
      TotalSnoc(a + init, y, f);
      assert a + [x] + b == a + [x] + init + [y] && a + b == a + init + [y];
    }
  }

  lemma {:induction false} RemoveOne<T>(m: seq<T>, x: T, a: seq<T>, b: seq<T>)
    requires multiset(m + [x]) == multiset(a + [x] + b)
    ensures multiset(m) == multiset(a + b)
  {
    assert multiset(m) == multiset(m + [x]) - multiset{x};
    assert multiset(a + b) == multiset(a + [x] + b) - multiset{x};
  }

  /** The order of the list does not matter. */
  lemma {:induction false} TotalReordered<T, U>(s: seq<T>, t: seq<T>, f: T -> multiset<U>)
    requires multiset(s) == multiset(t)
    ensures Total(s, f) == Total(t, f)
  {
    if s == [] {
      assert |multiset(t)| == |t|;
    } else {
      var init, x := s[..|s| - 1], s[|s| - 1];
      assert s == init + [x];
      assert x in multiset(t);
      var k :| 0 <= k < |t| && t[k] == x;
      var a, b := t[..k], t[k + 1..];
      assert t == a + [x] + b;
      RemoveOne(init, x, a, b);
      TotalReordered(init, a + b, f);
      TotalRemove(a, x, b, f);
    }
  }

  /** The elements of `s` that are wanted, in order and each as often as it occurs: element k of
      `m` is element idx[k] of `s`, the indices increase, and they are those of the wanted elements. */
  ghost predicate Filtered<T>(s: seq<T>, m: seq<T>, idx: seq<nat>, wanted: T -> bool) {
    && |idx| == |m|
    && (forall k :: 0 <= k < |idx| ==> idx[k] < |s| && m[k] == s[idx[k]])
    && (forall k, l :: 0 <= k < l < |idx| ==> idx[k] < idx[l])
    && (forall i :: 0 <= i < |s| ==> (wanted(s[i]) <==> i in idx))
  }

  lemma {:induction false} FilteredSnoc<T>(s: seq<T>, m: seq<T>, idx: seq<nat>, wanted: T -> bool, x: T)
    requires Filtered(s, m, idx, wanted)
    ensures wanted(x) ==> Filtered(s + [x], m + [x], idx + [|s|], wanted)
    ensures !wanted(x) ==> Filtered(s + [x], m, idx, wanted)
  {
    var t := s + [x];
    assert forall i :: 0 <= i < |s| ==> t[i] == s[i];
    assert forall k :: 0 <= k < |idx| ==> idx[k] in idx;
  }

  function IndexOf(s: string, c: char): (r: nat)
    ensures r <= |s|
    ensures r < |s| ==> s[r] == c
    ensures forall i :: 0 <= i < r ==> s[i] != c
  {
    if s == [] then 0 else if s[0] == c then 0 else 1 + IndexOf(s[1..], c)
  }

  /** `s.split(c)` */
  function Split(s: string, c: char): (parts: seq<string>)
    ensures parts != []
    decreases |s|
  {
    var i := IndexOf(s, c);
    if i == |s| then [s] else [s[..i]] + Split(s[i + 1..], c)
  }

  lemma {:induction false} IndexAt(a: string, c: char, b: string)
    requires c !in a
    ensures IndexOf(a, c) == |a|
    ensures IndexOf(a + [c] + b, c) == |a| && (a + [c] + b)[..|a|] == a && (a + [c] + b)[|a| + 1..] == b
  {
    var s := a + [c] + b;
    assert s[|a|] == c;
    assert forall i :: 0 <= i < |a| ==> s[i] == a[i] && a[i] in a;
  }

  lemma {:induction false} SplitHead(a: string, c: char, b: string)
    requires c !in a
    ensures Split(a + [c] + b, c) == [a] + Split(b, c)
  {
    IndexAt(a, c, b);
  }

  lemma {:induction false} SplitNone(a: string, c: char)
    requires c !in a
    ensures Split(a, c) == [a]
  {
    assert forall i :: 0 <= i < |a| ==> a[i] in a;
  }

  /** `" ".join(s)` */
  function Join(s: seq<string>): string {
    if s == [] then ""
    else if |s| == 1 then s[0]
    else s[0] + " " + Join(s[1..])
  }

  /** Splitting undoes joining: a joined list of names without blanks names exactly these. */
  lemma {:induction false} JoinSplit(s: seq<string>)
    requires s != [] && forall i :: 0 <= i < |s| ==> ' ' !in s[i]
    ensures Split(Join(s), ' ') == s
  {
    if |s| == 1 {
      SplitNone(s[0], ' ');
    } else {
      JoinSplit(s[1..]);
      SplitHead(s[0], ' ', Join(s[1..]));
      assert s == [s[0]] + s[1..];
    }
  }

  /** `sub in s`, said with the text before and after. */
  lemma {:induction false} ContainsMeaning(s: string, sub: string)
    ensures Contains(s, sub) <==> exists a, b :: s == a + sub + b
  {
    if Contains(s, sub) {
      var i :| 0 <= i <= |s| && StartsWith(s[i..], sub);
      assert s == s[..i] + sub + s[i + |sub|..];
    }
    if a, b :| s == a + sub + b {
      assert s[|a|..] == sub + b;
      assert StartsWith(s[|a|..], sub);
    }
  }

  lemma {:induction false} EndsWithMeaning(s: string, suffix: string)
    ensures EndsWith(s, suffix) <==> exists a :: s == a + suffix
  {
    if EndsWith(s, suffix) { assert s == s[..|s| - |suffix|] + suffix; }
  }

  predicate StartsWith(s: string, prefix: string)
    ensures StartsWith(s, prefix) <==> prefix <= s
  {
    |prefix| <= |s| && s[..|prefix|] == prefix
  }

  predicate EndsWith(s: string, suffix: string) {
    |suffix| <= |s| && s[|s| - |suffix|..] == suffix
  }

  /** `sub in s` */
  predicate Contains(s: string, sub: string) {
    exists i :: 0 <= i <= |s| && StartsWith(s[i..], sub)
  }
}
