/** Small shared vocabulary: optional values, results, sums over maps,
    enumerations of finite sets, and the few java.lang.String operations the
    core relies on (trim, integer printing). */
module Util {

  /** Java's nullable reference: `None` stands for `null`. */
  datatype Option<+T> = None | Some(value: T)

  /** Success or an exception; `:-` propagates the failure. */
  datatype Result<+T, +E> = Success(value: T) | Failure(error: E) {
    predicate IsFailure() { Failure? }
    function PropagateFailure<U>(): Result<U, E>
      requires Failure?
    {
      Failure(error)
    }
    function Extract(): T
      requires Success?
    {
      value
    }
  }

  /** No element occurs twice. */
  ghost predicate Distinct<T>(s: seq<T>) {
    forall i, j | 0 <= i < j < |s| :: s[i] != s[j]
  }

  lemma MapRemoveCard<K, V>(m: map<K, V>, k: K)
    requires k in m
    ensures |m - {k}| == |m| - 1
  {
    assert (m - {k}).Keys == m.Keys - {k};
  }

  /** Taking one more key out of the pending set adds its entry to the
      part of the map already visited. */
  lemma VisitKey<K, V>(m: map<K, V>, pending: set<K>, k: K)
    requires k in pending && pending <= m.Keys
    ensures m - (pending - {k}) == (m - pending)[k := m[k]]
    ensures k !in m - pending
  {
  }

  /** Taking one more element out of the pending set adds it to the part
      already visited. */
  lemma VisitElement<K>(all: set<K>, pending: set<K>, k: K)
    requires k in pending && pending <= all
    ensures all - (pending - {k}) == (all - pending) + {k}
    ensures k !in all - pending
  {
  }

  /** Removing one more of the marked keys from a map. */
  lemma DropMarked<K, V>(m: map<K, V>, marked: set<K>, pending: set<K>, k: K)
    requires k in pending && pending <= marked
    ensures m - (marked - (pending - {k})) == (m - (marked - pending)) - {k}
  {
  }

  /** A sequence without repetitions that lists exactly the elements of a
      set has as many elements as the set. */
  lemma {:induction false} DistinctCard<T>(s: seq<T>, elems: set<T>)
    requires Distinct(s) && forall x :: x in s <==> x in elems
    ensures |s| == |elems|
    decreases |s|
  {
    if s != [] {
      var rest := s[1..];
      assert forall x :: x in rest <==> x in elems - {s[0]};
      DistinctCard(rest, elems - {s[0]});
    }
  }

  /** Some key of a non-empty map. */
  ghost function Pick<K, V>(m: map<K, V>): (k: K)
    requires |m| != 0
    ensures k in m
  {
    assert m.Keys != {};
    var k :| k in m; k
  }

  /** The sum of `f` over the values of a map; the order in which Java's
      HashMap iteration visits the entries does not matter (SumPick). */
  ghost function Sum<K, V>(m: map<K, V>, f: V -> int): int
    decreases |m|
  {
    if |m| == 0 then 0
    else
      var k := Pick(m);
      MapRemoveCard(m, k);
      f(m[k]) + Sum(m - {k}, f)
  }

  /** Any entry may be taken out first: the sum does not depend on the order. */
  lemma {:induction false} SumPick<K, V>(m: map<K, V>, f: V -> int, k: K)
    requires k in m
    ensures Sum(m, f) == f(m[k]) + Sum(m - {k}, f)
    decreases |m|
  {
    var j := Pick(m);
    if j != k {
      MapRemoveCard(m, j);
      MapRemoveCard(m, k);
      SumPick(m - {j}, f, k);
      SumPick(m - {k}, f, j);
      assert (m - {j}) - {k} == (m - {k}) - {j};
    }
  }

  /** A sum of non-negative terms is non-negative. */
  lemma {:induction false} SumNonNegative<K, V>(m: map<K, V>, f: V -> int)
    requires forall k | k in m :: f(m[k]) >= 0
    ensures Sum(m, f) >= 0
    decreases |m|
  {
    if |m| != 0 {
      var k := Pick(m);
      MapRemoveCard(m, k);
      SumNonNegative(m - {k}, f);
    }
  }

  /** An enumeration of a finite set, in an order nothing else depends on
      (the model of HashMap/HashSet iteration order). */
  ghost function Enumerate<K(!new)>(s: set<K>): (r: seq<K>)
    ensures Distinct(r)
    ensures forall x :: x in r <==> x in s
    ensures |r| == |s|
    decreases |s|
  {
    if s == {} then []
    else
      var k :| k in s;
      [k] + Enumerate(s - {k})
  }

  /** Takes some element out of a non-empty set, the way an iterator hands
      out the next entry. */
  method Choose<T>(s: set<T>) returns (x: T)
    requires s != {}
    ensures x in s
  {
    x :| x in s;
  }

  /** Removes the given keys from a map one at a time. */
  method RemoveKeys<K, V>(m: map<K, V>, keys: set<K>) returns (r: map<K, V>)
    ensures r == m - keys
  {
    r := m;
    var rest := keys;
    while rest != {}
      invariant rest <= keys
      invariant r == m - (keys - rest)
      decreases rest
    {
      var k := Choose(rest);
      DropMarked(m, keys, rest, k);
      r := r - {k};
      rest := rest - {k};
    }
  }

  /** Sums `f` over the entries of `m` with an accumulator loop, visiting the
      entries in whatever order the map hands them out. */
  method SumValues<K, V>(m: map<K, V>, f: V -> int) returns (total: int)
    ensures total == Sum(m, f)
  {
    total := 0;
    var rest := m;
    while |rest| != 0
      invariant total + Sum(rest, f) == Sum(m, f)
      decreases |rest|
    {
      assert rest.Keys != {};
      var k :| k in rest;
      SumPick(rest, f, k);
      MapRemoveCard(rest, k);
      total := total + f(rest[k]);
      rest := rest - {k};
    }
  }

  /** java.lang.String.trim: drop leading and trailing characters <= U+0020. */
  function TrimStart(s: string): (r: string)
    ensures |r| <= |s| && r == s[|s| - |r|..]
    ensures r == [] || r[0] > ' '
  {
    if s != [] && s[0] <= ' ' then TrimStart(s[1..]) else s
  }

  function TrimEnd(s: string): (r: string)
    ensures r <= s
    ensures r == [] || r[|r| - 1] > ' '
  {
    if s != [] && s[|s| - 1] <= ' ' then TrimEnd(s[..|s| - 1]) else s
  }

  function Trim(s: string): string {
    TrimEnd(TrimStart(s))
  }

  /** Decimal digits of a natural number, as Integer.toString prints them. */
  function NatToString(n: nat): (r: string)
    ensures r != []
    ensures forall i | 0 <= i < |r| :: '0' <= r[i] <= '9'
    decreases n
  {
    if n < 10 then [('0' as int + n) as char]
    else NatToString(n / 10) + [('0' as int + n % 10) as char]
  }

  function IntToString(n: int): (r: string)
    ensures r != []
    ensures forall i | 0 <= i < |r| :: r[i] == '-' || '0' <= r[i] <= '9'
  {
    if n < 0 then "-" + NatToString(-n) else NatToString(n)
  }

  /** Reads back the digits NatToString writes. */
  function DigitsValue(s: string): int
    decreases |s|
  {
    if s == [] then 0 else DigitsValue(s[..|s| - 1]) * 10 + (s[|s| - 1] as int - '0' as int)
  }

  function ParseInt(s: string): int {
    if s != [] && s[0] == '-' then -DigitsValue(s[1..]) else DigitsValue(s)
  }

  lemma {:induction false} NatToStringRoundTrip(n: nat)
    ensures DigitsValue(NatToString(n)) == n
    decreases n
  {
    if n >= 10 {
      NatToStringRoundTrip(n / 10);
      var s := NatToString(n);
      assert s[..|s| - 1] == NatToString(n / 10);
    }
  }

  /** Integer.toString and its reading back agree on every int. */
  lemma IntToStringRoundTrip(n: int)
    ensures ParseInt(IntToString(n)) == n
  {
    if n < 0 {
      NatToStringRoundTrip(-n);
      assert IntToString(n)[1..] == NatToString(-n);
    } else {
      NatToStringRoundTrip(n);
    }
  }
  /** A generated session id: a prefix, a space and a clock reading in
      milliseconds, as `prefix + " " + System.currentTimeMillis()` builds it. */
  function StampedId(prefix: string, millis: int): string {
    prefix + " " + IntToString(millis)
  }

  /** Ids generated with the same prefix differ whenever the clock readings do. */
  lemma StampedIdInjective(prefix: string, m1: int, m2: int)
    requires StampedId(prefix, m1) == StampedId(prefix, m2)
    ensures m1 == m2
  {
    var k := |prefix| + 1;
    assert StampedId(prefix, m1)[k..] == IntToString(m1);
    assert StampedId(prefix, m2)[k..] == IntToString(m2);
    IntToStringRoundTrip(m1);
    IntToStringRoundTrip(m2);
  }

}
