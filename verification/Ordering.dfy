/** Strict total orders, the ordered iteration that a `BTreeMap` gives, and the
    order Rust puts on strings and on pairs of strings. */
module Ordering {

  ghost predicate StrictTotal<K(!new)>(less: (K, K) -> bool) {
    && (forall a :: !less(a, a))
    && (forall a, b, c :: less(a, b) && less(b, c) ==> less(a, c))
    && (forall a, b :: a == b || less(a, b) || less(b, a))
  }

  predicate StrictlySorted<K>(less: (K, K) -> bool, s: seq<K>) {
    forall i, j :: 0 <= i < j < |s| ==> less(s[i], s[j])
  }

  ghost predicate Lists<K(!new)>(less: (K, K) -> bool, s: seq<K>, keys: set<K>) {
    StrictlySorted(less, s) && forall k :: k in s <==> k in keys
  }

  /** A finite non-empty set has a least element. */
  lemma {:induction false} LeastExists<K(!new)>(less: (K, K) -> bool, s: set<K>)
    requires StrictTotal(less)
    requires s != {}
    ensures exists k :: k in s && forall j :: j in s ==> j == k || less(k, j)
    decreases |s|
  {
    var x :| x in s;
    if s != {x} {
      var rest := s - {x};
      assert s == rest + {x};
      LeastExists(less, rest);
      var k :| k in rest && forall j :: j in rest ==> j == k || less(k, j);
      if less(x, k) {
        assert forall j :: j in s ==> j == x || j in rest;
        assert forall j :: j in s ==> j == x || less(x, j);
      } else {
        assert forall j :: j in s ==> j == x || j in rest;
        assert less(k, x);
      }
    }
  }

  /** There is only one strictly increasing listing of a set. */
  lemma {:induction false} ListingUnique<K(!new)>(less: (K, K) -> bool, s: seq<K>, t: seq<K>)
    requires StrictTotal(less)
    requires StrictlySorted(less, s) && StrictlySorted(less, t)
    requires forall k :: k in s <==> k in t
    ensures s == t
  {
    if s == [] || t == [] {
      NoMembers(s);
      NoMembers(t);
    } else {
      HeadsAgree(less, s, t);
      var s', t' := s[1..], t[1..];
      forall k ensures k in s' <==> k in t' {
        TailMember(less, s, k);
        TailMember(less, t, k);
      }
      ListingUnique(less, s', t');
      assert s == [s[0]] + s' && t == [t[0]] + t';
    }
  }

  lemma {:induction false} NoMembers<K(!new)>(s: seq<K>)
    ensures s == [] <==> forall k :: k !in s
  {
    if s != [] { assert s[0] in s; }
  }

  lemma {:induction false} HeadsAgree<K(!new)>(less: (K, K) -> bool, s: seq<K>, t: seq<K>)
    requires StrictTotal(less)
    requires StrictlySorted(less, s) && StrictlySorted(less, t)
    requires s != [] && t != []
    requires forall k :: k in s <==> k in t
    ensures s[0] == t[0]
  {
    var x, y := s[0], t[0];
    assert x in t && y in s;
    var i :| 0 <= i < |s| && s[i] == y;
    var j :| 0 <= j < |t| && t[j] == x;
    assert i == 0 || less(x, y);
    assert j == 0 || less(y, x);
  }

  lemma {:induction false} TailMember<K(!new)>(less: (K, K) -> bool, s: seq<K>, k: K)
    requires StrictTotal(less) && StrictlySorted(less, s) && s != []
    ensures k in s[1..] <==> k in s && k != s[0]
  {
  }

  /** The keys of a finite set in increasing order: the iteration order of a `BTreeMap`. */
  method SortedKeys<K(!new, ==)>(less: (K, K) -> bool, keys: set<K>) returns (ks: seq<K>)
    requires StrictTotal(less)
    ensures Lists(less, ks, keys)
  {
    ks := [];
    var rest := keys;
    while rest != {}
      invariant rest <= keys
      invariant StrictlySorted(less, ks)
      invariant forall k :: k in ks <==> k in keys - rest
      invariant forall k, j :: k in ks && j in rest ==> less(k, j)
      decreases rest
    {
      LeastExists(less, rest);
      var k :| k in rest && forall j :: j in rest ==> j == k || less(k, j);
      ks := ks + [k];
      rest := rest - {k};
    }
  }

  /** The ordered listing as a value. */
  ghost function Listing<K(!new)>(less: (K, K) -> bool, keys: set<K>): (ks: seq<K>)
    requires StrictTotal(less)
    ensures Lists(less, ks, keys)
    decreases |keys|
  {
    if keys == {} then [] else
      LeastExists(less, keys);
      var k :| k in keys && forall j :: j in keys ==> j == k || less(k, j);
      var rest := Listing(less, keys - {k});
      assert forall j :: j in rest ==> less(k, j);
      [k] + rest
  }

  lemma {:induction false} ListingIs<K(!new)>(less: (K, K) -> bool, keys: set<K>, ks: seq<K>)
    requires StrictTotal(less) && Lists(less, ks, keys)
    ensures ks == Listing(less, keys)
  {
    ListingUnique(less, ks, Listing(less, keys));
  }

  // ----- Orders in use -----

  predicate NatLess(a: nat, b: nat) { a < b }

  /** Rust compares strings by their bytes, which for UTF-8 is by code point. */
  predicate StringLess(a: string, b: string) {
    b != [] && (a == [] || a[0] < b[0] || (a[0] == b[0] && StringLess(a[1..], b[1..])))
  }

  predicate PairLess(a: (string, string), b: (string, string)) {
    StringLess(a.0, b.0) || (a.0 == b.0 && StringLess(a.1, b.1))
  }

  lemma {:induction false} StringIrreflexive(a: string)
    ensures !StringLess(a, a)
  {
    if a != [] { StringIrreflexive(a[1..]); }
  }

  lemma {:induction false} StringTransitive(a: string, b: string, c: string)
    requires StringLess(a, b) && StringLess(b, c)
    ensures StringLess(a, c)
  {
    if a != [] && a[0] == b[0] == c[0] { StringTransitive(a[1..], b[1..], c[1..]); }
  }

  lemma {:induction false} StringTotal(a: string, b: string)
    ensures a == b || StringLess(a, b) || StringLess(b, a)
  {
    if a != [] && b != [] && a[0] == b[0] {
      StringTotal(a[1..], b[1..]);
      assert a == [a[0]] + a[1..] && b == [b[0]] + b[1..];
    }
  }

  /** One string is below another when it is a proper beginning of it, or smaller at the first difference. */
  lemma {:induction false} StringLessMeaning(a: string, b: string)
    ensures StringLess(a, b)
       <==> exists i :: 0 <= i <= |a| && i < |b| && a[..i] == b[..i] && (i == |a| || a[i] < b[i])
  {
    if StringLess(a, b) {
      var i := FirstDifference(a, b);
    } else if i :| 0 <= i <= |a| && i < |b| && a[..i] == b[..i] && (i == |a| || a[i] < b[i]) {
      DiffersBelow(a, b, i);
    }
  }

  lemma {:induction false} FirstDifference(a: string, b: string) returns (i: nat)
    requires StringLess(a, b)
    ensures i <= |a| && i < |b| && a[..i] == b[..i] && (i == |a| || a[i] < b[i])
  {
    if a == [] || a[0] != b[0] {
      i := 0;
    } else {
      var k := FirstDifference(a[1..], b[1..]);
      i := k + 1;
      assert a[..i] == [a[0]] + a[1..][..k] && b[..i] == [b[0]] + b[1..][..k];
    }
  }

  lemma {:induction false} DiffersBelow(a: string, b: string, i: nat)
    requires i <= |a| && i < |b| && a[..i] == b[..i] && (i == |a| || a[i] < b[i])
    ensures StringLess(a, b)
  {
    if i > 0 {
      assert a[0] == a[..i][0] && b[0] == b[..i][0];
      assert a[1..][..i - 1] == a[..i][1..] && b[1..][..i - 1] == b[..i][1..];
      DiffersBelow(a[1..], b[1..], i - 1);
    }
  }

  lemma {:induction false} StringOrder()
    ensures StrictTotal(StringLess)
  {
    forall a ensures !StringLess(a, a) { StringIrreflexive(a); }
    forall a, b, c | StringLess(a, b) && StringLess(b, c) ensures StringLess(a, c) { StringTransitive(a, b, c); }
    forall a, b ensures a == b || StringLess(a, b) || StringLess(b, a) { StringTotal(a, b); }
  }

  lemma {:induction false} PairOrder()
    ensures StrictTotal(PairLess)
  {
    StringOrder();
    forall a: (string, string), b: (string, string), c: (string, string) | PairLess(a, b) && PairLess(b, c)
      ensures PairLess(a, c)
    {
    }
    forall a: (string, string), b: (string, string) ensures a == b || PairLess(a, b) || PairLess(b, a) {
    }
  }

  lemma {:induction false} NatOrder()
    ensures StrictTotal(NatLess)
  {
  }
}
