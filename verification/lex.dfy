// The order of std::string, and std::map with string keys as a sequence of
// pairs in strictly increasing key order.

module Lex {

  // Strict lexicographic order.
  predicate Less(a: seq<int>, b: seq<int>)
    decreases |a|
  {
    if a == [] then b != []
    else if b == [] then false
    else a[0] < b[0] || (a[0] == b[0] && Less(a[1..], b[1..]))
  }

  lemma {:induction false} LessTransitive(a: seq<int>, b: seq<int>, c: seq<int>)
    requires Less(a, b) && Less(b, c)
    ensures Less(a, c)
    decreases |a|
  {
    if a != [] && c != [] && a[0] == b[0] == c[0] { LessTransitive(a[1..], b[1..], c[1..]); }
  }

  lemma {:induction false} LessTotal(a: seq<int>, b: seq<int>)
    ensures a == b || Less(a, b) || Less(b, a)
    decreases |a|
  {
    if a != [] && b != [] && a[0] == b[0] {
      LessTotal(a[1..], b[1..]);
      assert a == [a[0]] + a[1..] && b == [b[0]] + b[1..];
    }
  }

  lemma {:induction false} LessIrreflexive(a: seq<int>)
    ensures !Less(a, a)
    decreases |a|
  {
    if a != [] { LessIrreflexive(a[1..]); }
  }

  // Up to n the two agree; there a ends, or has the smaller character.
  ghost predicate ComesFirstAt(a: seq<int>, b: seq<int>, n: nat) {
    n <= |a| && n < |b| && a[..n] == b[..n] && (n == |a| || a[n] < b[n])
  }

  ghost predicate ComesFirst(a: seq<int>, b: seq<int>) {
    exists n: nat :: ComesFirstAt(a, b, n)
  }

  // The first difference decides.
  lemma {:induction false} LessExact(a: seq<int>, b: seq<int>)
    ensures Less(a, b) <==> ComesFirst(a, b)
    decreases |a|
  {
    if Less(a, b) {
      if a == [] || a[0] < b[0] {
        assert ComesFirstAt(a, b, 0);
      } else {
        LessExact(a[1..], b[1..]);
        var n: nat :| ComesFirstAt(a[1..], b[1..], n);
        assert a[..n + 1] == [a[0]] + a[1..][..n] && b[..n + 1] == [b[0]] + b[1..][..n];
        assert ComesFirstAt(a, b, n + 1);
      }
    }
    if ComesFirst(a, b) {
      var n: nat :| ComesFirstAt(a, b, n);
      if n > 0 {
        assert a[0] == a[..n][0] == b[..n][0] == b[0];
        assert a[1..][..n - 1] == a[..n][1..] && b[1..][..n - 1] == b[..n][1..];
        assert ComesFirstAt(a[1..], b[1..], n - 1);
        LessExact(a[1..], b[1..]);
      }
    }
  }

  ghost predicate Sorted<V>(m: seq<(seq<int>, V)>) {
    forall i, j :: 0 <= i < j < |m| ==> Less(m[i].0, m[j].0)
  }

  predicate Has<V>(m: seq<(seq<int>, V)>, k: seq<int>) {
    exists i :: 0 <= i < |m| && m[i].0 == k
  }

  // std::map::emplace: an existing key keeps its value.
  function Emplace<V>(m: seq<(seq<int>, V)>, k: seq<int>, v: V): (r: seq<(seq<int>, V)>)
    decreases |m|
  {
    if m == [] || Less(k, m[0].0) then [(k, v)] + m
    else if m[0].0 == k then m
    else [m[0]] + Emplace(m[1..], k, v)
  }

  lemma {:induction false} EmplaceSorted<V>(m: seq<(seq<int>, V)>, k: seq<int>, v: V)
    requires Sorted(m)
    ensures Sorted(Emplace(m, k, v))
    ensures Has(m, k) ==> Emplace(m, k, v) == m
    ensures !Has(m, k) ==> exists i :: 0 <= i <= |m| && Emplace(m, k, v) == m[..i] + [(k, v)] + m[i..]
    decreases |m|
  {
    var r := Emplace(m, k, v);
    if m == [] {
      assert r == m[..0] + [(k, v)] + m[0..];
    } else if Less(k, m[0].0) {
      forall j | 0 <= j < |m|
        ensures Less(k, m[j].0) && m[j].0 != k
      {
        if j > 0 { LessTransitive(k, m[0].0, m[j].0); }
        LessIrreflexive(k);
      }
      assert r == m[..0] + [(k, v)] + m[0..];
    } else if m[0].0 == k {
    } else {
      LessTotal(k, m[0].0);
      EmplaceRest(m, k, v);
    }
  }

  lemma HasRest<V>(m: seq<(seq<int>, V)>, k: seq<int>)
    requires m != [] && m[0].0 != k
    ensures Has(m, k) <==> Has(m[1..], k)
  {
    if Has(m, k) {
      var i :| 0 <= i < |m| && m[i].0 == k;
      assert m[1..][i - 1].0 == k;
    }
    if Has(m[1..], k) {
      var i :| 0 <= i < |m[1..]| && m[1..][i].0 == k;
      assert m[i + 1].0 == k;
    }
  }

  lemma SortedFront<V>(e: (seq<int>, V), r: seq<(seq<int>, V)>)
    requires Sorted(r) && forall j :: 0 <= j < |r| ==> Less(e.0, r[j].0)
    ensures Sorted([e] + r)
  {
    hide Less;
  }

  lemma {:induction false} EmplaceRest<V>(m: seq<(seq<int>, V)>, k: seq<int>, v: V)
    requires Sorted(m) && m != [] && Less(m[0].0, k)
    ensures Sorted([m[0]] + Emplace(m[1..], k, v))
    ensures Has(m, k) ==> [m[0]] + Emplace(m[1..], k, v) == m
    ensures !Has(m, k) ==> exists i :: 0 <= i <= |m| && [m[0]] + Emplace(m[1..], k, v) == m[..i] + [(k, v)] + m[i..]
    decreases |m|, 0
  {
    hide Less, Has, Emplace;
    var t, r := m[1..], Emplace(m[1..], k, v);
    LessIrreflexive(k);
    EmplaceSorted(t, k, v);
    HasRest(m, k);
    if Has(t, k) {
      assert [m[0]] + r == m;
    } else {
      var i :| 0 <= i <= |t| && r == t[..i] + [(k, v)] + t[i..];
      EmplacedBehind(m, (k, v), i);
      SortedFront(m[0], r);
    }
  }

  // An entry put in behind the first one.
  lemma EmplacedBehind<V>(m: seq<(seq<int>, V)>, e: (seq<int>, V), i: nat)
    requires Sorted(m) && m != [] && Less(m[0].0, e.0) && i <= |m[1..]|
    ensures var r := m[1..][..i] + [e] + m[1..][i..];
            && [m[0]] + r == m[..i + 1] + [e] + m[i + 1..]
            && forall j :: 0 <= j < |r| ==> Less(m[0].0, r[j].0)
  {
    hide Less;
    var r := m[1..][..i] + [e] + m[1..][i..];
    forall j | 0 <= j < |r| ensures Less(m[0].0, r[j].0) {
      assert r[j] == if j < i then m[j + 1] else if j == i then e else m[j];
    }
  }
}
