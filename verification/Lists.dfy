/** Selecting from sequences of rows. */
module Lists {
  import opened Wrappers

  function First<T>(s: seq<T>, p: T -> bool): Option<T> {
    if s == [] then None else if p(s[0]) then Some(s[0]) else First(s[1..], p)
  }

  lemma {:induction false} FirstIsFirst<T>(s: seq<T>, p: T -> bool, k: nat)
    requires k < |s| && p(s[k]) && forall i :: 0 <= i < k ==> !p(s[i])
    ensures First(s, p) == Some(s[k])
  {
    if k > 0 { FirstIsFirst(s[1..], p, k - 1); }
  }

  lemma {:induction false} FirstFound<T>(s: seq<T>, p: T -> bool)
    ensures match First(s, p) case Some(x) => x in s && p(x) case None => forall x | x in s :: !p(x)
  {
    if s != [] && !p(s[0]) { FirstFound(s[1..], p); }
  }

  lemma {:induction false} FirstIndex<T>(s: seq<T>, p: T -> bool) returns (k: nat)
    requires First(s, p).Some?
    ensures k < |s| && First(s, p) == Some(s[k]) && p(s[k]) && forall i :: 0 <= i < k ==> !p(s[i])
  {
    if p(s[0]) { return 0; }
    k := FirstIndex(s[1..], p);
    k := k + 1;
  }

  /** `x` satisfies `p`, and is the first in `s` to do so. */
  predicate IsFirst<T(==)>(s: seq<T>, p: T -> bool, x: T) {
    exists i :: 0 <= i < |s| && s[i] == x && p(x) && forall j :: 0 <= j < i ==> !p(s[j])
  }

  lemma FirstIs<T>(s: seq<T>, p: T -> bool)
    ensures match First(s, p) case Some(x) => IsFirst(s, p, x) case None => forall x | x in s :: !p(x)
  {
    FirstFound(s, p);
    if First(s, p).Some? {
      var k := FirstIndex(s, p);
    }
  }

  /** The elements of `s` that satisfy `p`, in order. */
  function Keep<T>(s: seq<T>, p: T -> bool): seq<T> {
    if s == [] then [] else (if p(s[0]) then [s[0]] else []) + Keep(s[1..], p)
  }

  lemma {:induction false} KeepMembers<T>(s: seq<T>, p: T -> bool)
    ensures forall x :: x in Keep(s, p) <==> x in s && p(x)
  {
    if s != [] {
      KeepMembers(s[1..], p);
      assert s == [s[0]] + s[1..];
    }
  }

  lemma KeepMember<T>(s: seq<T>, p: T -> bool, x: T)
    ensures x in Keep(s, p) <==> x in s && p(x)
  {
    KeepMembers(s, p);
  }

  lemma {:induction false} KeepSame<T>(s: seq<T>, p: T -> bool, q: T -> bool)
    requires forall x | x in s :: p(x) == q(x)
    ensures Keep(s, p) == Keep(s, q)
  {
    if s != [] {
      assert s[0] in s;
      KeepSame(s[1..], p, q);
    }
  }

  lemma {:induction false} KeepAppend<T>(a: seq<T>, b: seq<T>, p: T -> bool)
    ensures Keep(a + b, p) == Keep(a, p) + Keep(b, p)
  {
    if a == [] {
      assert a + b == b;
    } else {
      var head := if p(a[0]) then [a[0]] else [];
      assert (a + b)[1..] == a[1..] + b && (a + b)[0] == a[0];
      KeepAppend(a[1..], b, p);
      assert head + (Keep(a[1..], p) + Keep(b, p)) == head + Keep(a[1..], p) + Keep(b, p);
    }
  }

  lemma {:induction false} KeepEverything<T>(s: seq<T>, p: T -> bool)
    requires forall x | x in s :: p(x)
    ensures Keep(s, p) == s
  {
    if s != [] {
      assert s[0] in s;
      KeepEverything(s[1..], p);
    }
  }

  lemma {:induction false} KeepKeep<T>(s: seq<T>, p: T -> bool, q: T -> bool, both: T -> bool)
    requires forall x | x in s :: both(x) == (p(x) && q(x))
    ensures Keep(Keep(s, p), q) == Keep(s, both)
  {
    if s != [] {
      assert s[0] in s;
      KeepKeep(s[1..], p, q, both);
      assert [] + Keep(s[1..], p) == Keep(s[1..], p) && [] + Keep(s[1..], both) == Keep(s[1..], both);
      if p(s[0]) { assert ([s[0]] + Keep(s[1..], p))[1..] == Keep(s[1..], p); }
    }
  }

  /** No two elements agree on `key`. */
  predicate DistinctBy<T, K(==)>(s: seq<T>, key: T -> K) {
    forall i, j :: 0 <= i < j < |s| ==> key(s[i]) != key(s[j])
  }

  lemma {:induction false} KeepDistinctBy<T, K>(s: seq<T>, key: T -> K, p: T -> bool)
    requires DistinctBy(s, key)
    ensures DistinctBy(Keep(s, p), key)
  {
    if s != [] {
      var kept := Keep(s[1..], p);
      KeepDistinctBy(s[1..], key, p);
      forall j | 0 <= j < |kept| ensures key(s[0]) != key(kept[j]) {
        KeepMember(s[1..], p, kept[j]);
      }
    }
  }

  predicate Distinct<T(==)>(s: seq<T>) { forall i, j :: 0 <= i < j < |s| ==> s[i] != s[j] }

  function Elements<T>(s: seq<T>): set<T> { set x | x in s }

  lemma {:induction false} DistinctCount<T>(s: seq<T>)
    requires Distinct(s)
    ensures |Elements(s)| == |s|
  {
    if s != [] {
      DistinctCount(s[1..]);
      assert s[0] !in s[1..];
      assert Elements(s) == {s[0]} + Elements(s[1..]);
    }
  }

  lemma ElementsSnoc<T>(s: seq<T>, x: T)
    ensures Elements(s + [x]) == Elements(s) + {x}
  {
  }

  /** Whatever the order, one of finitely many elements comes first. */
  lemma {:induction false} SomeFirst<T>(s: set<T>, notAfter: (T, T) -> bool) returns (first: T)
    requires s != {}
    requires forall x, y :: notAfter(x, y) || notAfter(y, x)
    requires forall x, y, z :: notAfter(x, y) && notAfter(y, z) ==> notAfter(x, z)
    ensures first in s && forall y | y in s :: notAfter(first, y)
    decreases |s|
  {
    first :| first in s;
    var rest := s - {first};
    assert notAfter(first, first);
    if rest != {} {
      var other := SomeFirst(rest, notAfter);
      assert forall y | y in s :: y == first || y in rest;
      if !notAfter(first, other) { first := other; }
    }
  }

  function Flatten<T>(s: seq<seq<T>>): seq<T> { if s == [] then [] else s[0] + Flatten(s[1..]) }

  lemma {:induction false} FlattenAppend<T>(a: seq<seq<T>>, b: seq<seq<T>>)
    ensures Flatten(a + b) == Flatten(a) + Flatten(b)
  {
    if a == [] {
      assert a + b == b;
    } else {
      assert (a + b)[1..] == a[1..] + b;
      FlattenAppend(a[1..], b);
    }
  }

  lemma FlattenSnoc<T>(blocks: seq<seq<T>>, i: nat)
    requires i < |blocks|
    ensures Flatten(blocks[..i + 1]) == Flatten(blocks[..i]) + blocks[i]
  {
    FlattenAppend(blocks[..i], [blocks[i]]);
    assert blocks[..i + 1] == blocks[..i] + [blocks[i]];
    assert [blocks[i]][1..] == [] && Flatten([blocks[i]]) == blocks[i] + [];
  }

  lemma {:induction false} FlattenSplit<T>(blocks: seq<seq<T>>, i: nat)
    requires i <= |blocks|
    ensures Flatten(blocks) == Flatten(blocks[..i]) + Flatten(blocks[i..])
  {
    FlattenAppend(blocks[..i], blocks[i..]);
    assert blocks[..i] + blocks[i..] == blocks;
  }
}
