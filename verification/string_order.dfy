/** Ordinal string comparison, the order in which the table storage keeps
    and scans row keys: character by character on character codes, a proper
    prefix before any of its extensions. */
module StringOrder {

  predicate Below(a: string, b: string) {
    if a == [] then b != []
    else if b == [] then false
    else if a[0] != b[0] then a[0] < b[0]
    else Below(a[1..], b[1..])
  }

  predicate AtMost(a: string, b: string) {
    a == b || Below(a, b)
  }

  lemma {:induction false} BelowIrreflexive(a: string)
    ensures !Below(a, a)
  {
    if a != [] {
      BelowIrreflexive(a[1..]);
    }
  }

  lemma {:induction false} BelowTransitive(a: string, b: string, c: string)
    requires Below(a, b) && Below(b, c)
    ensures Below(a, c)
  {
    if a != [] && a[0] == b[0] && b[0] == c[0] {
      BelowTransitive(a[1..], b[1..], c[1..]);
    }
  }

  /** Any two distinct strings are ordered one way or the other, and never
      both ways. */
  lemma {:induction false} BelowTrichotomy(a: string, b: string)
    ensures a == b || Below(a, b) || Below(b, a)
    ensures !(Below(a, b) && Below(b, a))
  {
    if a != [] && b != [] && a[0] == b[0] {
      BelowTrichotomy(a[1..], b[1..]);
      if a[1..] == b[1..] {
        assert a == [a[0]] + a[1..] && b == [b[0]] + b[1..];
      }
    }
  }

  lemma AtMostTransitive(a: string, b: string, c: string)
    requires AtMost(a, b) && AtMost(b, c)
    ensures AtMost(a, c)
  {
    if a != b && b != c {
      BelowTransitive(a, b, c);
    }
  }

  /** A least element of a finite non-empty set of strings. */
  method MinKey(s: set<string>) returns (m: string)
    requires s != {}
    ensures m in s && forall x :: x in s ==> AtMost(m, x)
  {
    m :| m in s;
    var rest := s - {m};
    while rest != {}
      invariant rest <= s && m in s
      invariant forall x :: x in s && x !in rest ==> AtMost(m, x)
      decreases |rest|
    {
      var x :| x in rest;
      BelowTrichotomy(x, m);
      if Below(x, m) {
        forall y | y in s && y !in rest
          ensures AtMost(x, y)
        {
          AtMostTransitive(x, m, y);
        }
        m := x;
      }
      rest := rest - {x};
    }
  }

  /** A strictly ascending sequence. */
  predicate Ascending(keys: seq<string>) {
    forall i, j :: 0 <= i < j < |keys| ==> Below(keys[i], keys[j])
  }

  /** The elements of a finite set of strings in ascending order. */
  method SortKeys(s: set<string>) returns (keys: seq<string>)
    ensures Ascending(keys)
    ensures forall x :: x in s <==> x in keys
    ensures |keys| == |s|
  {
    keys := [];
    var rest := s;
    while rest != {}
      invariant rest <= s
      invariant Ascending(keys)
      invariant forall x :: x in s <==> x in keys || x in rest
      invariant forall x :: x in keys ==> x !in rest
      invariant forall i, x :: 0 <= i < |keys| && x in rest ==> Below(keys[i], x)
      invariant |keys| + |rest| == |s|
      decreases |rest|
    {
      var m := MinKey(rest);
      forall i, x | 0 <= i < |keys| && x in rest - {m}
        ensures Below(keys[i], x)
      {}
      forall x | x in rest - {m}
        ensures Below(m, x)
      {
        BelowTrichotomy(m, x);
      }
      keys := keys + [m];
      rest := rest - {m};
    }
  }
}
