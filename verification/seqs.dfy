/** Order-keeping filtering and flattening of sequences, the LINQ `Where` and
    `SelectMany` the repositories and the manager are written with, and the
    decode-everything-or-fail and page-by-page loops built on them. */
module Seqs {

  import opened Wrappers

  /** The elements of `s` that satisfy `p`, in their original order. */
  function Filter<T>(s: seq<T>, p: T -> bool): (r: seq<T>)
    ensures |r| <= |s|
    ensures forall k :: 0 <= k < |r| ==> p(r[k]) && r[k] in s
    ensures forall k :: 0 <= k < |s| && p(s[k]) ==> s[k] in r
  {
    if s == [] then [] else (if p(s[0]) then [s[0]] else []) + Filter(s[1..], p)
  }

  /** The concatenation of all sequences of `ss`, in order. */
  function Flatten<T>(ss: seq<seq<T>>): (r: seq<T>)
    ensures ss == [] ==> r == []
    ensures ss != [] ==> r == ss[0] + Flatten(ss[1..])
  {
    if ss == [] then [] else ss[0] + Flatten(ss[1..])
  }

  /** Filtering distributes over concatenation. */
  lemma {:induction false} FilterConcat<T>(a: seq<T>, b: seq<T>, p: T -> bool)
    ensures Filter(a + b, p) == Filter(a, p) + Filter(b, p)
  {
    if a == [] {
      assert a + b == b;
    } else {
      assert (a + b)[0] == a[0];
      assert (a + b)[1..] == a[1..] + b;
      FilterConcat(a[1..], b, p);
    }
  }

  /** Filtering keeps an element that satisfies the predicate as often as
      it occurs, and drops every other. */
  lemma {:induction false} FilterMultiplicity<T>(s: seq<T>, p: T -> bool, x: T)
    ensures multiset(Filter(s, p))[x] == if p(x) then multiset(s)[x] else 0
  {
    if s != [] {
      FilterMultiplicity(s[1..], p, x);
      assert s == [s[0]] + s[1..];
    }
  }

  lemma FilterMultiplicities<T>(s: seq<T>, p: T -> bool)
    ensures forall x :: multiset(Filter(s, p))[x] == if p(x) then multiset(s)[x] else 0
  {
    forall x {
      FilterMultiplicity(s, p, x);
    }
  }

  /** Filtering keeps every element when all of them satisfy the predicate. */
  lemma {:induction false} FilterAll<T>(s: seq<T>, p: T -> bool)
    requires forall k :: 0 <= k < |s| ==> p(s[k])
    ensures Filter(s, p) == s
  {
    if s != [] {
      FilterAll(s[1..], p);
    }
  }

  /** Filtering finds nothing when no element satisfies the predicate. */
  lemma {:induction false} FilterNone<T>(s: seq<T>, p: T -> bool)
    requires forall k :: 0 <= k < |s| ==> !p(s[k])
    ensures Filter(s, p) == []
  {
    if s != [] {
      FilterNone(s[1..], p);
    }
  }

  /** A prefix none of whose elements satisfies the predicate adds nothing
      to the filtered sequence. */
  lemma {:induction false} FilterSkipsPrefix<T>(s: seq<T>, n: nat, p: T -> bool)
    requires n <= |s|
    requires forall k :: 0 <= k < n ==> !p(s[k])
    ensures Filter(s, p) == Filter(s[n..], p)
  {
    if n > 0 {
      assert forall k :: 0 <= k < |s[1..]| ==> s[1..][k] == s[k + 1];
      FilterSkipsPrefix(s[1..], n - 1, p);
      assert s[1..][n - 1..] == s[n..];
    }
  }

  /** When exactly the first `n` elements satisfy the predicate, filtering
      keeps exactly them. */
  lemma {:induction false} FilterExactPrefix<T>(s: seq<T>, n: nat, p: T -> bool)
    requires n <= |s|
    requires forall k :: 0 <= k < n ==> p(s[k])
    requires forall k :: n <= k < |s| ==> !p(s[k])
    ensures Filter(s, p) == s[..n]
  {
    if n == 0 {
      FilterNone(s, p);
    } else {
      assert forall k :: 0 <= k < |s[1..]| ==> s[1..][k] == s[k + 1];
      FilterExactPrefix(s[1..], n - 1, p);
      assert s[..n] == [s[0]] + s[1..][..n - 1];
    }
  }

  /** Flattening distributes over concatenation. */
  lemma {:induction false} FlattenConcat<T>(a: seq<seq<T>>, b: seq<seq<T>>)
    ensures Flatten(a + b) == Flatten(a) + Flatten(b)
  {
    if a == [] {
      assert a + b == b;
    } else {
      assert (a + b)[0] == a[0];
      assert (a + b)[1..] == a[1..] + b;
      FlattenConcat(a[1..], b);
    }
  }

  /** Applies `f` to every element in order; the first failure ends the
      run and is the result. */
  function MapAll<A, B, E>(xs: seq<A>, f: A -> Result<B, E>): (r: Result<seq<B>, E>)
    ensures r.Success? <==> forall k :: 0 <= k < |xs| ==> f(xs[k]).Success?
    ensures r.Success? ==> |r.value| == |xs|
    ensures r.Success? ==> forall k {:trigger r.value[k]} :: 0 <= k < |xs| ==> f(xs[k]) == Success(r.value[k])
  {
    if xs == [] then Success([])
    else
      match f(xs[0])
      case Failure(e) => Failure(e)
      case Success(y) =>
        match MapAll(xs[1..], f)
        case Failure(e) => Failure(e)
        case Success(ys) => Success([y] + ys)
  }

  lemma {:induction false} MapAllConcat<A, B, E>(a: seq<A>, b: seq<A>, f: A -> Result<B, E>)
    ensures MapAll(a + b, f).Success? <==> MapAll(a, f).Success? && MapAll(b, f).Success?
    ensures MapAll(a + b, f).Success? ==> MapAll(a + b, f).value == MapAll(a, f).value + MapAll(b, f).value
  {
    if a == [] {
      assert a + b == b;
    } else {
      assert (a + b)[0] == a[0];
      assert (a + b)[1..] == a[1..] + b;
      MapAllConcat(a[1..], b, f);
    }
  }

  /** A page-by-page run: the arguments of the per-page callback in call
      order, and the error that ended the run early, if any. */
  datatype Run<B, E> = Run(calls: seq<seq<B>>, error: Option<E>)

  /** Walks the pages in order; each page keeps the elements satisfying `p`,
      maps them with `f`, and is passed on only when something is left. A
      failure ends the run, and the pages passed on before it stay passed. */
  function ChunkedMap<A, B, E>(pages: seq<seq<A>>, p: A -> bool, f: A -> Result<B, E>): (r: Run<B, E>)
    ensures forall k :: 0 <= k < |r.calls| ==> r.calls[k] != []
    ensures r.error.None? <==> MapAll(Filter(Flatten(pages), p), f).Success?
    ensures r.error.None? ==> Flatten(r.calls) == MapAll(Filter(Flatten(pages), p), f).value
  {
    if pages == [] then Run([], None)
    else
      var page := Filter(pages[0], p);
      PageSplit(pages, p, f);
      match MapAll(page, f)
      case Failure(e) => Run([], Some(e))
      case Success(ys) =>
        var rest := ChunkedMap(pages[1..], p, f);
        Run(PassOn(ys, rest.calls), rest.error)
  }

  /** The calls of a run with one more page in front: the page is passed on
      only when it is not empty. */
  function PassOn<B>(ys: seq<B>, calls: seq<seq<B>>): (r: seq<seq<B>>)
    requires forall k :: 0 <= k < |calls| ==> calls[k] != []
    ensures forall k :: 0 <= k < |r| ==> r[k] != []
    ensures Flatten(r) == ys + Flatten(calls)
  {
    if ys == [] then
      assert ys + Flatten(calls) == Flatten(calls);
      calls
    else [ys] + calls
  }

  /** Mapping the filtered pages splits into the first page and the rest. */
  lemma PageSplit<A, B, E>(pages: seq<seq<A>>, p: A -> bool, f: A -> Result<B, E>)
    requires pages != []
    ensures var all := MapAll(Filter(Flatten(pages), p), f);
            var first := MapAll(Filter(pages[0], p), f);
            var rest := MapAll(Filter(Flatten(pages[1..]), p), f);
            && (all.Success? <==> first.Success? && rest.Success?)
            && (all.Success? ==> all.value == first.value + rest.value)
  {
    FilterConcat(pages[0], Flatten(pages[1..]), p);
    MapAllConcat(Filter(pages[0], p), Filter(Flatten(pages[1..]), p), f);
  }

  /** `q` holds of every element of every call. */
  predicate Every<B>(calls: seq<seq<B>>, q: B -> bool) {
    forall k, j :: 0 <= k < |calls| && 0 <= j < |calls[k]| ==> q(calls[k][j])
  }

  lemma EveryConcat<B>(a: seq<seq<B>>, b: seq<seq<B>>, q: B -> bool)
    requires Every(a, q) && Every(b, q)
    ensures Every(a + b, q)
  {
    forall k, j | 0 <= k < |a + b| && 0 <= j < |(a + b)[k]|
      ensures q((a + b)[k][j])
    {
      if k < |a| {
        assert (a + b)[k] == a[k];
      } else {
        assert (a + b)[k] == b[k - |a|];
      }
    }
  }

  /** Whatever holds of every mapped element that passes the filter holds of
      every element passed on. */
  lemma {:induction false} ChunkedMapKeeps<A, B, E>(pages: seq<seq<A>>, p: A -> bool, f: A -> Result<B, E>, q: B -> bool)
    requires forall x :: p(x) && f(x).Success? ==> q(f(x).value)
    ensures Every(ChunkedMap(pages, p, f).calls, q)
  {
    if pages != [] {
      var page := Filter(pages[0], p);
      ChunkedMapKeeps(pages[1..], p, f, q);
      var r := ChunkedMap(pages, p, f);
      match MapAll(page, f)
      case Failure(_) =>
        assert r.calls == [];
      case Success(ys) =>
        var rest := ChunkedMap(pages[1..], p, f);
        var first := if ys == [] then [] else [ys];
        assert r.calls == first + rest.calls;
        forall k, j | 0 <= k < |first| && 0 <= j < |first[k]|
          ensures q(first[k][j])
        {
          assert first[k] == ys;
          assert f(page[j]) == Success(ys[j]);
        }
        EveryConcat(first, rest.calls, q);
    }
  }
}
