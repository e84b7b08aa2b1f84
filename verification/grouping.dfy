/** Cutting a sequence into its maximal runs of equal key: the shape of
    every bucketing in the history service, where consecutive candles with
    the same aligned timestamp form one bucket. On a sequence whose keys do
    not decrease, each run is exactly the set of elements with its key, and
    the runs' keys strictly ascend. */
module Grouping {

  import opened Seqs

  /** Whether an element has key `b`. */
  function HasKey<T>(key: T -> int, b: int): T -> bool {
    (x: T) => key(x) == b
  }

  /** Keys never decrease along the sequence. */
  predicate KeysSorted<T>(xs: seq<T>, key: T -> int) {
    forall i, j :: 0 <= i < j < |xs| ==> key(xs[i]) <= key(xs[j])
  }

  /** The length of the leading run of elements with key `b`. */
  function RunOf<T>(xs: seq<T>, key: T -> int, b: int): (n: nat)
    ensures n <= |xs|
  {
    if xs == [] || key(xs[0]) != b then 0 else 1 + RunOf(xs[1..], key, b)
  }

  /** The leading run has key `b`, and the element after it has not. */
  lemma {:induction false} RunOfBounds<T>(xs: seq<T>, key: T -> int, b: int)
    ensures var n := RunOf(xs, key, b);
      && (forall i :: 0 <= i < n ==> key(xs[i]) == b)
      && (n < |xs| ==> key(xs[n]) != b)
  {
    if xs != [] && key(xs[0]) == b {
      RunOfBounds(xs[1..], key, b);
      assert forall i :: 1 <= i < |xs| ==> xs[i] == xs[1..][i - 1];
    }
  }

  /** The length of the leading run of elements that share the first
      element's key. */
  function Leading<T>(xs: seq<T>, key: T -> int): (n: nat)
    requires xs != []
    ensures 1 <= n <= |xs|
  {
    RunOf(xs, key, key(xs[0]))
  }

  /** The maximal runs of equal key, in order. */
  function Groups<T>(xs: seq<T>, key: T -> int): (gs: seq<seq<T>>)
    ensures |gs| <= |xs|
    ensures xs == [] <==> gs == []
    decreases |xs|
  {
    if xs == [] then []
    else
      var n := Leading(xs, key);
      [xs[..n]] + Groups(xs[n..], key)
  }

  lemma SuffixSorted<T>(xs: seq<T>, key: T -> int, n: nat)
    requires n <= |xs| && KeysSorted(xs, key)
    ensures KeysSorted(xs[n..], key)
  {
    assert forall k :: 0 <= k < |xs[n..]| ==> xs[n..][k] == xs[n + k];
  }

  /** What follows the leading run. */
  function Rest<T>(xs: seq<T>, key: T -> int): (r: seq<T>)
    requires xs != []
    ensures |r| < |xs|
  {
    xs[Leading(xs, key)..]
  }

  /** The first group is the leading run, and the rest's groups follow. */
  lemma GroupsHead<T>(xs: seq<T>, key: T -> int)
    requires xs != []
    ensures |Groups(xs, key)| == |Groups(Rest(xs, key), key)| + 1
    ensures Groups(xs, key)[0] == xs[..Leading(xs, key)]
  {
  }

  /** Group `k` after the first is group `k - 1` of the rest. */
  lemma GroupsTail<T>(xs: seq<T>, key: T -> int, k: nat)
    requires 1 <= k < |Groups(xs, key)|
    ensures xs != [] && k - 1 < |Groups(Rest(xs, key), key)|
    ensures Groups(xs, key)[k] == Groups(Rest(xs, key), key)[k - 1]
  {
  }

  /** The leading run shares the first key, and the element after it has
      another key. */
  lemma LeadingBounds<T>(xs: seq<T>, key: T -> int)
    requires xs != []
    ensures var n := Leading(xs, key);
      && (forall i :: 0 <= i < n ==> key(xs[i]) == key(xs[0]))
      && (n < |xs| ==> key(xs[n]) != key(xs[0]))
  {
    RunOfBounds(xs, key, key(xs[0]));
  }

  /** On sorted keys, every element after the leading run has a greater
      key. */
  lemma AfterLeading<T>(xs: seq<T>, key: T -> int, i: nat)
    requires xs != [] && KeysSorted(xs, key)
    requires Leading(xs, key) <= i < |xs|
    ensures key(xs[0]) < key(xs[i])
  {
    LeadingBounds(xs, key);
    var n := Leading(xs, key);
    assert key(xs[0]) <= key(xs[n]) <= key(xs[i]);
  }

  /** No group is empty. */
  lemma {:induction false} GroupNonEmpty<T>(xs: seq<T>, key: T -> int, k: nat)
    requires k < |Groups(xs, key)|
    ensures 0 < |Groups(xs, key)[k]|
    decreases |xs|
  {
    if k == 0 {
      GroupsHead(xs, key);
    } else {
      GroupsTail(xs, key, k);
      GroupNonEmpty(Rest(xs, key), key, k - 1);
    }
  }

  lemma AllGroupsNonEmpty<T>(xs: seq<T>, key: T -> int)
    ensures forall k :: 0 <= k < |Groups(xs, key)| ==> 0 < |Groups(xs, key)[k]|
  {
    forall k | 0 <= k < |Groups(xs, key)|
      ensures 0 < |Groups(xs, key)[k]|
    {
      GroupNonEmpty(xs, key, k);
    }
  }

  /** Every element of a group is an element of the sequence. */
  lemma {:induction false} GroupMember<T>(xs: seq<T>, key: T -> int, k: nat, i: nat)
    requires k < |Groups(xs, key)|
    requires i < |Groups(xs, key)[k]|
    ensures Groups(xs, key)[k][i] in xs
    decreases |xs|
  {
    if k == 0 {
      GroupsHead(xs, key);
      assert Groups(xs, key)[0][i] == xs[i];
    } else {
      GroupsTail(xs, key, k);
      GroupMember(Rest(xs, key), key, k - 1, i);
      var x := Groups(xs, key)[k][i];
      var j :| 0 <= j < |Rest(xs, key)| && Rest(xs, key)[j] == x;
      assert xs[Leading(xs, key) + j] == x;
    }
  }

  /** The groups, concatenated, give back the sequence: every element is in
      exactly one group, in its original order. */
  lemma {:induction false} GroupsPartition<T>(xs: seq<T>, key: T -> int)
    ensures Flatten(Groups(xs, key)) == xs
    decreases |xs|
  {
    if xs != [] {
      var n := Leading(xs, key);
      GroupsPartition(xs[n..], key);
      assert Groups(xs, key) == [xs[..n]] + Groups(xs[n..], key);
      assert xs == xs[..n] + xs[n..];
    }
  }

  /** All elements of a group share its key. */
  lemma {:induction false} GroupShareKey<T>(xs: seq<T>, key: T -> int, k: nat, i: nat)
    requires k < |Groups(xs, key)|
    requires i < |Groups(xs, key)[k]|
    ensures key(Groups(xs, key)[k][i]) == key(Groups(xs, key)[k][0])
    decreases |xs|
  {
    if k == 0 {
      GroupsHead(xs, key);
      LeadingBounds(xs, key);
    } else {
      GroupsTail(xs, key, k);
      GroupShareKey(Rest(xs, key), key, k - 1, i);
    }
  }

  /** When every key is at least `b`, so is every group's key. */
  lemma {:induction false} GroupKeysAtLeast<T>(xs: seq<T>, key: T -> int, b: int, k: nat)
    requires forall i :: 0 <= i < |xs| ==> b <= key(xs[i])
    requires k < |Groups(xs, key)|
    ensures 0 < |Groups(xs, key)[k]| && b <= key(Groups(xs, key)[k][0])
    decreases |xs|
  {
    if k == 0 {
      GroupsHead(xs, key);
    } else {
      GroupsTail(xs, key, k);
      var n := Leading(xs, key);
      assert forall i :: 0 <= i < |xs[n..]| ==> xs[n..][i] == xs[n + i];
      GroupKeysAtLeast(Rest(xs, key), key, b, k - 1);
    }
  }

  /** On sorted keys, no element after position `n` has a smaller key. */
  lemma SuffixAtLeast<T>(xs: seq<T>, key: T -> int, n: nat)
    requires n < |xs| && KeysSorted(xs, key)
    ensures forall i :: 0 <= i < |xs[n..]| ==> key(xs[n]) <= key(xs[n..][i])
  {
    assert forall i :: 0 <= i < |xs[n..]| ==> xs[n..][i] == xs[n + i];
  }

  /** The groups after the first have keys above the first key. */
  lemma LaterGroupKeys<T>(xs: seq<T>, key: T -> int, k: nat)
    requires KeysSorted(xs, key)
    requires 1 <= k < |Groups(xs, key)|
    ensures xs != [] && 0 < |Groups(xs, key)[k]|
    ensures key(xs[0]) < key(Groups(xs, key)[k][0])
  {
    GroupsTail(xs, key, k);
    var n := Leading(xs, key);
    AfterLeading(xs, key, n);
    SuffixAtLeast(xs, key, n);
    GroupKeysAtLeast(Rest(xs, key), key, key(xs[n]), k - 1);
  }

  /** On sorted keys, group keys strictly ascend: no key has two groups. */
  lemma {:induction false} GroupKeysAscend<T>(xs: seq<T>, key: T -> int, k: nat, l: nat)
    requires KeysSorted(xs, key)
    requires k < l < |Groups(xs, key)|
    ensures 0 < |Groups(xs, key)[k]| && 0 < |Groups(xs, key)[l]|
    ensures key(Groups(xs, key)[k][0]) < key(Groups(xs, key)[l][0])
    decreases |xs|
  {
    if k == 0 {
      GroupsHead(xs, key);
      LaterGroupKeys(xs, key, l);
    } else {
      GroupsTail(xs, key, k);
      GroupsTail(xs, key, l);
      SuffixSorted(xs, key, Leading(xs, key));
      GroupKeysAscend(Rest(xs, key), key, k - 1, l - 1);
    }
  }

  /** On sorted keys, group `k` is exactly the elements with its key. */
  lemma {:induction false} GroupIsFilter<T>(xs: seq<T>, key: T -> int, k: nat)
    requires KeysSorted(xs, key)
    requires k < |Groups(xs, key)|
    ensures 0 < |Groups(xs, key)[k]|
    ensures Groups(xs, key)[k] == Filter(xs, HasKey(key, key(Groups(xs, key)[k][0])))
    decreases |xs|
  {
    if k == 0 {
      GroupsHead(xs, key);
      FirstGroupIsFilter(xs, key);
    } else {
      GroupsTail(xs, key, k);
      SuffixSorted(xs, key, Leading(xs, key));
      GroupIsFilter(Rest(xs, key), key, k - 1);
      LaterGroupIsFilter(xs, key, k);
    }
  }

  /** A later group's key does not occur in the leading run, so filtering
      the whole sequence and filtering the rest agree on it. */
  lemma LaterGroupIsFilter<T>(xs: seq<T>, key: T -> int, k: nat)
    requires KeysSorted(xs, key)
    requires 1 <= k < |Groups(xs, key)|
    requires 0 < |Groups(xs, key)[k]|
    ensures var b := key(Groups(xs, key)[k][0]);
      Filter(xs, HasKey(key, b)) == Filter(Rest(xs, key), HasKey(key, b))
  {
    LaterGroupKeys(xs, key, k);
    LeadingBounds(xs, key);
    FilterSkipsPrefix(xs, Leading(xs, key), HasKey(key, key(Groups(xs, key)[k][0])));
  }

  lemma FirstGroupIsFilter<T>(xs: seq<T>, key: T -> int)
    requires xs != [] && KeysSorted(xs, key)
    ensures xs[..Leading(xs, key)] == Filter(xs, HasKey(key, key(xs[0])))
  {
    var n := Leading(xs, key);
    LeadingBounds(xs, key);
    forall i | n <= i < |xs|
      ensures !HasKey(key, key(xs[0]))(xs[i])
    {
      AfterLeading(xs, key, i);
    }
    FilterExactPrefix(xs, n, HasKey(key, key(xs[0])));
  }

  /** A run of key `b` that ends at `n` has length `n`. */
  lemma {:induction false} RunOfExact<T>(xs: seq<T>, key: T -> int, b: int, n: nat)
    requires n <= |xs|
    requires forall i :: 0 <= i < n ==> key(xs[i]) == b
    requires n < |xs| ==> key(xs[n]) != b
    ensures RunOf(xs, key, b) == n
  {
    if n > 0 {
      assert forall i :: 0 <= i < n - 1 ==> xs[1..][i] == xs[i + 1];
      RunOfExact(xs[1..], key, b, n - 1);
    }
  }

  /** A non-empty sequence of one key is one group. */
  lemma OneGroup<T>(xs: seq<T>, key: T -> int)
    requires xs != []
    requires forall i :: 0 <= i < |xs| ==> key(xs[i]) == key(xs[0])
    ensures |Groups(xs, key)| == 1 && Groups(xs, key)[0] == xs
  {
    RunOfExact(xs, key, key(xs[0]), |xs|);
    GroupsHead(xs, key);
    assert Rest(xs, key) == [];
  }

  /** A sequence of one key up to `n` and another from `n` on is two
      groups. */
  lemma TwoGroups<T>(xs: seq<T>, key: T -> int, n: nat)
    requires 0 < n < |xs|
    requires forall i :: 0 <= i < n ==> key(xs[i]) == key(xs[0])
    requires forall i :: n <= i < |xs| ==> key(xs[i]) == key(xs[n])
    requires key(xs[0]) != key(xs[n])
    ensures |Groups(xs, key)| == 2
    ensures Groups(xs, key)[0] == xs[..n] && Groups(xs, key)[1] == xs[n..]
  {
    RunOfExact(xs, key, key(xs[0]), n);
    GroupsHead(xs, key);
    var rest := Rest(xs, key);
    assert rest == xs[n..];
    assert forall i :: 0 <= i < |rest| ==> rest[i] == xs[n + i];
    OneGroup(rest, key);
    GroupsTail(xs, key, 1);
  }

  /** Whether some group has key `b`. */
  predicate HasGroup<T>(gs: seq<seq<T>>, key: T -> int, b: int) {
    exists k :: 0 <= k < |gs| && 0 < |gs[k]| && key(gs[k][0]) == b
  }

  /** The key of every element has a group. */
  lemma {:induction false} GroupsCover<T>(xs: seq<T>, key: T -> int, j: nat)
    requires j < |xs|
    ensures HasGroup(Groups(xs, key), key, key(xs[j]))
    decreases |xs|
  {
    var n := Leading(xs, key);
    GroupsHead(xs, key);
    if j < n {
      LeadingBounds(xs, key);
      assert Groups(xs, key)[0][0] == xs[0];
    } else {
      assert Rest(xs, key)[j - n] == xs[j];
      GroupsCover(Rest(xs, key), key, j - n);
      var k :| 0 <= k < |Groups(Rest(xs, key), key)| && 0 < |Groups(Rest(xs, key), key)[k]|
        && key(Groups(Rest(xs, key), key)[k][0]) == key(xs[j]);
      GroupsTail(xs, key, k + 1);
    }
  }
}
