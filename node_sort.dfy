/** The comparator the node table hands to `Array.prototype.sort`, and the
    in-place sort of the table's copied array. A column's value is
    `node[key] ?? ''`; the comparator answers -1 or 1 when the values differ
    under JavaScript's `<` and `>`, and 0 otherwise. */
module NodeSort {
  import opened Types
  import opened Strings

  /** The columns whose values are numbers; every other column holds strings. */
  predicate IsNumericKey(k: SortKey) {
    k == ShredVersion || k == Latency || k == DiskSpace || k == Uptime
  }

  /** `node[key] ?? ''` for a numeric column, as `<` sees it: the empty string
      that stands for a missing number converts to 0. */
  function NumValue(n: PNode, k: SortKey): real
    requires IsNumericKey(k)
  {
    match k
    case Latency => n.latency as real
    case ShredVersion => (match n.shredVersion case Some(v) => v as real case None => 0.0)
    case DiskSpace => (match n.diskSpace case Some(v) => v case None => 0.0)
    case Uptime => (match n.uptime case Some(v) => v case None => 0.0)
  }

  /** `node[key] ?? ''` for a string column. */
  function StrValue(n: PNode, k: SortKey): string
    requires !IsNumericKey(k)
  {
    match k
    case IdentityPubkey => n.identityPubkey
    case GossipAddr => n.gossipAddr
    case RpcAddr => (match n.rpcAddr case Some(v) => v case None => "")
    case Version => (match n.version case Some(v) => v case None => "")
    case Status => StatusName(n.status)
    case Location => (match n.location case Some(v) => v case None => "")
  }

  /** `valA < valB` for the column `k`. */
  predicate KeyLess(k: SortKey, a: PNode, b: PNode) {
    if IsNumericKey(k) then NumValue(a, k) < NumValue(b, k)
    else StrLess(StrValue(a, k), StrValue(b, k))
  }

  /** The two nodes hold the same value in column `k`. */
  predicate SameKey(k: SortKey, a: PNode, b: PNode) {
    if IsNumericKey(k) then NumValue(a, k) == NumValue(b, k)
    else StrValue(a, k) == StrValue(b, k)
  }

  /** The values of one column are totally ordered: exactly one of less,
      same and greater holds. */
  lemma KeyTrichotomy(k: SortKey, a: PNode, b: PNode)
    ensures KeyLess(k, a, b) || SameKey(k, a, b) || KeyLess(k, b, a)
    ensures !(KeyLess(k, a, b) && KeyLess(k, b, a))
    ensures SameKey(k, a, b) ==> !KeyLess(k, a, b)
  {
    if !IsNumericKey(k) {
      StrLessTrichotomy(StrValue(a, k), StrValue(b, k));
      StrLessIrreflexive(StrValue(a, k));
    }
  }

  lemma KeyLessTransitive(k: SortKey, a: PNode, b: PNode, c: PNode)
    requires KeyLess(k, a, b) && KeyLess(k, b, c)
    ensures KeyLess(k, a, c)
  {
    if !IsNumericKey(k) {
      StrLessTransitive(StrValue(a, k), StrValue(b, k), StrValue(c, k));
    }
  }

  /** The comparator `(a, b) => ...` passed to `result.sort`. */
  function Compare(cfg: SortConfig, a: PNode, b: PNode): (r: int)
    ensures r == -1 || r == 0 || r == 1
  {
    if KeyLess(cfg.key, a, b) then (if cfg.direction == Asc then -1 else 1)
    else if KeyLess(cfg.key, b, a) then (if cfg.direction == Asc then 1 else -1)
    else 0
  }

  /** Equal keys compare as 0, different keys never do; and swapping the
      arguments negates the answer. */
  lemma CompareMeaning(cfg: SortConfig, a: PNode, b: PNode)
    ensures Compare(cfg, a, b) == 0 <==> SameKey(cfg.key, a, b)
    ensures Compare(cfg, a, b) == -Compare(cfg, b, a)
    ensures Compare(cfg, a, b) < 0 <==>
              (if cfg.direction == Asc then KeyLess(cfg.key, a, b) else KeyLess(cfg.key, b, a))
  {
    KeyTrichotomy(cfg.key, a, b);
    KeyTrichotomy(cfg.key, b, a);
  }

  /** `a` may stay before `b`: the comparator does not ask to swap them. */
  predicate InOrder(cfg: SortConfig, a: PNode, b: PNode) {
    Compare(cfg, a, b) <= 0
  }

  lemma InOrderTransitive(cfg: SortConfig, a: PNode, b: PNode, c: PNode)
    requires InOrder(cfg, a, b) && InOrder(cfg, b, c)
    ensures InOrder(cfg, a, c)
  {
    KeyTrichotomy(cfg.key, a, b);
    KeyTrichotomy(cfg.key, b, c);
    KeyTrichotomy(cfg.key, a, c);
    if SameKey(cfg.key, a, b) && KeyLess(cfg.key, c, a) {
      SameKeyLess(cfg.key, c, a, b);
    } else if SameKey(cfg.key, a, b) && KeyLess(cfg.key, a, c) {
      SameKeyLess'(cfg.key, a, c, b);
    } else if SameKey(cfg.key, b, c) && KeyLess(cfg.key, c, a) {
      SameKeyLess'(cfg.key, c, a, b);
    } else if SameKey(cfg.key, b, c) && KeyLess(cfg.key, a, c) {
      SameKeyLess(cfg.key, a, c, b);
    } else if cfg.direction == Asc && KeyLess(cfg.key, c, a) {
      if KeyLess(cfg.key, b, a) {} else { KeyLessTransitive(cfg.key, c, a, b); }
    } else if cfg.direction == Desc && KeyLess(cfg.key, a, c) {
      if KeyLess(cfg.key, a, b) {} else { KeyLessTransitive(cfg.key, b, a, c); }
    }
  }

  /** A value that is less than one of two equal values is less than the other. */
  lemma SameKeyLess(k: SortKey, x: PNode, y: PNode, z: PNode)
    requires KeyLess(k, x, y) && SameKey(k, y, z)
    ensures KeyLess(k, x, z)
  {
  }

  lemma SameKeyLess'(k: SortKey, x: PNode, y: PNode, z: PNode)
    requires KeyLess(k, x, y) && SameKey(k, x, z)
    ensures KeyLess(k, z, y)
  {
  }

  /** Every pair of positions is in comparator order. */
  predicate Sorted(cfg: SortConfig, s: seq<PNode>) {
    forall i, j :: 0 <= i < j < |s| ==> InOrder(cfg, s[i], s[j])
  }

  /** Column values never go down along the sequence. */
  predicate NonDecreasing(k: SortKey, s: seq<PNode>) {
    forall i, j :: 0 <= i < j < |s| ==> !KeyLess(k, s[j], s[i])
  }

  /** Column values never go up along the sequence. */
  predicate NonIncreasing(k: SortKey, s: seq<PNode>) {
    forall i, j :: 0 <= i < j < |s| ==> !KeyLess(k, s[i], s[j])
  }

  /** Sorted by the comparator means non-decreasing for 'asc' and
      non-increasing for 'desc'. */
  lemma SortedMeaning(cfg: SortConfig, s: seq<PNode>)
    ensures Sorted(cfg, s) <==>
              (if cfg.direction == Asc then NonDecreasing(cfg.key, s) else NonIncreasing(cfg.key, s))
  {
    forall i, j | 0 <= i < j < |s|
      ensures InOrder(cfg, s[i], s[j]) <==>
                (if cfg.direction == Asc then !KeyLess(cfg.key, s[j], s[i]) else !KeyLess(cfg.key, s[i], s[j]))
    {
      CompareMeaning(cfg, s[i], s[j]);
      KeyTrichotomy(cfg.key, s[i], s[j]);
    }
  }

  /** Neighbours in order make the whole sequence sorted. */
  lemma {:induction false} AdjacentInOrderIsSorted(cfg: SortConfig, s: seq<PNode>)
    requires forall k :: 0 < k < |s| ==> InOrder(cfg, s[k - 1], s[k])
    ensures Sorted(cfg, s)
  {
    if |s| > 1 {
      var init := s[..|s| - 1];
      AdjacentInOrderIsSorted(cfg, init);
      forall i | 0 <= i < |s| - 1
        ensures InOrder(cfg, s[i], s[|s| - 1])
      {
        if i < |s| - 2 {
          assert InOrder(cfg, init[i], init[|s| - 2]);
          InOrderTransitive(cfg, s[i], s[|s| - 2], s[|s| - 1]);
        }
      }
    }
  }

  /** Every neighbouring pair of `s[..hi]` is in comparator order. */
  predicate AdjacentInOrder(cfg: SortConfig, s: seq<PNode>, hi: int)
    requires hi <= |s|
  {
    forall k :: 0 < k < hi ==> InOrder(cfg, s[k - 1], s[k])
  }

  /** `s` with the neighbours at `p` and `p + 1` exchanged. */
  function Swapped(s: seq<PNode>, p: nat): (r: seq<PNode>)
    requires p + 1 < |s|
    ensures |r| == |s| && multiset(r) == multiset(s)
    ensures r[p] == s[p + 1] && r[p + 1] == s[p]
    ensures forall k :: 0 <= k < |s| && k != p && k != p + 1 ==> r[k] == s[k]
  {
    s[p := s[p + 1]][p + 1 := s[p]]
  }

  /** `result.sort(comparator)` on the table's own array: an insertion sort
      that swaps neighbours while the comparator answers positive. It leaves
      every neighbouring pair in order and keeps the array's elements. */
  method SortInPlace(a: array<PNode>, cfg: SortConfig)
    modifies a
    ensures AdjacentInOrder(cfg, a[..], a.Length)
    ensures multiset(a[..]) == multiset(old(a[..]))
  {
    var i := 0;
    while i < a.Length
      invariant 0 <= i <= a.Length
      invariant AdjacentInOrder(cfg, a[..], i)
      invariant multiset(a[..]) == multiset(old(a[..]))
    {
      Insert(a, cfg, i);
      i := i + 1;
    }
  }

  /** What holds while `a[j]` travels left: both sides of it are in order,
      and it is in order with its right neighbour and, by transitivity,
      with the node before it once it moves. */
  predicate Inserting(cfg: SortConfig, s: seq<PNode>, j: nat, i: nat)
    requires j <= i < |s|
  {
    AdjacentInOrder(cfg, s, j)
    && (forall k :: j + 1 < k <= i ==> InOrder(cfg, s[k - 1], s[k]))
    && (j < i ==> InOrder(cfg, s[j], s[j + 1]))
    && (0 < j < i ==> InOrder(cfg, s[j - 1], s[j + 1]))
  }

  /** Swapping `a[j]` with a left neighbour that the comparator puts after
      it keeps the travelling invariant, one place further left. */
  lemma InsertStep(cfg: SortConfig, s: seq<PNode>, j: nat, i: nat)
    requires 0 < j <= i < |s| && Inserting(cfg, s, j, i)
    requires Compare(cfg, s[j - 1], s[j]) > 0
    ensures Inserting(cfg, Swapped(s, j - 1), j - 1, i)
  {
    CompareMeaning(cfg, s[j - 1], s[j]);
  }

  /** The travelling node has stopped: the prefix up to `i` is in order. */
  lemma InsertDone(cfg: SortConfig, s: seq<PNode>, j: nat, i: nat)
    requires j <= i < |s| && Inserting(cfg, s, j, i)
    requires j == 0 || Compare(cfg, s[j - 1], s[j]) <= 0
    ensures AdjacentInOrder(cfg, s, i + 1)
  {
  }

  /** One pass of the insertion sort: moves `a[i]` left past every neighbour
      the comparator puts after it, so that `a[..i + 1]` is in order. */
  method Insert(a: array<PNode>, cfg: SortConfig, i: nat)
    requires i < a.Length && AdjacentInOrder(cfg, a[..], i)
    modifies a
    ensures AdjacentInOrder(cfg, a[..], i + 1)
    ensures multiset(a[..]) == multiset(old(a[..]))
  {
    var j := i;
    while j > 0 && Compare(cfg, a[j - 1], a[j]) > 0
      invariant 0 <= j <= i
      invariant Inserting(cfg, a[..], j, i)
      invariant multiset(a[..]) == multiset(old(a[..]))
    {
      InsertStep(cfg, a[..], j, i);
      Swap(a, j - 1);
      j := j - 1;
    }
    InsertDone(cfg, a[..], j, i);
  }

  /** Exchanges `a[i]` and `a[i + 1]`. */
  method Swap(a: array<PNode>, i: nat)
    requires i + 1 < a.Length
    modifies a
    ensures a[..] == Swapped(old(a[..]), i)
  {
    a[i], a[i + 1] := a[i + 1], a[i];
  }

  // ---------------------------------------------------------------------------
  // With pairwise distinct keys the sorted order is unique, so 'desc' is
  // the reverse of 'asc'.

  predicate DistinctKeys(k: SortKey, s: seq<PNode>) {
    forall i, j :: 0 <= i < j < |s| ==> !SameKey(k, s[i], s[j])
  }

  function Reverse(s: seq<PNode>): (r: seq<PNode>)
    ensures |r| == |s|
    ensures forall i :: 0 <= i < |s| ==> r[i] == s[|s| - 1 - i]
  {
    if s == [] then [] else Reverse(s[1..]) + [s[0]]
  }

  lemma {:induction false} ReverseMultiset(s: seq<PNode>)
    ensures multiset(Reverse(s)) == multiset(s)
  {
    if s != [] {
      ReverseMultiset(s[1..]);
      assert s == [s[0]] + s[1..];
    }
  }

  /** Two sorted arrangements of the same nodes start with the same node
      when their keys are pairwise distinct. */
  lemma SameHead(cfg: SortConfig, s: seq<PNode>, t: seq<PNode>)
    requires multiset(s) == multiset(t) && |s| > 0 && |t| > 0
    requires Sorted(cfg, s) && Sorted(cfg, t)
    requires DistinctKeys(cfg.key, s)
    ensures s[0] == t[0]
  {
    assert t[0] in multiset(s);
    var i :| 0 <= i < |s| && s[i] == t[0];
    if i != 0 {
      assert s[0] in multiset(t);
      var j :| 0 <= j < |t| && t[j] == s[0];
      assert j != 0;
      assert InOrder(cfg, s[0], s[i]);
      assert InOrder(cfg, t[0], t[j]);
      CompareMeaning(cfg, s[0], s[i]);
    }
  }

  /** Dropping the first node keeps a sequence sorted and its keys distinct. */
  lemma TailSorted(cfg: SortConfig, s: seq<PNode>)
    requires |s| > 0 && Sorted(cfg, s)
    ensures Sorted(cfg, s[1..])
  {
    forall i, j | 0 <= i < j < |s| - 1 ensures InOrder(cfg, s[1..][i], s[1..][j]) {
      assert InOrder(cfg, s[i + 1], s[j + 1]);
    }
  }

  lemma TailDistinct(k: SortKey, s: seq<PNode>)
    requires |s| > 0 && DistinctKeys(k, s)
    ensures DistinctKeys(k, s[1..])
  {
    forall i, j | 0 <= i < j < |s| - 1 ensures !SameKey(k, s[1..][i], s[1..][j]) {
      assert !SameKey(k, s[i + 1], s[j + 1]);
    }
  }

  /** Removing equal heads from two sequences with the same elements leaves
      tails with the same elements. */
  lemma TailMultiset(s: seq<PNode>, t: seq<PNode>)
    requires multiset(s) == multiset(t) && |s| > 0 && |t| > 0 && s[0] == t[0]
    ensures multiset(s[1..]) == multiset(t[1..])
  {
    assert s == [s[0]] + s[1..] && t == [t[0]] + t[1..];
    assert multiset(s[1..]) == multiset(s) - multiset{s[0]};
    assert multiset(t[1..]) == multiset(t) - multiset{t[0]};
  }

  /** Two sorted arrangements of the same nodes with pairwise distinct keys
      are the same sequence. */
  lemma {:induction false} SortedUnique(cfg: SortConfig, s: seq<PNode>, t: seq<PNode>)
    requires multiset(s) == multiset(t)
    requires Sorted(cfg, s) && Sorted(cfg, t)
    requires DistinctKeys(cfg.key, s)
    ensures s == t
    decreases |s|
  {
    assert |s| == |multiset(s)| == |multiset(t)| == |t|;
    if s != [] {
      SameHead(cfg, s, t);
      TailMultiset(s, t);
      TailSorted(cfg, s);
      TailSorted(cfg, t);
      TailDistinct(cfg.key, s);
      SortedUnique(cfg, s[1..], t[1..]);
      assert s == [s[0]] + s[1..] && t == [t[0]] + t[1..];
    }
  }

  /** With pairwise distinct keys, the 'desc' order of some nodes is the
      reverse of their 'asc' order. */
  lemma DescIsReversedAsc(k: SortKey, asc: seq<PNode>, desc: seq<PNode>)
    requires multiset(asc) == multiset(desc)
    requires Sorted(SortConfig(k, Asc), asc) && Sorted(SortConfig(k, Desc), desc)
    requires DistinctKeys(k, asc)
    ensures desc == Reverse(asc)
  {
    var rev := Reverse(asc);
    ReverseMultiset(asc);
    forall i, j | 0 <= i < j < |rev|
      ensures InOrder(SortConfig(k, Desc), rev[i], rev[j])
    {
      assert InOrder(SortConfig(k, Asc), asc[|asc| - 1 - j], asc[|asc| - 1 - i]);
      CompareMeaning(SortConfig(k, Asc), asc[|asc| - 1 - j], asc[|asc| - 1 - i]);
      CompareMeaning(SortConfig(k, Desc), rev[i], rev[j]);
    }
    forall i, j | 0 <= i < j < |rev|
      ensures !SameKey(k, rev[i], rev[j])
    {
      assert !SameKey(k, asc[|asc| - 1 - j], asc[|asc| - 1 - i]);
    }
    SortedUnique(SortConfig(k, Desc), rev, desc);
  }
}
