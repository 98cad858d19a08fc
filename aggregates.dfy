/** The `filter(...).length` counts and `reduce` sums over the node list that
    the stat cards, the insight cards, the status chart and the report digest
    all compute. Each sum adds the nodes left to right, as `reduce` does. */
module NodeAggregates {
  import opened Types

  /** `nodes.filter(n => n.status === s).length` */
  function CountStatus(nodes: seq<PNode>, s: NodeStatus): (r: nat)
    ensures r <= |nodes|
  {
    if nodes == [] then 0
    else CountStatus(nodes[..|nodes| - 1], s) + (if nodes[|nodes| - 1].status == s then 1 else 0)
  }

  /** `nodes.filter(n => n.status !== 'Active').length` */
  function CountNotActive(nodes: seq<PNode>): (r: nat)
    ensures r <= |nodes|
  {
    if nodes == [] then 0
    else CountNotActive(nodes[..|nodes| - 1]) + (if nodes[|nodes| - 1].status != Active then 1 else 0)
  }

  /** Every node is either Active or counted as not active. */
  lemma {:induction false} ActivePlusNotActive(nodes: seq<PNode>)
    ensures CountStatus(nodes, Active) + CountNotActive(nodes) == |nodes|
  {
    if nodes != [] {
      ActivePlusNotActive(nodes[..|nodes| - 1]);
    }
  }

  /** The nodes that are not Active are exactly the Delinquent, Offline and
      Bootstrap ones. */
  lemma {:induction false} NotActiveIsOtherStatuses(nodes: seq<PNode>)
    ensures CountNotActive(nodes)
         == CountStatus(nodes, Delinquent) + CountStatus(nodes, Offline) + CountStatus(nodes, Bootstrap)
  {
    if nodes != [] {
      NotActiveIsOtherStatuses(nodes[..|nodes| - 1]);
    }
  }

  /** A status occurs in the list exactly when its count is positive. */
  lemma {:induction false} CountStatusPositive(nodes: seq<PNode>, s: NodeStatus)
    ensures CountStatus(nodes, s) > 0 <==> exists i :: 0 <= i < |nodes| && nodes[i].status == s
  {
    if nodes != [] {
      var init := nodes[..|nodes| - 1];
      CountStatusPositive(init, s);
      if exists i :: 0 <= i < |init| && init[i].status == s {
        var i :| 0 <= i < |init| && init[i].status == s;
        assert nodes[i].status == s;
      }
      if exists i :: 0 <= i < |nodes| && nodes[i].status == s {
        var i :| 0 <= i < |nodes| && nodes[i].status == s;
        if i < |init| {
          assert init[i].status == s;
        }
      }
    }
  }

  /** Some node is counted as not active exactly when some node's status is
      other than Active. */
  lemma {:induction false} CountNotActivePositive(nodes: seq<PNode>)
    ensures CountNotActive(nodes) > 0 <==> exists i :: 0 <= i < |nodes| && nodes[i].status != Active
  {
    if nodes != [] {
      var init := nodes[..|nodes| - 1];
      CountNotActivePositive(init);
      if exists i :: 0 <= i < |init| && init[i].status != Active {
        var i :| 0 <= i < |init| && init[i].status != Active;
        assert nodes[i].status != Active;
      }
      if exists i :: 0 <= i < |nodes| && nodes[i].status != Active {
        var i :| 0 <= i < |nodes| && nodes[i].status != Active;
        if i < |init| {
          assert init[i].status != Active;
        }
      }
    }
  }

  /** `nodes.reduce((acc, n) => acc + n.latency, 0)` */
  function LatencySum(nodes: seq<PNode>): (r: nat)
  {
    if nodes == [] then 0 else LatencySum(nodes[..|nodes| - 1]) + nodes[|nodes| - 1].latency
  }

  /** `n.diskSpace || 0`: an absent capacity counts as zero. */
  function DiskOrZero(n: PNode): real {
    match n.diskSpace
    case Some(d) => d
    case None => 0.0
  }

  /** `nodes.reduce((acc, n) => acc + (n.diskSpace || 0), 0)` */
  function StorageSum(nodes: seq<PNode>): real
  {
    if nodes == [] then 0.0 else StorageSum(nodes[..|nodes| - 1]) + DiskOrZero(nodes[|nodes| - 1])
  }

  /** When every capacity, a missing one counted as 0, is non-negative, the
      total is at least each single one: no node's storage is lost in it. */
  lemma {:induction false} StorageSumBounds(nodes: seq<PNode>, i: nat)
    requires forall k :: 0 <= k < |nodes| ==> DiskOrZero(nodes[k]) >= 0.0
    requires i < |nodes|
    ensures 0.0 <= DiskOrZero(nodes[i]) <= StorageSum(nodes)
  {
    var init := nodes[..|nodes| - 1];
    if i < |init| {
      StorageSumBounds(init, i);
    } else {
      StorageSumNonNegative(init);
    }
  }

  lemma {:induction false} StorageSumNonNegative(nodes: seq<PNode>)
    requires forall k :: 0 <= k < |nodes| ==> DiskOrZero(nodes[k]) >= 0.0
    ensures StorageSum(nodes) >= 0.0
  {
    if nodes != [] {
      StorageSumNonNegative(nodes[..|nodes| - 1]);
    }
  }

  /** `sum / (nodes.length || 1)`: the mean latency, zero for an empty list. */
  function MeanLatency(nodes: seq<PNode>): (r: real)
    ensures |nodes| == 0 ==> r == 0.0
    ensures |nodes| > 0 ==> r * |nodes| as real == LatencySum(nodes) as real
    ensures r >= 0.0
  {
    LatencySum(nodes) as real / (if |nodes| == 0 then 1 else |nodes|) as real
  }

  /** The mean times the node count gives back the latency sum, the empty
      list included. */
  lemma MeanTimesCount(nodes: seq<PNode>)
    ensures MeanLatency(nodes) * (|nodes| as real) == LatencySum(nodes) as real
  {
    if |nodes| == 0 {
      assert LatencySum(nodes) == 0;
    }
  }

  /** Scaling by a positive factor keeps the order of two reals: if `m * n`
      is `p`, then `m < b` exactly when `p < b * n`. */
  lemma ScalePreservesLess(m: real, b: real, n: real, p: real)
    requires n > 0.0 && m * n == p
    ensures m < b <==> p < b * n
  {
    assert b * n - p == (b - m) * n;
    if m < b {
      assert (b - m) * n > 0.0;
    } else {
      assert (m - b) * n >= 0.0;
    }
  }

  /** The mean is below a bound exactly when the sum is below bound times
      count, so comparing the mean needs no division. */
  lemma MeanBelow(nodes: seq<PNode>, bound: real)
    requires |nodes| > 0
    ensures MeanLatency(nodes) < bound <==> (LatencySum(nodes) as real) < bound * (|nodes| as real)
  {
    ScalePreservesLess(MeanLatency(nodes), bound, |nodes| as real, LatencySum(nodes) as real);
  }
}
