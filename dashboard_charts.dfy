/** The two dashboard charts: the status pie with its three buckets and its
    centre label, and the 24 hourly labels of the latency chart. */
module DashboardCharts {
  import opened Types
  import opened Strings
  import opened NodeAggregates

  /** One slice of the status pie. */
  datatype Bucket = Bucket(name: string, value: nat)

  /** The pie's `data`: Active, Delinquent and Offline, in that order, each
      with the number of nodes whose status is exactly that one. Bootstrap
      has no bucket. */
  function StatusBuckets(nodes: seq<PNode>): (r: seq<Bucket>)
    ensures |r| == 3
    ensures r[0] == Bucket(StatusName(Active), CountStatus(nodes, Active))
    ensures r[1] == Bucket(StatusName(Delinquent), CountStatus(nodes, Delinquent))
    ensures r[2] == Bucket(StatusName(Offline), CountStatus(nodes, Offline))
  {
    [ Bucket("Active", CountStatus(nodes, Active)),
      Bucket("Delinquent", CountStatus(nodes, Delinquent)),
      Bucket("Offline", CountStatus(nodes, Offline)) ]
  }

  function BucketTotal(buckets: seq<Bucket>): nat {
    if buckets == [] then 0 else buckets[0].value + BucketTotal(buckets[1..])
  }

  lemma BucketTotalOfThree(b: seq<Bucket>)
    requires |b| == 3
    ensures BucketTotal(b) == b[0].value + b[1].value + b[2].value
  {
    assert b[1..][1..] == b[2..] && b[2..][1..] == [];
    assert BucketTotal(b[2..]) == b[2].value;
    assert BucketTotal(b[1..]) == b[1].value + BucketTotal(b[2..]);
  }

  /** The buckets account for every node except the Bootstrap ones, so
      their sum reaches the node count exactly when no node is Bootstrap. */
  lemma BucketsCoverAllButBootstrap(nodes: seq<PNode>)
    ensures BucketTotal(StatusBuckets(nodes)) + CountStatus(nodes, Bootstrap) == |nodes|
    ensures BucketTotal(StatusBuckets(nodes)) <= |nodes|
    ensures BucketTotal(StatusBuckets(nodes)) == |nodes|
            <==> forall i :: 0 <= i < |nodes| ==> nodes[i].status != Bootstrap
  {
    BucketTotalOfThree(StatusBuckets(nodes));
    ActivePlusNotActive(nodes);
    NotActiveIsOtherStatuses(nodes);
    CountStatusPositive(nodes, Bootstrap);
  }

  /** The number in the middle of the pie: `nodes.length`, never less than
      what the slices add up to. */
  function CenterLabel(nodes: seq<PNode>): (r: nat)
    ensures r == |nodes|
    ensures r >= BucketTotal(StatusBuckets(nodes))
  {
    BucketsCoverAllButBootstrap(nodes);
    |nodes|
  }

  /** `time: `${i}:00`` for the 24 points of the latency chart. */
  function LatencyChartLabels(): (r: seq<string>)
    ensures |r| == 24
    ensures forall i :: 0 <= i < 24 ==> r[i] == NatToString(i) + ":00"
  {
    seq(24, i requires 0 <= i < 24 => NatToString(i) + ":00")
  }

  /** The 24 labels are pairwise different. */
  lemma LatencyChartLabelsDistinct(i: nat, j: nat)
    requires i < 24 && j < 24 && LatencyChartLabels()[i] == LatencyChartLabels()[j]
    ensures i == j
  {
    var a, b := NatToString(i), NatToString(j);
    assert a + ":00" == b + ":00";
    assert |a| == |b|;
    assert a == (a + ":00")[..|a|];
    assert b == (b + ":00")[..|b|];
    NatToStringInjective(i, j);
  }
}
