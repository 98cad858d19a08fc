/** The offline insight cards of the AI command sidebar, computed from the
    node list without any request: an optional network alert, exactly one
    latency card, and the capacity card. */
module AICommandSidebar {
  import opened Types
  import opened NodeAggregates

  /** One card, with the number its text reports. */
  datatype Insight =
    | NetworkAlert(notActive: nat)
    | Performance(avgLatency: real)
    | LatencyWarning(avgLatency: real)
    | Capacity(totalStorage: real)

  predicate IsLatencyCard(c: Insight) {
    c.Performance? || c.LatencyWarning?
  }

  /** The `insights` memo: no cards for an empty list; otherwise a 'Network
      Alert' first when some node is not Active, then 'Performance' when the
      mean latency is under 100 ms or 'Latency Warning' when it is not, and
      'Capacity' last. */
  method Insights(nodes: seq<PNode>) returns (list: seq<Insight>)
    ensures |nodes| == 0 ==> list == []
    ensures |nodes| > 0 ==> (|list| == 3 <==> CountNotActive(nodes) > 0)
    ensures |nodes| > 0 ==> (|list| == 2 <==> CountNotActive(nodes) == 0)
    ensures |nodes| > 0 ==> (list[0].NetworkAlert? <==> CountNotActive(nodes) > 0)
    ensures forall i :: 0 <= i < |list| && list[i].NetworkAlert? ==>
              i == 0 && list[i].notActive == CountNotActive(nodes)
    ensures forall i :: 0 <= i < |list| ==> (IsLatencyCard(list[i]) <==> i == |list| - 2)
    ensures forall i :: 0 <= i < |list| ==> (list[i].Capacity? <==> i == |list| - 1)
    ensures |nodes| > 0 ==>
              list[|list| - 2] == if MeanLatency(nodes) < 100.0
                                  then Performance(MeanLatency(nodes))
                                  else LatencyWarning(MeanLatency(nodes))
    ensures |nodes| > 0 ==> list[|list| - 1] == Capacity(StorageSum(nodes))
  {
    if |nodes| == 0 {
      return [];
    }
    var offline := CountNotActive(nodes);
    var avgLat := LatencySum(nodes) as real / |nodes| as real;
    var totalStorage := StorageSum(nodes);
    list := [];
    if offline > 0 {
      list := list + [NetworkAlert(offline)];
    }
    if avgLat < 100.0 {
      list := list + [Performance(avgLat)];
    } else {
      list := list + [LatencyWarning(avgLat)];
    }
    list := list + [Capacity(totalStorage)];
  }

  /** The alert is shown exactly when some node's status is Delinquent,
      Offline or Bootstrap, and it counts all three. */
  lemma AlertMeansNotAllActive(nodes: seq<PNode>)
    ensures CountNotActive(nodes) > 0 <==>
              exists i :: 0 <= i < |nodes| && nodes[i].status in {Delinquent, Offline, Bootstrap}
    ensures CountNotActive(nodes)
              == CountStatus(nodes, Delinquent) + CountStatus(nodes, Offline) + CountStatus(nodes, Bootstrap)
  {
    CountNotActivePositive(nodes);
    NotActiveIsOtherStatuses(nodes);
  }

  /** 'Performance' is shown exactly when the latencies add up to less than
      100 ms per node. */
  lemma PerformanceMeansLowSum(nodes: seq<PNode>)
    requires |nodes| > 0
    ensures MeanLatency(nodes) < 100.0 <==> LatencySum(nodes) < 100 * |nodes|
  {
    MeanBelow(nodes, 100.0);
  }
}
