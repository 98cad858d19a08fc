/** The network map: nodes are counted per location, and each location of
    the fixed coordinate table that has nodes gets a marker whose two
    circles grow with the count. */
module GeographicalMap {
  import opened Types

  /** Longitude and latitude. */
  type Coords = (real, real)

  /** `LOCATION_COORDS`, in declaration order. */
  function LocationCoords(): (r: seq<(string, Coords)>)
    ensures |r| == 6
  {
    [ ("US-East", (-74.006, 40.7128)),
      ("EU-Central", (13.405, 52.52)),
      ("Asia-SE", (103.8198, 1.3521)),
      ("US-West", (-122.4194, 37.7749)),
      ("EU-West", (-0.1278, 51.5074)),
      ("SA-East", (-46.6333, -23.5505)) ]
  }

  function TableNames(table: seq<(string, Coords)>): (r: seq<string>)
    ensures |r| == |table| && forall i :: 0 <= i < |table| ==> r[i] == table[i].0
  {
    seq(|table|, i requires 0 <= i < |table| => table[i].0)
  }

  predicate Distinct(names: seq<string>) {
    forall i, j :: 0 <= i < j < |names| ==> names[i] != names[j]
  }

  lemma LocationNamesDistinct()
    ensures Distinct(TableNames(LocationCoords()))
  {
    assert TableNames(LocationCoords()) == ["US-East", "EU-Central", "Asia-SE", "US-West", "EU-West", "SA-East"];
  }

  // ---------------------------------------------------------------------------
  // Counting

  /** `if (node.location)` and the location is `name`: a node without a
      location, or with an empty one, is never counted. */
  predicate CountedAt(n: PNode, name: string) {
    n.location.Some? && n.location.value != "" && n.location.value == name
  }

  /** How many nodes are counted at `name`. */
  function LocationCount(nodes: seq<PNode>, name: string): (r: nat)
    ensures r <= |nodes|
    ensures name == "" ==> r == 0
  {
    if nodes == [] then 0
    else LocationCount(nodes[..|nodes| - 1], name) + (if CountedAt(nodes[|nodes| - 1], name) then 1 else 0)
  }

  /** `counts[name] || 0`. */
  function CountOr0(counts: map<string, nat>, name: string): nat {
    if name in counts then counts[name] else 0
  }

  /** The `counts` record after the `forEach` has visited `nodes`. */
  function CountsMap(nodes: seq<PNode>): map<string, nat> {
    if nodes == [] then map[]
    else
      var before := CountsMap(nodes[..|nodes| - 1]);
      var n := nodes[|nodes| - 1];
      if n.location.Some? && n.location.value != "" then
        before[n.location.value := CountOr0(before, n.location.value) + 1]
      else before
  }

  /** The record holds exactly the locations that have nodes, each with its
      number of nodes. */
  lemma {:induction false} CountsMapMeaning(nodes: seq<PNode>, name: string)
    ensures CountOr0(CountsMap(nodes), name) == LocationCount(nodes, name)
    ensures name in CountsMap(nodes) <==> LocationCount(nodes, name) > 0
  {
    if nodes != [] {
      CountsMapMeaning(nodes[..|nodes| - 1], name);
    }
  }

  /** The `forEach` over the nodes that fills `counts` in place. */
  method CountLocations(nodes: seq<PNode>) returns (counts: map<string, nat>)
    ensures counts == CountsMap(nodes)
  {
    counts := map[];
    var i := 0;
    while i < |nodes|
      invariant 0 <= i <= |nodes|
      invariant counts == CountsMap(nodes[..i])
    {
      assert nodes[..i + 1][..i] == nodes[..i];
      var n := nodes[i];
      if n.location.Some? && n.location.value != "" {
        var loc := n.location.value;
        counts := counts[loc := (if loc in counts then counts[loc] else 0) + 1];
      }
      i := i + 1;
    }
    assert nodes[..|nodes|] == nodes;
  }

  // ---------------------------------------------------------------------------
  // Markers

  datatype Marker = Marker(name: string, coordinates: Coords, count: nat)

  /** `Object.entries(table).map(...).filter(m => m.count > 0)`: one marker
      per table entry with a positive count, in table order. */
  function MarkersFrom(table: seq<(string, Coords)>, counts: map<string, nat>): (r: seq<Marker>)
    ensures |r| <= |table|
    ensures forall i :: 0 <= i < |r| ==> r[i].count > 0 && r[i].count == CountOr0(counts, r[i].name)
  {
    if table == [] then []
    else
      var (name, coords) := table[0];
      var c := CountOr0(counts, name);
      (if c > 0 then [Marker(name, coords, c)] else []) + MarkersFrom(table[1..], counts)
  }

  /** The `markers` memo: counts the nodes, then projects the table. Every
      marker counts exactly the nodes at its location, never zero of them,
      and names a location of the table, so there are at most six. */
  method Markers(nodes: seq<PNode>) returns (markers: seq<Marker>)
    ensures markers == MarkersFrom(LocationCoords(), CountsMap(nodes))
    ensures |markers| <= 6
    ensures forall i :: 0 <= i < |markers| ==>
              markers[i].count > 0 && markers[i].count == LocationCount(nodes, markers[i].name)
              && (markers[i].name, markers[i].coordinates) in LocationCoords()
  {
    var counts := CountLocations(nodes);
    markers := MarkersFrom(LocationCoords(), counts);
    var idx := MarkersInTableOrder(LocationCoords(), counts);
    forall i | 0 <= i < |markers|
      ensures markers[i].count == LocationCount(nodes, markers[i].name)
      ensures (markers[i].name, markers[i].coordinates) in LocationCoords()
    {
      CountsMapMeaning(nodes, markers[i].name);
      assert LocationCoords()[idx[i]] == (markers[i].name, markers[i].coordinates);
    }
  }

  /** The marker an entry of the table gives when its count is positive. */
  function EntryMarker(entry: (string, Coords), counts: map<string, nat>): Marker {
    Marker(entry.0, entry.1, CountOr0(counts, entry.0))
  }

  lemma MarkersFromUnfold(table: seq<(string, Coords)>, counts: map<string, nat>)
    requires table != []
    ensures CountOr0(counts, table[0].0) > 0 ==>
              MarkersFrom(table, counts) == [EntryMarker(table[0], counts)] + MarkersFrom(table[1..], counts)
    ensures CountOr0(counts, table[0].0) == 0 ==>
              MarkersFrom(table, counts) == MarkersFrom(table[1..], counts)
  {
  }

  /** The markers follow the table's order: `idx` maps each marker to the
      entry it comes from, and grows strictly. */
  lemma {:induction false} MarkersInTableOrder(table: seq<(string, Coords)>, counts: map<string, nat>)
    returns (idx: seq<nat>)
    ensures |idx| == |MarkersFrom(table, counts)|
    ensures forall k :: 0 <= k < |idx| ==>
              idx[k] < |table| && MarkersFrom(table, counts)[k] == EntryMarker(table[idx[k]], counts)
    ensures forall k, l :: 0 <= k < l < |idx| ==> idx[k] < idx[l]
  {
    if table == [] {
      idx := [];
    } else {
      var rest := MarkersInTableOrder(table[1..], counts);
      var shifted := ShiftPastHead(table, counts, rest);
      MarkersFromUnfold(table, counts);
      if CountOr0(counts, table[0].0) > 0 {
        idx := [0] + shifted;
        var r, tail := MarkersFrom(table, counts), MarkersFrom(table[1..], counts);
        forall k | 1 <= k < |idx|
          ensures r[k] == EntryMarker(table[idx[k]], counts)
        {
          assert r[k] == tail[k - 1] && idx[k] == shifted[k - 1];
        }
      } else {
        idx := shifted;
      }
    }
  }

  /** Indices into `table[1..]` become indices into `table` one further on. */
  lemma ShiftPastHead(table: seq<(string, Coords)>, counts: map<string, nat>, rest: seq<nat>)
    returns (shifted: seq<nat>)
    requires table != []
    requires |rest| == |MarkersFrom(table[1..], counts)|
    requires forall k :: 0 <= k < |rest| ==>
               rest[k] < |table| - 1 && MarkersFrom(table[1..], counts)[k] == EntryMarker(table[1..][rest[k]], counts)
    requires forall k, l :: 0 <= k < l < |rest| ==> rest[k] < rest[l]
    ensures |shifted| == |rest|
    ensures forall k :: 0 <= k < |shifted| ==>
              1 <= shifted[k] < |table| && MarkersFrom(table[1..], counts)[k] == EntryMarker(table[shifted[k]], counts)
    ensures forall k, l :: 0 <= k < l < |shifted| ==> shifted[k] < shifted[l]
  {
    shifted := seq(|rest|, k requires 0 <= k < |rest| => rest[k] + 1);
    forall k | 0 <= k < |shifted|
      ensures table[1..][rest[k]] == table[shifted[k]]
    {
    }
  }

  /** Every entry of the table with a positive count has its marker. */
  lemma {:induction false} MarkersComplete(table: seq<(string, Coords)>, counts: map<string, nat>, j: nat)
    requires j < |table| && CountOr0(counts, table[j].0) > 0
    ensures EntryMarker(table[j], counts) in MarkersFrom(table, counts)
  {
    MarkersFromUnfold(table, counts);
    if j > 0 {
      assert table[1..][j - 1] == table[j];
      MarkersComplete(table[1..], counts, j - 1);
    }
  }

  // ---------------------------------------------------------------------------
  // The markers never count more nodes than there are

  function MarkerTotal(ms: seq<Marker>): nat {
    if ms == [] then 0 else ms[0].count + MarkerTotal(ms[1..])
  }

  /** The nodes counted at any of `names`, name by name. */
  function NamesTotal(names: seq<string>, nodes: seq<PNode>): nat {
    if names == [] then 0 else LocationCount(nodes, names[0]) + NamesTotal(names[1..], nodes)
  }

  /** How many of `names` a single node is counted at. */
  function Hits(names: seq<string>, n: PNode): nat {
    if names == [] then 0 else (if CountedAt(n, names[0]) then 1 else 0) + Hits(names[1..], n)
  }

  lemma {:induction false} HitsAtMostOne(names: seq<string>, n: PNode)
    requires Distinct(names)
    ensures Hits(names, n) <= 1
  {
    if names != [] {
      assert Distinct(names[1..]) by {
        forall i, j | 0 <= i < j < |names| - 1 ensures names[1..][i] != names[1..][j] {
          assert names[i + 1] != names[j + 1];
        }
      }
      HitsAtMostOne(names[1..], n);
      if CountedAt(n, names[0]) {
        NoOtherHit(names, n);
      }
    }
  }

  /** A node counted at the first of distinct names is counted at no other. */
  lemma {:induction false} NoOtherHit(names: seq<string>, n: PNode)
    requires |names| > 0 && Distinct(names) && CountedAt(n, names[0])
    ensures Hits(names[1..], n) == 0
    decreases |names|
  {
    if |names| > 1 {
      var shorter := [names[0]] + names[2..];
      assert names[1..][1..] == shorter[1..];
      assert Distinct(shorter) by {
        forall i, j | 0 <= i < j < |shorter| ensures shorter[i] != shorter[j] {
          if i == 0 { assert shorter[j] == names[j + 1]; }
          else { assert shorter[i] == names[i + 1] && shorter[j] == names[j + 1]; }
        }
      }
      NoOtherHit(shorter, n);
      assert names[1] != names[0];
    }
  }

  /** Adding one node adds its hits to the total. */
  lemma {:induction false} NamesTotalStep(names: seq<string>, nodes: seq<PNode>)
    requires |nodes| > 0
    ensures NamesTotal(names, nodes)
            == NamesTotal(names, nodes[..|nodes| - 1]) + Hits(names, nodes[|nodes| - 1])
  {
    if names != [] {
      NamesTotalStep(names[1..], nodes);
    }
  }

  /** Distinct locations never count more nodes than there are. */
  lemma {:induction false} NamesTotalBound(names: seq<string>, nodes: seq<PNode>)
    requires Distinct(names)
    ensures NamesTotal(names, nodes) <= |nodes|
  {
    if nodes == [] {
      NamesTotalEmpty(names);
    } else {
      NamesTotalBound(names, nodes[..|nodes| - 1]);
      NamesTotalStep(names, nodes);
      HitsAtMostOne(names, nodes[|nodes| - 1]);
    }
  }

  lemma {:induction false} NamesTotalEmpty(names: seq<string>)
    ensures NamesTotal(names, []) == 0
  {
    if names != [] {
      NamesTotalEmpty(names[1..]);
    }
  }

  lemma MarkerTotalCons(m: Marker, ms: seq<Marker>)
    ensures MarkerTotal([m] + ms) == m.count + MarkerTotal(ms)
  {
    assert ([m] + ms)[1..] == ms;
  }

  /** The markers add up to the nodes counted at the table's locations:
      dropping the zero counts loses nothing. */
  lemma {:induction false} MarkerTotalIsNamesTotal(
    table: seq<(string, Coords)>, counts: map<string, nat>, nodes: seq<PNode>)
    requires forall k :: 0 <= k < |table| ==> CountOr0(counts, table[k].0) == LocationCount(nodes, table[k].0)
    ensures MarkerTotal(MarkersFrom(table, counts)) == NamesTotal(TableNames(table), nodes)
  {
    if table != [] {
      assert forall k :: 0 <= k < |table| - 1 ==> table[1..][k] == table[k + 1];
      MarkerTotalIsNamesTotal(table[1..], counts, nodes);
      assert TableNames(table)[1..] == TableNames(table[1..]);
      MarkersFromUnfold(table, counts);
      if CountOr0(counts, table[0].0) > 0 {
        MarkerTotalCons(EntryMarker(table[0], counts), MarkersFrom(table[1..], counts));
      }
    }
  }

  /** Nodes at locations outside the table get no marker, so the markers
      count at most all the nodes. */
  lemma MarkersCountAtMostAllNodes(nodes: seq<PNode>)
    ensures MarkerTotal(MarkersFrom(LocationCoords(), CountsMap(nodes))) <= |nodes|
  {
    forall k | 0 <= k < |LocationCoords()|
      ensures CountOr0(CountsMap(nodes), LocationCoords()[k].0) == LocationCount(nodes, LocationCoords()[k].0)
    {
      CountsMapMeaning(nodes, LocationCoords()[k].0);
    }
    MarkerTotalIsNamesTotal(LocationCoords(), CountsMap(nodes), nodes);
    LocationNamesDistinct();
    NamesTotalBound(TableNames(LocationCoords()), nodes);
  }

  // ---------------------------------------------------------------------------
  // Marker circles

  /** `4 + Math.min(count * 0.5, 10)`: the outer, pulsing circle. */
  function OuterRadius(count: nat): (r: real)
    ensures 4.0 <= r <= 14.0
    ensures count >= 1 ==> r >= 4.5
  {
    var grow := count as real * 0.5;
    4.0 + (if grow < 10.0 then grow else 10.0)
  }

  /** `2 + Math.min(count * 0.3, 6)`: the inner, solid circle. */
  function InnerRadius(count: nat): (r: real)
    ensures 2.0 <= r <= 8.0
  {
    var grow := count as real * 0.3;
    2.0 + (if grow < 6.0 then grow else 6.0)
  }

  /** The solid circle always sits inside the pulsing one, with a margin of
      at least 2, and neither shrinks as the count grows. */
  lemma CirclesNested(count: nat, more: nat)
    requires count <= more
    ensures InnerRadius(count) + 2.0 <= OuterRadius(count)
    ensures OuterRadius(count) <= OuterRadius(more) && InnerRadius(count) <= InnerRadius(more)
  {
  }
}
