/** The node registry table: its sort-column toggle, the case-insensitive
    search over pubkey, version and location, the filtered-then-sorted rows,
    and the colour bands, bar widths, status badge and host label each row
    shows. */
module NodeTable {
  import opened Types
  import opened Strings
  import opened NodeSort

  // ---------------------------------------------------------------------------
  // Search

  /** The filter callback for an already lower-cased term: the term occurs in
      the lower-cased pubkey, or in a present, non-empty version or location. */
  predicate Matches(n: PNode, lowerTerm: string) {
    Includes(ToLower(n.identityPubkey), lowerTerm)
    || (n.version.Some? && n.version.value != "" && Includes(ToLower(n.version.value), lowerTerm))
    || (n.location.Some? && n.location.value != "" && Includes(ToLower(n.location.value), lowerTerm))
  }

  /** `result.filter(n => ...)`: the matching nodes, each as often as it occurs
      in the input, and no other. */
  function FilterByTerm(nodes: seq<PNode>, lowerTerm: string): (r: seq<PNode>)
    ensures |r| <= |nodes|
    ensures forall x :: x in r ==> Matches(x, lowerTerm)
    ensures forall x :: multiset(r)[x] == if Matches(x, lowerTerm) then multiset(nodes)[x] else 0
  {
    if nodes == [] then []
    else
      assert nodes == [nodes[0]] + nodes[1..];
      (if Matches(nodes[0], lowerTerm) then [nodes[0]] else []) + FilterByTerm(nodes[1..], lowerTerm)
  }

  /** Whether a node survives the search box: `if (searchTerm)` skips the
      filter for the empty term only; any other term is lower-cased first. */
  predicate Keep(n: PNode, searchTerm: string) {
    searchTerm == "" || Matches(n, ToLower(searchTerm))
  }

  /** The rows before sorting. An empty term keeps the list as it is. */
  function Filtered(nodes: seq<PNode>, searchTerm: string): (r: seq<PNode>)
    ensures searchTerm == "" ==> r == nodes
    ensures forall x :: multiset(r)[x] == if Keep(x, searchTerm) then multiset(nodes)[x] else 0
  {
    if searchTerm == "" then nodes else FilterByTerm(nodes, ToLower(searchTerm))
  }

  /** `filteredAndSortedNodes`: copies the list, filters the copy by the
      search term and sorts it in place with the table's comparator. The
      rows are exactly the kept nodes, sorted non-decreasingly by the
      chosen column for 'asc' and non-increasingly for 'desc'. The input is
      a value and stays as it was. */
  method FilteredAndSortedNodes(nodes: seq<PNode>, searchTerm: string, cfg: SortConfig)
    returns (result: seq<PNode>)
    ensures forall x :: multiset(result)[x] == if Keep(x, searchTerm) then multiset(nodes)[x] else 0
    ensures Sorted(cfg, result)
    ensures cfg.direction == Asc ==> NonDecreasing(cfg.key, result)
    ensures cfg.direction == Desc ==> NonIncreasing(cfg.key, result)
  {
    var kept := Filtered(nodes, searchTerm);
    var a := new PNode[|kept|](i requires 0 <= i < |kept| => kept[i]);
    assert a[..] == kept;
    SortInPlace(a, cfg);
    result := a[..];
    assert AdjacentInOrder(cfg, result, |result|);
    AdjacentInOrderIsSorted(cfg, result);
    SortedMeaning(cfg, result);
  }

  /** Typing more characters into the search box never brings a node back:
      a node kept for a term that contains `term` is kept for `term`. */
  lemma NarrowingSearch(n: PNode, term: string, longer: string)
    requires Includes(longer, term)
    requires Keep(n, longer)
    ensures Keep(n, term)
  {
    if term != "" {
      assert longer != "";
      var lt, ll := ToLower(term), ToLower(longer);
      IncludesToLower(longer, term);
      if Includes(ToLower(n.identityPubkey), ll) {
        IncludesTransitive(ToLower(n.identityPubkey), ll, lt);
      } else if n.version.Some? && n.version.value != "" && Includes(ToLower(n.version.value), ll) {
        IncludesTransitive(ToLower(n.version.value), ll, lt);
      } else {
        IncludesTransitive(ToLower(n.location.value), ll, lt);
      }
    }
  }

  /** The search is case-insensitive: terms that differ only in the case of
      their letters keep the same nodes. */
  lemma SearchIgnoresCase(n: PNode, term: string, other: string)
    requires term != "" && other != "" && ToLower(term) == ToLower(other)
    ensures Keep(n, term) <==> Keep(n, other)
  {
  }

  // ---------------------------------------------------------------------------
  // Sort-column toggle

  /** `handleSort(key)`: the clicked column becomes the sort key; the
      direction becomes 'desc' exactly when that column was already sorted
      'asc', and 'asc' otherwise. */
  function NextSortConfig(current: SortConfig, key: SortKey): (r: SortConfig)
    ensures r.key == key
    ensures r.direction == Desc <==> current.key == key && current.direction == Asc
  {
    SortConfig(key, if current.key == key && current.direction == Asc then Desc else Asc)
  }

  /** Clicking the same column again always flips the direction, and
      clicking a new column always starts ascending. */
  lemma RepeatedClickAlternates(current: SortConfig, key: SortKey)
    ensures NextSortConfig(NextSortConfig(current, key), key).direction
            != NextSortConfig(current, key).direction
    ensures current.key != key ==> NextSortConfig(current, key).direction == Asc
  {
  }

  /** The component state the table keeps between renders. */
  class NodeTableView {
    var searchTerm: string
    var sortConfig: SortConfig

    /** `useState('')` and `useState({ key: 'latency', direction: 'asc' })`. */
    constructor ()
      ensures searchTerm == "" && sortConfig == SortConfig(Latency, Asc)
    {
      searchTerm := "";
      sortConfig := SortConfig(Latency, Asc);
    }

    /** A click on a column header. */
    method HandleSort(key: SortKey)
      modifies this
      ensures sortConfig == NextSortConfig(old(sortConfig), key)
      ensures searchTerm == old(searchTerm)
    {
      sortConfig := NextSortConfig(sortConfig, key);
    }

    /** The search box's `onChange`: the raw text, untrimmed. */
    method SetSearchTerm(text: string)
      modifies this
      ensures searchTerm == text && sortConfig == old(sortConfig)
    {
      searchTerm := text;
    }

    /** The rows the table renders for `nodes` in the current state. */
    method Rows(nodes: seq<PNode>) returns (rows: seq<PNode>)
      ensures forall x :: multiset(rows)[x] == if Keep(x, searchTerm) then multiset(nodes)[x] else 0
      ensures Sorted(sortConfig, rows)
    {
      rows := FilteredAndSortedNodes(nodes, searchTerm, sortConfig);
    }
  }

  // ---------------------------------------------------------------------------
  // Row display

  /** The three colour classes of the bands: emerald, yellow and rose. */
  datatype Tone = Emerald | Yellow | Rose

  /** How bad a tone is: emerald best, rose worst. */
  function Severity(t: Tone): nat {
    match t
    case Emerald => 0
    case Yellow => 1
    case Rose => 2
  }

  /** The latency text colour: emerald below 60 ms, yellow below 150 ms, rose
      from 150 ms on. */
  function LatencyTone(latency: nat): (t: Tone)
    ensures t == Emerald <==> latency < 60
    ensures t == Rose <==> latency >= 150
  {
    if latency < 60 then Emerald else if latency < 150 then Yellow else Rose
  }

  /** A slower node never gets a better colour. */
  lemma LatencyToneMonotone(a: nat, b: nat)
    requires a <= b
    ensures Severity(LatencyTone(a)) <= Severity(LatencyTone(b))
  {
  }

  /** `Math.min(100, (latency / 300) * 100)`: the latency bar's width in
      percent, full from 300 ms on and proportional below. */
  function LatencyBarWidth(latency: nat): (w: real)
    ensures 0.0 <= w <= 100.0
    ensures w == 100.0 <==> latency >= 300
    ensures latency < 300 ==> w * 3.0 == latency as real
  {
    var scaled := (latency as real / 300.0) * 100.0;
    if scaled < 100.0 then scaled else 100.0
  }

  /** A slower node never gets a shorter bar. */
  lemma LatencyBarMonotone(a: nat, b: nat)
    requires a <= b
    ensures LatencyBarWidth(a) <= LatencyBarWidth(b)
  {
  }

  /** The uptime bar's colour: `node.uptime && node.uptime > 95` gives emerald,
      `node.uptime && node.uptime > 80` yellow, and everything else, a missing
      uptime included, rose. */
  function UptimeTone(uptime: Option<real>): (t: Tone)
    ensures t == Emerald <==> uptime.Some? && uptime.value > 95.0
    ensures t == Rose <==> uptime.None? || uptime.value <= 80.0
  {
    match uptime
    case None => Rose
    case Some(u) =>
      if u != 0.0 && u > 95.0 then Emerald
      else if u != 0.0 && u > 80.0 then Yellow
      else Rose
  }

  /** A node with more uptime never gets a worse colour, and no uptime at all
      is as bad as it gets. */
  lemma UptimeToneAntitone(a: real, b: real)
    requires a <= b
    ensures Severity(UptimeTone(Some(b))) <= Severity(UptimeTone(Some(a)))
    ensures Severity(UptimeTone(Some(a))) <= Severity(UptimeTone(None))
  {
  }

  /** `${node.uptime || 0}%`: the uptime itself, or 0 when it is missing. */
  function UptimeBarWidth(uptime: Option<real>): (w: real)
    ensures uptime.None? ==> w == 0.0
    ensures uptime.Some? ==> w == uptime.value
  {
    match uptime
    case Some(u) => if u != 0.0 then u else 0.0
    case None => 0.0
  }

  /** The three badges `getStatusBadge` can draw. */
  datatype Badge = ActiveBadge | DelinquentBadge | OfflineBadge

  /** `getStatusBadge`: Active and Delinquent have their own badge; every
      other status falls to the default case and is drawn as Offline. */
  function StatusBadge(s: NodeStatus): (b: Badge)
    ensures b == ActiveBadge <==> s == Active
    ensures b == DelinquentBadge <==> s == Delinquent
    ensures b == OfflineBadge <==> s == Offline || s == Bootstrap
  {
    match s
    case Active => ActiveBadge
    case Delinquent => DelinquentBadge
    case _ => OfflineBadge
  }

  /** `node.gossipAddr.split(':')[0]`: the host part of the gossip address. */
  function HostLabel(n: PNode): (h: string)
    ensures ':' !in h && |h| <= |n.gossipAddr|
  {
    BeforeColon(n.gossipAddr)
  }

  /** For an address `host:port` whose host has no colon, the label is the
      host; an address without a colon is shown whole. */
  lemma {:induction false} HostLabelOfHostPort(host: string, port: string)
    requires ':' !in host
    ensures BeforeColon(host + ":" + port) == host
    ensures BeforeColon(host) == host
  {
    if host != [] {
      assert (host + ":" + port)[1..] == host[1..] + ":" + port;
      HostLabelOfHostPort(host[1..], port);
    }
  }
}
