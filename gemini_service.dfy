/** `generateNetworkReport`: the guard on the API key, the digest of the
    node list the model is shown, and the handling of the model's answer.
    The model call and `JSON.parse` are parameters. */
module GeminiService {
  import opened Types
  import opened NodeAggregates

  datatype Result<T> = Success(value: T) | Failure(message: string)

  /** One entry of `sampleNodeStatuses`. */
  datatype NodeSample = NodeSample(id: string, status: NodeStatus)

  /** The object passed to `JSON.stringify` as `promptData`. */
  datatype Digest = Digest(
    totalNodes: nat,
    activeNodes: nat,
    averageLatency: real,
    versionsInUse: seq<string>,
    sampleNodeStatuses: seq<NodeSample>
  )

  // ---------------------------------------------------------------------------
  // Versions in use

  /** Some node reports version `v`, and `v` is not empty. */
  predicate UsesVersion(nodes: seq<PNode>, v: string) {
    v != "" && exists i :: 0 <= i < |nodes| && nodes[i].version == Some(v)
  }

  /** `nodes.map(n => n.version).filter(Boolean)`: the present, non-empty
      versions, in node order. */
  function PresentVersions(nodes: seq<PNode>): (r: seq<string>)
    ensures forall v :: v in r <==> UsesVersion(nodes, v)
  {
    if nodes == [] then []
    else
      var n := nodes[0];
      assert forall i :: 1 <= i < |nodes| ==> nodes[i] == nodes[1..][i - 1];
      (if n.version.Some? && n.version.value != "" then [n.version.value] else []) + PresentVersions(nodes[1..])
  }

  /** A single node contributes its version exactly when it is present and
      not empty. */
  lemma PresentVersionsOfOne(n: PNode)
    ensures PresentVersions([n]) == if n.version.Some? && n.version.value != "" then [n.version.value] else []
  {
    assert [n][1..] == [];
  }

  /** The filter keeps node order: the versions of a concatenation are the
      versions of its first part followed by those of its second. */
  lemma {:induction false} PresentVersionsAppend(a: seq<PNode>, b: seq<PNode>)
    ensures PresentVersions(a + b) == PresentVersions(a) + PresentVersions(b)
  {
    if a != [] {
      assert (a + b)[0] == a[0];
      assert (a + b)[1..] == a[1..] + b;
      PresentVersionsAppend(a[1..], b);
    } else {
      assert a + b == b;
    }
  }

  /** Where `x` first occurs in `s`. */
  function FirstIndex(s: seq<string>, x: string): (i: nat)
    requires x in s
    ensures i < |s| && s[i] == x && forall j :: 0 <= j < i ==> s[j] != x
  {
    if s[0] == x then 0 else 1 + FirstIndex(s[1..], x)
  }

  /** `[...new Set(s)]`: each element once, at its first occurrence. */
  function Dedup(s: seq<string>): (r: seq<string>)
    ensures forall x :: x in r <==> x in s
    ensures forall i, j :: 0 <= i < j < |r| ==> r[i] != r[j]
  {
    if s == [] then []
    else
      var d := Dedup(s[..|s| - 1]);
      var last := s[|s| - 1];
      assert forall x :: x in s <==> x in s[..|s| - 1] || x == last by {
        assert s == s[..|s| - 1] + [last];
      }
      if last in d then d else d + [last]
  }

  /** Deduplication keeps the order of first occurrences. */
  lemma {:induction false} DedupKeepsFirstOccurrenceOrder(s: seq<string>)
    ensures forall i, j :: 0 <= i < j < |Dedup(s)| ==>
              FirstIndex(s, Dedup(s)[i]) < FirstIndex(s, Dedup(s)[j])
  {
    if s != [] {
      var init, last := s[..|s| - 1], s[|s| - 1];
      DedupKeepsFirstOccurrenceOrder(init);
      var d := Dedup(init);
      forall x | x in init
        ensures FirstIndex(s, x) == FirstIndex(init, x)
      {
        FirstIndexOfExtension(init, last, x);
      }
      if last !in d {
        assert last !in init;
        FirstIndexOfNew(init, last);
        assert Dedup(s) == d + [last];
      }
    }
  }

  /** Appending an element does not move the first occurrence of one that
      was already there. */
  lemma {:induction false} FirstIndexOfExtension(s: seq<string>, y: string, x: string)
    requires x in s
    ensures FirstIndex(s + [y], x) == FirstIndex(s, x)
  {
    if s[0] != x {
      assert (s + [y])[1..] == s[1..] + [y];
      FirstIndexOfExtension(s[1..], y, x);
    }
  }

  /** A new element first occurs at the end. */
  lemma {:induction false} FirstIndexOfNew(s: seq<string>, y: string)
    requires y !in s
    ensures FirstIndex(s + [y], y) == |s|
  {
    if s != [] {
      assert (s + [y])[1..] == s[1..] + [y];
      FirstIndexOfNew(s[1..], y);
    }
  }

  /** `versionsInUse`: every present, non-empty version once, in order of
      first appearance, and nothing else. */
  function VersionsInUse(nodes: seq<PNode>): (r: seq<string>)
    ensures forall v :: v in r <==> UsesVersion(nodes, v)
    ensures forall i, j :: 0 <= i < j < |r| ==> r[i] != r[j]
  {
    Dedup(PresentVersions(nodes))
  }

  // ---------------------------------------------------------------------------
  // Digest

  /** `nodes.slice(0, 10).map(n => ({ id: n.identityPubkey, status: n.status }))`. */
  function Sample(nodes: seq<PNode>): (r: seq<NodeSample>)
    ensures |r| == if |nodes| < 10 then |nodes| else 10
    ensures forall i :: 0 <= i < |r| ==> r[i] == NodeSample(nodes[i].identityPubkey, nodes[i].status)
  {
    var n := if |nodes| < 10 then |nodes| else 10;
    seq(n, i requires 0 <= i < n => NodeSample(nodes[i].identityPubkey, nodes[i].status))
  }

  /** The digest: node count, Active count, mean latency over
      `nodes.length || 1`, versions in use and the ten-node sample. */
  function BuildDigest(nodes: seq<PNode>): (d: Digest)
    ensures d.totalNodes == |nodes| && d.activeNodes == CountStatus(nodes, Active)
    ensures d.activeNodes <= d.totalNodes
    ensures |nodes| == 0 ==> d.averageLatency == 0.0
    ensures d.averageLatency == MeanLatency(nodes)
    ensures d.versionsInUse == VersionsInUse(nodes) && d.sampleNodeStatuses == Sample(nodes)
  {
    Digest(|nodes|, CountStatus(nodes, Active), MeanLatency(nodes), VersionsInUse(nodes), Sample(nodes))
  }

  // ---------------------------------------------------------------------------
  // The request

  /** What `await ai.models.generateContent(...)` does with the digest: it
      answers with a text (empty when the response has none) or throws. */
  datatype ModelReply = Answered(text: string) | Threw(message: string)

  /** `JSON.parse(jsonText)`: a report, or a thrown syntax error. */
  datatype ReportParse = ParsedReport(report: AIReport) | ParseError(message: string)

  /** `generateNetworkReport`: an empty key fails with 'Missing API Key';
      otherwise the model is asked about the digest, an empty answer fails
      with 'Empty response from AI', and any other error is passed on with
      its message unchanged. */
  function GenerateNetworkReport(
    apiKey: string,
    nodes: seq<PNode>,
    generate: Digest -> ModelReply,
    parse: string -> ReportParse
  ): (r: Result<AIReport>)
    ensures apiKey == "" ==> r == Failure("Missing API Key")
    ensures apiKey != "" && generate(BuildDigest(nodes)) == Answered("") ==> r == Failure("Empty response from AI")
    ensures apiKey != "" && generate(BuildDigest(nodes)).Threw? ==>
              r == Failure(generate(BuildDigest(nodes)).message)
    ensures r.Success? <==>
              apiKey != "" && generate(BuildDigest(nodes)).Answered?
              && generate(BuildDigest(nodes)).text != ""
              && parse(generate(BuildDigest(nodes)).text).ParsedReport?
    ensures r.Success? ==> r.value == parse(generate(BuildDigest(nodes)).text).report
    ensures apiKey != "" && generate(BuildDigest(nodes)).Answered? && generate(BuildDigest(nodes)).text != ""
            && parse(generate(BuildDigest(nodes)).text).ParseError? ==>
              r == Failure(parse(generate(BuildDigest(nodes)).text).message)
  {
    if apiKey == "" then Failure("Missing API Key")
    else
      match generate(BuildDigest(nodes))
      case Threw(m) => Failure(m)
      case Answered(text) =>
        if text == "" then Failure("Empty response from AI")
        else
          match parse(text)
          case ParsedReport(report) => Success(report)
          case ParseError(m) => Failure(m)
  }

  /** Without a key the model is never consulted: the outcome is the same
      whatever the model and the parser would do. */
  lemma MissingKeyNeedsNoModel(
    nodes: seq<PNode>,
    generate1: Digest -> ModelReply, parse1: string -> ReportParse,
    generate2: Digest -> ModelReply, parse2: string -> ReportParse
  )
    ensures GenerateNetworkReport("", nodes, generate1, parse1)
            == GenerateNetworkReport("", nodes, generate2, parse2)
  {
  }

  /** The node list reaches the request only through the digest: for one
      and the same behaviour of the model and the parser, two node lists
      with the same digest lead to the same outcome. */
  lemma ReportDependsOnDigestOnly(
    apiKey: string, a: seq<PNode>, b: seq<PNode>,
    generate: Digest -> ModelReply, parse: string -> ReportParse
  )
    requires BuildDigest(a) == BuildDigest(b)
    ensures GenerateNetworkReport(apiKey, a, generate, parse) == GenerateNetworkReport(apiKey, b, generate, parse)
  {
  }
}
