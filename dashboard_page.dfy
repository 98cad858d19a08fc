/** The dashboard page `Home`: the stat-card figures, the data refresh, the
    network report request, the navigation, the per-node analysis prompt
    and the two modals it opens and closes. */
module DashboardPage {
  import opened Types
  import opened Strings
  import opened NodeAggregates
  import opened NodeTable

  // ---------------------------------------------------------------------------
  // Stat cards

  /** `calculateStats`: the node count, the Active count, the summed storage
      (a missing capacity counting as 0) and the mean latency, which is 0
      for an empty list because the divisor is `nodes.length || 1`. */
  function CalculateStats(nodes: seq<PNode>): (s: NetworkStats)
    ensures s.totalNodes == |nodes|
    ensures s.activeNodes == CountStatus(nodes, Active) && s.activeNodes <= s.totalNodes
    ensures s.totalStorage == StorageSum(nodes)
    ensures s.avgLatency * (s.totalNodes as real) == LatencySum(nodes) as real
    ensures |nodes| == 0 ==> s == NetworkStats(0, 0, 0.0, 0.0)
  {
    MeanTimesCount(nodes);
    NetworkStats(|nodes|, CountStatus(nodes, Active), StorageSum(nodes), MeanLatency(nodes))
  }

  /** All nodes are Active exactly when no node is counted as not active. */
  lemma AllActiveIff(nodes: seq<PNode>)
    ensures CalculateStats(nodes).activeNodes == CalculateStats(nodes).totalNodes
            <==> forall i :: 0 <= i < |nodes| ==> nodes[i].status == Active
  {
    ActivePlusNotActive(nodes);
    CountNotActivePositive(nodes);
  }

  // ---------------------------------------------------------------------------
  // Prompts and bands

  /** The prompt `onAnalyzeNode` puts into the command modal. */
  function AnalyzePrompt(n: PNode): (p: string)
    ensures StartsWith(p, "Analyze this specific pNode: ")
  {
    var statusPart := " and status " + StatusName(n.status) + ". What can you tell me about its health?";
    var latencyPart := ". It has a latency of " + (NatToString(n.latency) + "ms") + statusPart;
    "Analyze this specific pNode: " + n.identityPubkey + latencyPart
  }

  /** The analysis prompt names the node's pubkey, latency and status, and is
      never blank, so the modal's submit control starts enabled. */
  lemma AnalyzePromptContents(n: PNode)
    ensures Includes(AnalyzePrompt(n), n.identityPubkey)
    ensures Includes(AnalyzePrompt(n), NatToString(n.latency) + "ms")
    ensures Includes(AnalyzePrompt(n), StatusName(n.status))
    ensures !IsBlank(AnalyzePrompt(n))
  {
    var p := AnalyzePrompt(n);
    var lat := NatToString(n.latency) + "ms";
    var st := StatusName(n.status);
    var tail := ". What can you tell me about its health?";
    var statusPart := " and status " + st + tail;
    var latencyPart := ". It has a latency of " + lat + statusPart;
    var head := "Analyze this specific pNode: " + n.identityPubkey;
    assert p == head + latencyPart;
    IncludesMiddle("Analyze this specific pNode: ", n.identityPubkey, latencyPart);
    IncludesSuffix(head, latencyPart);
    IncludesMiddle(". It has a latency of ", lat, statusPart);
    IncludesTransitive(p, latencyPart, lat);
    IncludesSuffix(". It has a latency of " + lat, statusPart);
    IncludesTransitive(p, latencyPart, statusPart);
    IncludesMiddle(" and status ", st, tail);
    IncludesTransitive(p, statusPart, st);
    NotBlankWhenFirstIsNot(p);
  }

  /** A string whose first character is not whitespace is not blank. */
  lemma NotBlankWhenFirstIsNot(s: string)
    requires |s| > 0 && !IsWhitespace(s[0])
    ensures !IsBlank(s)
  {
    BlankIffAllWhitespace(s);
  }

  /** The colour of the report's health score: emerald above 80, yellow above
      60, rose otherwise. */
  function HealthTone(score: real): (t: Tone)
    ensures t == Emerald <==> score > 80.0
    ensures t == Rose <==> score <= 60.0
  {
    if score > 80.0 then Emerald else if score > 60.0 then Yellow else Rose
  }

  /** A higher score never gets a worse colour. */
  lemma HealthToneAntitone(a: real, b: real)
    requires a <= b
    ensures Severity(HealthTone(b)) <= Severity(HealthTone(a))
  {
  }

  // ---------------------------------------------------------------------------
  // Page state

  /** How the awaited report request ends. */
  datatype ReportOutcome = Report(report: AIReport) | ReportFailed(message: string)

  /** The fallback `handleGenerateReport` shows when the error has no message. */
  const ReportFailedText := "Failed to generate AI report. The service might be unavailable."

  /** The values of all eleven `useState` hooks of `Home` at one moment. */
  datatype PageState = PageState(
    activeTab: string,
    nodes: seq<PNode>,
    loading: bool,
    lastRefreshed: Option<int>,
    isMobileMenuOpen: bool,
    isCommandModalOpen: bool,
    aiCommandPrompt: string,
    aiReport: Option<AIReport>,
    aiLoading: bool,
    aiError: Option<string>,
    isAiModalOpen: bool
  )

  /** The state the page starts in. */
  const InitialPage := PageState("dashboard", [], true, None, false, false, "", None, false, None, false)

  /** The `useState` hooks of `Home`. Times are whatever `new Date()` gives,
      passed in as a number. Each handler states its whole new state as the
      old snapshot with the fields its `set...` calls assign replaced, so
      every other hook keeps its value. */
  class Home {
    var activeTab: string
    var nodes: seq<PNode>
    var loading: bool
    var lastRefreshed: Option<int>
    var isMobileMenuOpen: bool
    var isCommandModalOpen: bool
    var aiCommandPrompt: string
    var aiReport: Option<AIReport>
    var aiLoading: bool
    var aiError: Option<string>
    var isAiModalOpen: bool

    function Snapshot(): PageState
      reads this
    {
      PageState(activeTab, nodes, loading, lastRefreshed, isMobileMenuOpen, isCommandModalOpen,
                aiCommandPrompt, aiReport, aiLoading, aiError, isAiModalOpen)
    }

    constructor ()
      ensures Snapshot() == InitialPage
    {
      activeTab := "dashboard";
      nodes := [];
      loading := true;
      lastRefreshed := None;
      isMobileMenuOpen := false;
      isCommandModalOpen := false;
      aiCommandPrompt := "";
      aiReport := None;
      aiLoading := false;
      aiError := None;
      isAiModalOpen := false;
    }

    /** `loadData` up to the `await fetchPNodes()`: only `loading` changes. */
    method LoadDataBegin()
      modifies this
      ensures Snapshot() == old(Snapshot()).(loading := true)
    {
      loading := true;
    }

    /** `loadData` after the fetch: the list is replaced wholesale by the
        fetched one and the refresh time recorded. */
    method LoadDataEnd(data: seq<PNode>, now: int)
      modifies this
      ensures Snapshot() == old(Snapshot()).(nodes := data, lastRefreshed := Some(now), loading := false)
    {
      nodes := data;
      lastRefreshed := Some(now);
      loading := false;
    }

    /** The whole of `loadData`. */
    method LoadData(data: seq<PNode>, now: int)
      modifies this
      ensures Snapshot() == old(Snapshot()).(nodes := data, lastRefreshed := Some(now), loading := false)
    {
      LoadDataBegin();
      LoadDataEnd(data, now);
    }

    /** `handleGenerateReport` up to the `await`: the report modal opens in
        its loading state with no error. */
    method GenerateReportBegin()
      modifies this
      ensures Snapshot() == old(Snapshot()).(aiLoading := true, aiError := None, isAiModalOpen := true)
    {
      aiLoading := true;
      aiError := None;
      isAiModalOpen := true;
    }

    /** `handleGenerateReport` after the `await`: the report is stored on
        success, the error on failure, and loading ends either way. */
    method GenerateReportEnd(outcome: ReportOutcome)
      modifies this
      ensures outcome.Report? ==>
                Snapshot() == old(Snapshot()).(aiReport := Some(outcome.report), aiLoading := false)
      ensures outcome.ReportFailed? ==>
                Snapshot() == old(Snapshot()).(aiError := Some(MessageOr(outcome.message, ReportFailedText)),
                                               aiLoading := false)
    {
      match outcome {
        case Report(r) =>
          aiReport := Some(r);
        case ReportFailed(m) =>
          aiError := Some(MessageOr(m, ReportFailedText));
      }
      aiLoading := false;
    }

    /** The whole of `handleGenerateReport`. */
    method HandleGenerateReport(outcome: ReportOutcome)
      modifies this
      ensures outcome.Report? ==>
                Snapshot() == old(Snapshot()).(aiReport := Some(outcome.report), aiLoading := false,
                                               aiError := None, isAiModalOpen := true)
      ensures outcome.ReportFailed? ==>
                Snapshot() == old(Snapshot()).(aiError := Some(MessageOr(outcome.message, ReportFailedText)),
                                               aiLoading := false, isAiModalOpen := true)
    {
      GenerateReportBegin();
      GenerateReportEnd(outcome);
    }

    /** A click on a navigation item: 'ai' starts the report request and
        keeps the tab; any other id becomes the tab. The mobile menu closes
        in both cases. The answer says whether a request was started. */
    method NavClick(id: string) returns (requested: bool)
      modifies this
      ensures requested <==> id == "ai"
      ensures id == "ai" ==>
                Snapshot() == old(Snapshot()).(aiLoading := true, aiError := None, isAiModalOpen := true,
                                               isMobileMenuOpen := false)
      ensures id != "ai" ==> Snapshot() == old(Snapshot()).(activeTab := id, isMobileMenuOpen := false)
    {
      if id == "ai" {
        GenerateReportBegin();
        requested := true;
      } else {
        activeTab := id;
        requested := false;
      }
      isMobileMenuOpen := false;
    }

    /** `onAnalyzeNode`: the command modal opens with the node's prompt. */
    method AnalyzeNode(n: PNode)
      modifies this
      ensures Snapshot() == old(Snapshot()).(aiCommandPrompt := AnalyzePrompt(n), isCommandModalOpen := true)
    {
      aiCommandPrompt := AnalyzePrompt(n);
      isCommandModalOpen := true;
    }

    /** The command modal's `onClose`: it closes and its prompt is cleared. */
    method CloseCommandModal()
      modifies this
      ensures Snapshot() == old(Snapshot()).(isCommandModalOpen := false, aiCommandPrompt := "")
    {
      isCommandModalOpen := false;
      aiCommandPrompt := "";
    }

    /** The report modal's close and 'Return to Dashboard' buttons. */
    method CloseAiModal()
      modifies this
      ensures Snapshot() == old(Snapshot()).(isAiModalOpen := false)
    {
      isAiModalOpen := false;
    }
  }
}
