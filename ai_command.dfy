/** The request lifecycle shared by the AI command modal and the AI command
    sidebar: both keep a prompt, a parsed result, a loading flag and an error
    message, reset them when opened, refuse a blank prompt, and turn the
    model's reply into JSON after stripping Markdown code fences. */
module AICommand {
  import opened Types
  import opened Strings

  // ---------------------------------------------------------------------------
  // Fence stripping

  /** `text.replace(/```json/g, '').replace(/```/g, '').trim()`. */
  function StripFences(text: string): (r: string)
    ensures |r| <= |text|
  {
    Trim(RemoveAll(RemoveAll(text, "```json"), "```"))
  }

  /** If the removal's output starts with a backtick, so did its input. */
  lemma RemovedStartsWithTick(s: string)
    requires |RemoveAll(s, "```")| > 0 && RemoveAll(s, "```")[0] == '`'
    ensures |s| > 0 && s[0] == '`'
  {
  }

  /** If the removal's output starts with two backticks, so did its input. */
  lemma RemovedStartsWithTwoTicks(s: string)
    requires |RemoveAll(s, "```")| > 1 && RemoveAll(s, "```")[..2] == "``"
    ensures |s| > 1 && s[..2] == "``"
  {
    if !StartsWith(s, "```") {
      var r := RemoveAll(s, "```");
      assert r == [s[0]] + RemoveAll(s[1..], "```");
      assert r[1] == RemoveAll(s[1..], "```")[0];
      RemovedStartsWithTick(s[1..]);
    }
  }

  /** Deleting every "```" left to right leaves no "```" behind: the
      characters brought together by a deletion never form a new one. */
  lemma {:induction false} NoFenceAfterRemoval(s: string)
    ensures !Includes(RemoveAll(s, "```"), "```")
    decreases |s|
  {
    if |s| > 0 {
      if StartsWith(s, "```") {
        NoFenceAfterRemoval(s[3..]);
      } else {
        var rest := RemoveAll(s[1..], "```");
        var r := [s[0]] + rest;
        assert RemoveAll(s, "```") == r;
        NoFenceAfterRemoval(s[1..]);
        if StartsWith(r, "```") {
          assert r[1] == '`' && r[2] == '`';
          assert rest[0] == '`' && rest[1] == '`';
          assert rest[..2] == "``";
          RemovedStartsWithTwoTicks(s[1..]);
          assert false;
        }
        assert r[1..] == rest;
      }
    }
  }

  /** A substring of a trimmed string is a substring of the string. */
  lemma IncludesOfTrim(s: string, t: string)
    requires Includes(Trim(s), t)
    ensures Includes(s, t)
  {
    var i := TrimIsSlice(s);
    IncludesIff(s, Trim(s));
    IncludesTransitive(s, Trim(s), t);
  }

  /** The text handed to `JSON.parse` holds no "```" and has no whitespace
      at either end. */
  lemma StripFencesClean(text: string)
    ensures !Includes(StripFences(text), "```")
    ensures var r := StripFences(text); r == "" || (!IsWhitespace(r[0]) && !IsWhitespace(r[|r| - 1]))
  {
    var once := RemoveAll(text, "```json");
    NoFenceAfterRemoval(once);
    if Includes(StripFences(text), "```") {
      IncludesOfTrim(RemoveAll(once, "```"), "```");
    }
  }

  /** A reply with no backtick in it is only trimmed. */
  lemma StripFencesWithoutTicks(text: string)
    requires '`' !in text
    ensures StripFences(text) == Trim(text)
  {
    RemoveAllAbsent(text, "```json");
    RemoveAllAbsent(text, "```");
  }

  /** A run of three backticks is shorter than "```json" and survives its
      removal. */
  lemma FenceKeptByJsonRemoval()
    ensures RemoveAll("```", "```json") == "```"
  {
    var t := "```";
    assert !StartsWith(t, "```json") && t[1..] == "``";
    assert !StartsWith("``", "```json") && "``"[1..] == "`";
    assert !StartsWith("`", "```json") && "`"[1..] == "";
  }

  /** A body wrapped in a "```json" ... "```" fence comes back trimmed. */
  lemma StripFencedBody(body: string)
    requires '`' !in body
    ensures StripFences("```json" + body + "```") == Trim(body)
  {
    var fenced := "```json" + body + "```";
    assert StartsWith(fenced, "```json") && fenced[7..] == body + "```";
    assert RemoveAll(fenced, "```json") == RemoveAll(body + "```", "```json");
    RemoveAllPrefixAbsent(body, "```", "```json");
    FenceKeptByJsonRemoval();
    assert RemoveAll(fenced, "```json") == body + "```";
    RemoveAllPrefixAbsent(body, "```", "```");
    assert StartsWith("```", "```") && "```"[3..] == "";
    assert RemoveAll(body + "```", "```") == body;
  }

  // ---------------------------------------------------------------------------
  // Request outcome

  /** The value `JSON.parse` produces; parsing itself is not modelled. */
  datatype JsonValue =
    | JNull
    | JBool(b: bool)
    | JNumber(n: real)
    | JString(s: string)
    | JArray(items: seq<JsonValue>)
    | JObject(members: seq<(string, JsonValue)>)

  /** What `JSON.parse(jsonStr)` does: returns a value or throws a
      `SyntaxError` with a message. */
  datatype ParseOutcome = Parsed(value: JsonValue) | SyntaxError(message: string)

  /** What `await generate(...)` does: resolves to a response with a text, or
      rejects with an error whose `message` may be empty. */
  datatype Reply = Replied(text: string) | Rejected(message: string)

  /** How a request ends: a parsed value, or an error message to show. */
  datatype AnalyzeOutcome = Succeeded(value: JsonValue) | FailedWith(message: string)

  /** The fallback `handleAnalyze` shows when the error has no message. */
  const ProcessFailedText := "Failed to process request"

  /** The `try` block: a rejected request and a reply that does not parse
      both end in an error; only a reply whose stripped text parses gives a
      value, and that value is what `parse` returned for the stripped text. */
  function OutcomeOf(reply: Reply, parse: string -> ParseOutcome): (o: AnalyzeOutcome)
    ensures o.FailedWith? ==> o.message != ""
    ensures o.Succeeded? <==> reply.Replied? && parse(StripFences(reply.text)).Parsed?
    ensures o.Succeeded? ==> o.value == parse(StripFences(reply.text)).value
    ensures reply.Rejected? ==> o == FailedWith(MessageOr(reply.message, ProcessFailedText))
    ensures reply.Replied? && parse(StripFences(reply.text)).SyntaxError? ==>
              o == FailedWith(MessageOr(parse(StripFences(reply.text)).message, ProcessFailedText))
  {
    match reply
    case Rejected(m) => FailedWith(MessageOr(m, ProcessFailedText))
    case Replied(text) =>
      match parse(StripFences(text))
      case Parsed(v) => Succeeded(v)
      case SyntaxError(m) => FailedWith(MessageOr(m, ProcessFailedText))
  }

  // ---------------------------------------------------------------------------
  // The panel's state

  /** The state of `AICommandModal` and of the chat half of
      `AICommandSidebar`: `prompt`, `result`, `isLoading` and `error`. */
  class CommandPanel {
    var prompt: string
    var result: Option<JsonValue>
    var isLoading: bool
    var error: Option<string>

    /** The four `useState` calls. */
    constructor (initialPrompt: string)
      ensures prompt == initialPrompt && result == None && !isLoading && error == None
    {
      prompt := initialPrompt;
      result := None;
      isLoading := false;
      error := None;
    }

    /** The effect that runs while the panel is open: back to the initial
      prompt, with the result and the error cleared. */
    method Open(initialPrompt: string)
      modifies this
      ensures prompt == initialPrompt && result == None && error == None
      ensures isLoading == old(isLoading)
    {
      prompt := initialPrompt;
      result := None;
      error := None;
    }

    /** The text area's `onChange`, and the suggestion and clear buttons. */
    method EditPrompt(text: string)
      modifies this
      ensures prompt == text
      ensures result == old(result) && isLoading == old(isLoading) && error == old(error)
    {
      prompt := text;
    }

    /** `disabled={isLoading || !prompt.trim()}`, negated. */
    predicate SubmitEnabled()
      reads this
    {
      !isLoading && !IsBlank(prompt)
    }

    /** `handleAnalyze` up to the `await`: a blank prompt returns at once and
      changes nothing; otherwise loading starts and the error is cleared, so
      the submit control is disabled until the request ends. */
    method BeginAnalyze() returns (started: bool)
      modifies this
      ensures started <==> !IsBlank(old(prompt))
      ensures !started ==> prompt == old(prompt) && result == old(result)
                           && isLoading == old(isLoading) && error == old(error)
      ensures started ==> isLoading && error == None
                          && prompt == old(prompt) && result == old(result)
      ensures started ==> !SubmitEnabled()
    {
      if IsBlank(prompt) {
        return false;
      }
      isLoading := true;
      error := None;
      started := true;
    }

    /** `handleAnalyze` after the `await`: on success the result is the
      parsed value and the error stays as it was; on failure the error is
      set and the result stays as it was; loading ends either way. */
    method FinishAnalyze(outcome: AnalyzeOutcome)
      modifies this
      ensures !isLoading && prompt == old(prompt)
      ensures outcome.Succeeded? ==> result == Some(outcome.value) && error == old(error)
      ensures outcome.FailedWith? ==> error == Some(outcome.message) && result == old(result)
    {
      match outcome {
        case Succeeded(v) =>
          result := Some(v);
        case FailedWith(m) =>
          error := Some(m);
      }
      isLoading := false;
    }

    /** The whole of `handleAnalyze`, with `reply` standing for what the
      awaited request delivers. */
    method HandleAnalyze(reply: Reply, parse: string -> ParseOutcome)
      modifies this
      ensures IsBlank(old(prompt)) ==>
                prompt == old(prompt) && result == old(result)
                && isLoading == old(isLoading) && error == old(error)
      ensures !IsBlank(old(prompt)) ==> !isLoading && prompt == old(prompt)
      ensures !IsBlank(old(prompt)) && OutcomeOf(reply, parse).Succeeded? ==>
                result == Some(OutcomeOf(reply, parse).value) && error == None
      ensures !IsBlank(old(prompt)) && OutcomeOf(reply, parse).FailedWith? ==>
                error == Some(OutcomeOf(reply, parse).message) && result == old(result)
    {
      var started := BeginAnalyze();
      if started {
        FinishAnalyze(OutcomeOf(reply, parse));
      }
    }
  }
}
