/** The text processing shared by every Copilot action: the file-extension
    gate run before an action, filling `{{key}}` variables into the prompts,
    extracting the code between ``` fences from the model's answer, the
    execute pipeline that strings these together, and the pull-request title
    and commit message. The language model, the file-extension helper and the
    hooks a concrete action overrides are parameters. */
module CopilotActions {
  import opened Wrappers
  import opened JsBuiltins

  datatype LlmType = Llama | OpenAI

  /** CopilotActionVars; the service language is kept as its enum text. */
  datatype Vars = Vars(code: string, filePath: string, fileCommitHash: string, fileLanguage: string)

  /** CopilotActionPrompt. */
  datatype Prompt = Prompt(prompt: string, systemPrompt: string)

  /** CopilotActionRunResult. */
  datatype RunResult = RunResult(code: string)

  /** The exceptions the base action throws. */
  datatype CopilotError =
    | NotAcceptedFileExtension(message: string)
    | BadData(message: string)
    | NotImplemented

  const Fence: string := "```"
  const OpenBraces: string := "{{"
  const CloseBraces: string := "}}"

  /** The variables in the order Object.entries lists them for a vars object
      built with its fields in declaration order. */
  function Entries(vars: Vars): seq<(string, string)>
  {
    [("code", vars.code), ("filePath", vars.filePath),
     ("fileCommitHash", vars.fileCommitHash), ("fileLanguage", vars.fileLanguage)]
  }

  // ---------------------------------------------------------------------------
  // cleanup: the code between the first fence line and the next fence

  /** The first line terminator at or after `from`, or the end of `s`. */
  function LineEnd(s: string, from: nat): (e: nat)
    requires from <= |s|
    ensures from <= e <= |s|
    ensures forall t :: from <= t < e ==> !IsLineTerminator(s[t])
    ensures e < |s| ==> IsLineTerminator(s[e])
    decreases |s| - from
  {
    if from == |s| || IsLineTerminator(s[from]) then from else LineEnd(s, from + 1)
  }

  /** /```.*\n([\s\S]*?)```/ matches at `i` with its `\n` at `j` and its closing
      fence at `k`, so that the captured group is s[j + 1..k]: the rest of the
      fence line has no line terminator, and the lazy group stops at the first
      fence after the newline. */
  ghost predicate FenceMatch(s: string, i: nat, j: nat, k: nat)
  {
    && OccursAt(s, Fence, i)
    && i + 3 <= j < |s|
    && (forall t :: i + 3 <= t < j ==> !IsLineTerminator(s[t]))
    && s[j] == '\n'
    && j + 1 <= k
    && OccursAt(s, Fence, k)
    && (forall t: nat :: j + 1 <= t < k ==> !OccursAt(s, Fence, t))
  }

  /** A match at `i` has its newline at the end of the fence line and its
      closing fence at the first fence after that newline. */
  lemma FenceMatchUnique(s: string, i: nat, j: nat, k: nat)
    requires FenceMatch(s, i, j, k)
    ensures j == LineEnd(s, i + 3)
    ensures k == IndexOfFrom(s, Fence, j + 1)
  {
    var e := LineEnd(s, i + 3);
    assert IsLineTerminator(s[j]);
    var f := IndexOfFrom(s, Fence, j + 1);
    assert f != -1 ==> OccursAt(s, Fence, f);
  }

  /** The leftmost match starting at or after `from`, as the regular
      expression engine finds it: its captured group, or None. */
  function FenceMatchFrom(s: string, from: nat): (r: Option<string>)
    ensures r.None? ==> forall i: nat, j: nat, k: nat :: from <= i ==> !FenceMatch(s, i, j, k)
    ensures r.Some? ==>
      exists i: nat, j: nat, k: nat ::
        && from <= i && FenceMatch(s, i, j, k) && r.value == s[j + 1..k]
        && (forall i': nat, j': nat, k': nat :: from <= i' < i ==> !FenceMatch(s, i', j', k'))
    decreases |s| - from
  {
    if from + 3 > |s| then
      assert forall i: nat, j: nat, k: nat :: from <= i ==> !FenceMatch(s, i, j, k);
      None
    else
      var j := LineEnd(s, from + 3);
      var k := if OccursAt(s, Fence, from) && j < |s| && s[j] == '\n'
               then IndexOfFrom(s, Fence, j + 1) else -1;
      if k != -1 then
        assert FenceMatch(s, from, j, k);
        Some(s[j + 1..k])
      else
        NoFenceMatchAt(s, from);
        FenceMatchFrom(s, from + 1)
  }

  lemma NoFenceMatchAt(s: string, i: nat)
    requires i + 3 <= |s|
    requires !OccursAt(s, Fence, i) || LineEnd(s, i + 3) == |s| || s[LineEnd(s, i + 3)] != '\n'
             || IndexOfFrom(s, Fence, LineEnd(s, i + 3) + 1) == -1
    ensures forall j: nat, k: nat :: !FenceMatch(s, i, j, k)
  {
    forall j: nat, k: nat | FenceMatch(s, i, j, k)
      ensures false
    {
      FenceMatchUnique(s, i, j, k);
    }
  }

  /** The captured group of a match holds no fence of its own. */
  lemma GroupHasNoFence(s: string, i: nat, j: nat, k: nat)
    requires FenceMatch(s, i, j, k)
    ensures !Includes(s[j + 1..k], Fence)
  {
    var group := s[j + 1..k];
    IncludesIff(group, Fence);
    forall p: nat | OccursAt(group, Fence, p)
      ensures false
    {
      OccursInSlice(s, Fence, j + 1, k, p);
    }
  }

  /** CopilotActionBase.cleanup: an empty or unfenced answer is kept as it is;
      otherwise the captured group of the leftmost match, or "" without one.
      In every case the result is a piece of the answer and holds no fence. */
  function Cleanup(result: RunResult): (r: RunResult)
    ensures result.code == "" || !Includes(result.code, Fence) ==> r == result
    ensures Includes(result.code, Fence) && FenceMatchFrom(result.code, 0).None? ==> r.code == ""
    ensures Includes(result.code, Fence) && FenceMatchFrom(result.code, 0).Some? ==>
      exists i: nat, j: nat, k: nat ::
        && FenceMatch(result.code, i, j, k) && r.code == result.code[j + 1..k]
        && forall i': nat, j': nat, k': nat :: i' < i ==> !FenceMatch(result.code, i', j', k')
    ensures !Includes(r.code, Fence)
    ensures IsSubstring(r.code, result.code)
  {
    var code := result.code;
    if code == "" || !Includes(code, Fence) then
      assert OccursAt(code, code, 0);
      result
    else
      match FenceMatchFrom(code, 0)
      case None =>
        IncludesIff("", Fence);
        assert OccursAt(code, "", 0);
        RunResult("")
      case Some(group) =>
        MatchedGroup(code);
        RunResult(group)
  }

  /** The group of the leftmost match is a piece of the text with no fence. */
  lemma MatchedGroup(s: string)
    requires FenceMatchFrom(s, 0).Some?
    ensures !Includes(FenceMatchFrom(s, 0).value, Fence)
    ensures IsSubstring(FenceMatchFrom(s, 0).value, s)
  {
    var i: nat, j: nat, k: nat :| FenceMatch(s, i, j, k) && FenceMatchFrom(s, 0).value == s[j + 1..k];
    GroupHasNoFence(s, i, j, k);
    assert OccursAt(s, s[j + 1..k], j + 1);
  }

  // ---------------------------------------------------------------------------
  // fillVarsInPrompt

  /** The literal text the pattern `{{key}}` matches (keys are plain identifiers). */
  function Placeholder(key: string): (p: string)
    ensures |p| == |key| + 4
  {
    OpenBraces + key + CloseBraces
  }

  /** The text after the loop has replaced every placeholder of each entry in
      turn, the entries taken in order. */
  function FillAll(text: string, entries: seq<(string, string)>): string
  {
    if |entries| == 0 then text
    else
      var (key, value) := entries[|entries| - 1];
      ReplaceAll(FillAll(text, entries[..|entries| - 1]), Placeholder(key), value)
  }

  /** /{{.*}}/ matches with its `{{` at `i` and its `}}` at `k`. */
  ghost predicate PlaceholderSpan(s: string, i: nat, k: nat)
  {
    && OccursAt(s, OpenBraces, i)
    && i + 2 <= k
    && OccursAt(s, CloseBraces, k)
    && (forall t :: i + 2 <= t < k ==> !IsLineTerminator(s[t]))
  }

  /** Some `{{ … }}` on a single line is left in `s`. */
  ghost predicate LeavesPlaceholder(s: string)
  {
    exists i: nat, k: nat :: PlaceholderSpan(s, i, k)
  }

  /** `{{` at `i` starts a match exactly when the first `}}` after it is on
      the same line. */
  lemma SpanAt(s: string, i: nat)
    requires OccursAt(s, OpenBraces, i)
    ensures (exists k: nat :: PlaceholderSpan(s, i, k)) <==>
      (IndexOfFrom(s, CloseBraces, i + 2) != -1 && IndexOfFrom(s, CloseBraces, i + 2) <= LineEnd(s, i + 2))
  {
    var e := LineEnd(s, i + 2);
    var f := IndexOfFrom(s, CloseBraces, i + 2);
    if f != -1 && f <= e {
      assert PlaceholderSpan(s, i, f);
    }
    forall k: nat | PlaceholderSpan(s, i, k)
      ensures f != -1 && f <= e
    {
      if k > e {
        assert IsLineTerminator(s[e]);
      }
    }
  }

  /** Whether /{{.*}}/ matches anywhere at or after `from`. */
  function UnfilledFrom(s: string, from: nat): (b: bool)
    ensures b <==> exists i: nat, k: nat :: from <= i && PlaceholderSpan(s, i, k)
    decreases |s| - from
  {
    if from + 2 > |s| then false
    else if OccursAt(s, OpenBraces, from) then
      SpanAt(s, from);
      var f := IndexOfFrom(s, CloseBraces, from + 2);
      if f != -1 && f <= LineEnd(s, from + 2) then true else UnfilledFrom(s, from + 1)
    else UnfilledFrom(s, from + 1)
  }

  /** `s.match(/{{.*}}/) !== null`. */
  function HasUnfilled(s: string): (b: bool)
    ensures b <==> LeavesPlaceholder(s)
  {
    UnfilledFrom(s, 0)
  }

  const UnfilledPromptMessage: string := "There are some unfilled vars in the prompt: "
  const UnfilledSystemPromptMessage: string := "There are some unfilled vars in the system prompt: "

  /** What fillVarsInPrompt returns or throws. */
  function FilledPrompt(prompt: Prompt, entries: seq<(string, string)>): Result<Prompt, CopilotError>
  {
    var filled := FillAll(prompt.prompt, entries);
    var filledSystem := FillAll(prompt.systemPrompt, entries);
    if HasUnfilled(filled) then Err(BadData(UnfilledPromptMessage + filled))
    else if HasUnfilled(filledSystem) then Err(BadData(UnfilledSystemPromptMessage + filledSystem))
    else Ok(Prompt(filled, filledSystem))
  }

  /** CopilotActionBase.fillVarsInPrompt: both prompts have every placeholder
      of every entry replaced, entry by entry; the call fails, naming the
      prompt first, when some `{{ … }}` is left on one line of either, and
      otherwise returns the two filled prompts, which then hold none. */
  method FillVarsInPrompt(prompt: Prompt, entries: seq<(string, string)>)
    returns (r: Result<Prompt, CopilotError>)
    ensures r == FilledPrompt(prompt, entries)
    ensures r.Ok? <==>
      !LeavesPlaceholder(FillAll(prompt.prompt, entries)) && !LeavesPlaceholder(FillAll(prompt.systemPrompt, entries))
    ensures r.Ok? ==>
      r.value == Prompt(FillAll(prompt.prompt, entries), FillAll(prompt.systemPrompt, entries))
      && !LeavesPlaceholder(r.value.prompt) && !LeavesPlaceholder(r.value.systemPrompt)
    ensures LeavesPlaceholder(FillAll(prompt.prompt, entries)) ==>
      r == Err(BadData(UnfilledPromptMessage + FillAll(prompt.prompt, entries)))
  {
    var filledPrompt := prompt.prompt;
    var filledSystemPrompt := prompt.systemPrompt;
    var i := 0;
    while i < |entries|
      invariant 0 <= i <= |entries|
      invariant filledPrompt == FillAll(prompt.prompt, entries[..i])
      invariant filledSystemPrompt == FillAll(prompt.systemPrompt, entries[..i])
    {
      var (key, value) := entries[i];
      assert entries[..i + 1][..i] == entries[..i];
      filledPrompt := ReplaceAll(filledPrompt, Placeholder(key), value);
      filledSystemPrompt := ReplaceAll(filledSystemPrompt, Placeholder(key), value);
      i := i + 1;
    }
    assert entries[..i] == entries;
    if HasUnfilled(filledPrompt) {
      return Err(BadData(UnfilledPromptMessage + filledPrompt));
    }
    if HasUnfilled(filledSystemPrompt) {
      return Err(BadData(UnfilledSystemPromptMessage + filledSystemPrompt));
    }
    return Ok(Prompt(filledPrompt, filledSystemPrompt));
  }

  /** Text without `{{` has no placeholder to fill: filling leaves it as it is. */
  lemma {:induction false} FillWithoutBraces(text: string, entries: seq<(string, string)>)
    requires !Includes(text, OpenBraces)
    ensures FillAll(text, entries) == text
    ensures !LeavesPlaceholder(text)
  {
    IncludesIff(text, OpenBraces);
    if |entries| > 0 {
      FillWithoutBraces(text, entries[..|entries| - 1]);
      var key := entries[|entries| - 1].0;
      IncludesIff(text, Placeholder(key));
      forall i: nat | OccursAt(text, Placeholder(key), i)
        ensures false
      {
        assert text[i..i + 2] == Placeholder(key)[..2];
        assert OccursAt(text, OpenBraces, i);
      }
    }
  }

  /** A template made of one placeholder becomes that entry's value. */
  lemma FillSinglePlaceholder(key: string, value: string)
    ensures FillAll(Placeholder(key), [(key, value)]) == value
  {
    var p := Placeholder(key);
    assert OccursAt(p, p, 0);
    assert [(key, value)][..0] == [];
    assert IndexOfFrom("", p, 0) == -1;
    assert ReplaceAll(p[|p|..], p, value) == "";
    assert ReplaceAll(p, p, value) == p[..0] + value + "";
  }

  // ---------------------------------------------------------------------------
  // The action itself

  class CopilotActionBase {
    var llmType: LlmType
    var actionType: string
    var acceptFileExtensions: seq<string>

    /** The constructor: the model type read from the configuration and the
        action's type and accepted extensions. */
    constructor(configuredLlm: LlmType, copilotActionType: string, acceptFileExtentions: seq<string>)
      ensures llmType == configuredLlm
      ensures actionType == copilotActionType
      ensures acceptFileExtensions == acceptFileExtentions
    {
      llmType := configuredLlm;
      actionType := copilotActionType;
      acceptFileExtensions := acceptFileExtentions;
    }

    /** The message of NotAcceptedFileExtentionForCopilotAction: the text after
        the last '.' of the path (the whole path when it has none), and the
        action type. */
    function RejectionMessage(filePath: string): (r: string)
      reads this
      ensures exists ext: string ::
        && '.' !in ext && |ext| <= |filePath| && filePath[|filePath| - |ext|..] == ext
        && (|ext| == |filePath| || filePath[|filePath| - |ext| - 1] == '.')
        && r == "The file extension " + ext + " is not accepted by the copilot action "
                + actionType + ". Ignore this file..."
    {
      var ext := LastPiece(filePath);
      "The file extension " + ext + " is not accepted by the copilot action "
        + actionType + ". Ignore this file..."
    }

    /** CopilotActionBase.onBeforeExecute: the variables pass unchanged exactly
        when the accepted entry Array.find picks (the first that contains the
        file's extension) exists and is not the empty string. */
    function OnBeforeExecute(vars: Vars, fileExtension: string -> string): (r: Result<Vars, CopilotError>)
      reads this
      ensures r.Ok? <==> Accepted(acceptFileExtensions, fileExtension(vars.filePath))
      ensures r.Ok? ==> r.value == vars
      ensures r.Err? ==> r.error == NotAcceptedFileExtension(RejectionMessage(vars.filePath))
    {
      if Accepted(acceptFileExtensions, fileExtension(vars.filePath)) then Ok(vars)
      else Err(NotAcceptedFileExtension(RejectionMessage(vars.filePath)))
    }

    /** CopilotActionBase.getPrompt: the action's own prompt (`rawPrompt`,
        what _getPrompt gives) with the variables filled in; what it returns
        holds no placeholder. */
    function GetPrompt(vars: Vars, rawPrompt: Result<Prompt, CopilotError>): (r: Result<Prompt, CopilotError>)
      ensures rawPrompt.Err? ==> r == rawPrompt
      ensures rawPrompt.Ok? ==>
        (r.Ok? <==> && !LeavesPlaceholder(FillAll(rawPrompt.value.prompt, Entries(vars)))
                    && !LeavesPlaceholder(FillAll(rawPrompt.value.systemPrompt, Entries(vars))))
      ensures rawPrompt.Ok? && LeavesPlaceholder(FillAll(rawPrompt.value.prompt, Entries(vars))) ==>
        r == Err(BadData(UnfilledPromptMessage + FillAll(rawPrompt.value.prompt, Entries(vars))))
      ensures r.Ok? ==>
        && rawPrompt.Ok?
        && r.value == Prompt(FillAll(rawPrompt.value.prompt, Entries(vars)),
                             FillAll(rawPrompt.value.systemPrompt, Entries(vars)))
        && !LeavesPlaceholder(r.value.prompt) && !LeavesPlaceholder(r.value.systemPrompt)
    {
      match rawPrompt
      case Err(e) => Err(e)
      case Ok(p) => FilledPrompt(p, Entries(vars))
    }

    /** CopilotActionBase.execute: the extension gate, then the prompt, then
        the model's answer; null when the action sees nothing to do, and
        otherwise the cleaned answer passed through onAfterExecute. */
    function Execute(vars: Vars, fileExtension: string -> string,
                     rawPrompt: Result<Prompt, CopilotError>, llm: Prompt -> RunResult,
                     isNoOperation: (Vars, RunResult) -> bool,
                     onAfterExecute: (RunResult, Vars) -> RunResult): (r: Result<Option<RunResult>, CopilotError>)
      reads this
      ensures !Accepted(acceptFileExtensions, fileExtension(vars.filePath)) ==>
        r == Err(NotAcceptedFileExtension(RejectionMessage(vars.filePath)))
      ensures r.Ok? ==> Accepted(acceptFileExtensions, fileExtension(vars.filePath)) && GetPrompt(vars, rawPrompt).Ok?
      ensures r.Ok? && r.value.Some? ==> !isNoOperation(vars, llm(GetPrompt(vars, rawPrompt).value))
    {
      var checkedVars :- OnBeforeExecute(vars, fileExtension);
      var prompt :- GetPrompt(checkedVars, rawPrompt);
      var result := llm(prompt);
      if isNoOperation(checkedVars, result) then Ok(None)
      else Ok(Some(onAfterExecute(Cleanup(result), checkedVars)))
    }

    /** CopilotActionBase.getPullRequestTitle: the product prefix, the action
        and, at the end, the file path. */
    function PullRequestTitle(vars: Vars): (r: string)
      reads this
      ensures |r| >= 19 + |vars.filePath| && r[..19] == "OneUptime Copilot: "
      ensures r[|r| - |vars.filePath|..] == vars.filePath
    {
      "OneUptime Copilot: " + actionType + " on " + vars.filePath
    }

    /** CopilotActionBase.getCommitMessage: the product prefix, the action
        and, at the end, the file path. */
    function CommitMessage(vars: Vars): (r: string)
      reads this
      ensures |r| >= 19 + |vars.filePath| && r[..19] == "OneUptime Copilot: "
      ensures r[|r| - |vars.filePath|..] == vars.filePath
    {
      "OneUptime Copilot: " + actionType + " on " + vars.filePath
    }
  }

  /** `s.split('.').pop()`: the text after the last '.', which holds no
      '.', ends the text, and follows a '.' unless it is the whole text. */
  function LastPiece(s: string): (ext: string)
    ensures '.' !in ext && |ext| <= |s| && s[|s| - |ext|..] == ext
    ensures |ext| == |s| || s[|s| - |ext| - 1] == '.'
  {
    var pieces := Split(s, ".");
    var ext := pieces[|pieces| - 1];
    IncludesIff(ext, ".");
    NotIncludesSingleChar(ext, '.');
    if |pieces| >= 2 then
      JoinLast(pieces, ".");
      ext
    else
      ext
  }

  /** The entry Array.find returns: the first that contains `ext`. */
  function FirstContaining(entries: seq<string>, ext: string): (r: Option<nat>)
    ensures r.None? ==> forall i :: 0 <= i < |entries| ==> !Includes(entries[i], ext)
    ensures r.Some? ==>
      && r.value < |entries| && Includes(entries[r.value], ext)
      && forall i :: 0 <= i < r.value ==> !Includes(entries[i], ext)
  {
    if |entries| == 0 then None
    else if Includes(entries[0], ext) then Some(0)
    else match FirstContaining(entries[1..], ext)
      case None => None
      case Some(i) => Some(i + 1)
  }

  /** The find's result is truthy: found and not the empty string. */
  predicate Accepted(entries: seq<string>, ext: string)
  {
    match FirstContaining(entries, ext)
    case None => false
    case Some(i) => entries[i] != ""
  }

  /** For a non-empty extension the gate passes exactly when some accepted
      entry contains it; for an empty extension every entry contains it, so
      the gate passes exactly when the first entry is non-empty. */
  lemma AcceptedIff(entries: seq<string>, ext: string)
    ensures ext != "" ==> (Accepted(entries, ext) <==> exists i :: 0 <= i < |entries| && Includes(entries[i], ext))
    ensures ext == "" ==> (Accepted(entries, ext) <==> |entries| > 0 && entries[0] != "")
  {
    if ext != "" {
      match FirstContaining(entries, ext)
      case None =>
      case Some(i) =>
        IncludesIff(entries[i], ext);
        var p: nat :| OccursAt(entries[i], ext, p);
    } else if |entries| > 0 {
      IncludesIff(entries[0], ext);
      assert OccursAt(entries[0], ext, 0);
    }
  }

  /** The base action's hooks: no prompt of its own, never a no-op, and an
      onAfterExecute that returns its argument. */
  const BasePrompt: Result<Prompt, CopilotError> := Err(NotImplemented)

  predicate BaseIsNoOperation(vars: Vars, result: RunResult) { false }

  function BaseOnAfterExecute(result: RunResult, vars: Vars): RunResult { result }

  /** The pipeline's order and outcome: an unaccepted file fails before the
      prompt is built; a prompt that cannot be filled fails before the model
      is asked; execute returns null exactly when isNoOperation holds of the
      answer, and otherwise the cleaned answer after onAfterExecute. */
  lemma ExecutePipeline(a: CopilotActionBase, vars: Vars, fileExtension: string -> string,
                        rawPrompt: Result<Prompt, CopilotError>, llm: Prompt -> RunResult,
                        isNoOperation: (Vars, RunResult) -> bool,
                        onAfterExecute: (RunResult, Vars) -> RunResult)
    ensures var r := a.Execute(vars, fileExtension, rawPrompt, llm, isNoOperation, onAfterExecute);
      && (a.OnBeforeExecute(vars, fileExtension).Err? ==> r == Err(a.OnBeforeExecute(vars, fileExtension).error))
      && (a.OnBeforeExecute(vars, fileExtension).Ok? && a.GetPrompt(vars, rawPrompt).Err? ==>
            r == Err(a.GetPrompt(vars, rawPrompt).error))
      && (a.OnBeforeExecute(vars, fileExtension).Ok? && a.GetPrompt(vars, rawPrompt).Ok? ==>
            var answer := llm(a.GetPrompt(vars, rawPrompt).value);
            && (r == Ok(None) <==> isNoOperation(vars, answer))
            && (!isNoOperation(vars, answer) ==> r == Ok(Some(onAfterExecute(Cleanup(answer), vars)))))
  {
  }

  /** With the base hooks, an accepted file with a fillable prompt yields the
      cleaned answer of the model; with the base prompt, execute always fails. */
  lemma ExecuteWithBaseHooks(a: CopilotActionBase, vars: Vars, fileExtension: string -> string,
                             rawPrompt: Result<Prompt, CopilotError>, llm: Prompt -> RunResult)
    requires Accepted(a.acceptFileExtensions, fileExtension(vars.filePath))
    ensures rawPrompt.Ok? && FilledPrompt(rawPrompt.value, Entries(vars)).Ok? ==>
      a.Execute(vars, fileExtension, rawPrompt, llm, BaseIsNoOperation, BaseOnAfterExecute)
        == Ok(Some(Cleanup(llm(FilledPrompt(rawPrompt.value, Entries(vars)).value))))
    ensures a.Execute(vars, fileExtension, BasePrompt, llm, BaseIsNoOperation, BaseOnAfterExecute)
      == Err(NotImplemented)
  {
  }

  /** The pull-request title and the commit message are the same text, and
      for one action two files get different titles. */
  lemma TitleIsCommitMessage(a: CopilotActionBase, v: Vars, w: Vars)
    ensures a.PullRequestTitle(v) == a.CommitMessage(v)
    ensures a.PullRequestTitle(v) == a.PullRequestTitle(w) ==> v.filePath == w.filePath
  {
    var prefix := "OneUptime Copilot: " + a.actionType + " on ";
    if a.PullRequestTitle(v) == a.PullRequestTitle(w) {
      assert a.PullRequestTitle(v) == prefix + v.filePath;
      assert a.PullRequestTitle(w) == prefix + w.filePath;
      assert v.filePath == (prefix + v.filePath)[|prefix|..];
      assert w.filePath == (prefix + w.filePath)[|prefix|..];
    }
  }
}
