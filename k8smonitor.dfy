/** A value that may be absent; Python's `None` for the executor's result. */
module Options {
  datatype Option<+T> = None | Some(value: T)
}

/** The query-resolution service of kubeai (k8smonitor.py): a suggested
    command is cleaned, validated and run; its output is formatted, or the
    caller gets manual steps instead.  The completion service and the
    process runner are oracles: their answers are parameters. */
module K8sMonitor {
  import opened Options
  import opened PyStr

  /** The only executable the service runs. */
  const Kubectl: string := "kubectl"

  /** The fence markers that are removed from a suggestion, in order. */
  const FenceBash: string := "```bash"
  const Fence: string := "```"

  const PromptPrefix: string :=
    "Based on the following query, what kubectl command should be run in a Kubernetes cluster? Query: "
  const NoCommandHeader: string :=
    "ChatGPT did not suggest a valid kubectl command.\nManual steps to perform the task:\n"
  const ExecFailedHeader: string :=
    "Automatic kubectl command can't be provided.\nManual steps to perform the task:\n"
  const SendFailedPrefix: string := "Failed to send data to ChatGPT: "
  const StepsFailedPrefix: string := "Failed to get manual steps from ChatGPT: "

  // ---------------------------------------------------------------------
  // Command sanitizer and executor (`run_kubectl_command`)

  /** Remove the "```bash" and "```" markers, then strip: the result has no
      marker left and no whitespace at either end. */
  function CleanCommand(command: string): (c: string)
    ensures Trimmed(c)
    ensures !Contains(c, Fence)
  {
    var unfenced := Replace(Replace(command, FenceBash, ""), Fence, "");
    RemovalLeavesNoFence(Replace(command, FenceBash, ""), Fence);
    StripKeepsAbsence(unfenced, Fence);
    StripSpec(unfenced);
    Strip(unfenced)
  }

  /** `startswith("kubectl")`: a raw prefix test on characters, so
      "kubectl-foo" passes. */
  predicate IsValidCommand(c: string) {
    StartsWith(c, Kubectl)
  }

  /** What happened inside `run_kubectl_command`: either validation refused
      the command and no process was started, or the process was started
      with `argv` and the executor answered `outcome` (None standing for a
      non-zero exit). */
  datatype Execution = NotRun | Ran(argv: seq<string>, outcome: Option<string>) {
    /** The value `run_kubectl_command` returns. */
    function Returned(): Option<string> {
      if Ran? then outcome else None
    }
  }

  function RunKubectlCommand(command: string, outcome: Option<string>): (e: Execution)
    ensures e.Ran? <==> IsValidCommand(CleanCommand(command))
    ensures e.NotRun? ==> e.Returned() == None
    ensures e.Ran? ==> e.Returned() == outcome
    ensures e.Ran? ==> |e.argv| > 0 && StartsWith(e.argv[0], Kubectl)
    ensures e.Ran? ==> forall k :: 0 <= k < |e.argv| ==> IsToken(e.argv[k])
    ensures e.Ran? ==> Join(e.argv, " ") == CollapseRuns(CleanCommand(command))
  {
    var c := CleanCommand(command);
    if !IsValidCommand(c) then NotRun
    else
      KubectlIsToken();
      FirstTokenStartsWith(c, Kubectl);
      SplitTokens(c);
      JoinSplit(c);
      Ran(Split(c), outcome)
  }

  lemma {:induction false} KubectlIsToken()
    ensures IsToken(Kubectl)
  {
    forall i | 0 <= i < |Kubectl|
      ensures !IsWhitespace(Kubectl[i])
    {
      assert Kubectl[i] in "kubectl";
    }
  }

  /** Cleaning an already-cleaned command changes nothing. */
  lemma {:induction false} CleanIdempotent(command: string)
    ensures CleanCommand(CleanCommand(command)) == CleanCommand(command)
  {
    var c := CleanCommand(command);
    if Contains(c, FenceBash) {
      ContainsPrefixOfPattern(c, FenceBash, Fence);
    }
    ReplaceAbsent(c, FenceBash, "");
    ReplaceAbsent(c, Fence, "");
    StripTrimmed(c);
  }

  /** A command without fence markers is cleaned by `strip()` alone. */
  lemma {:induction false} CleanUnfenced(command: string)
    requires !Contains(command, Fence)
    ensures CleanCommand(command) == Strip(command)
  {
    if Contains(command, FenceBash) {
      ContainsPrefixOfPattern(command, FenceBash, Fence);
    }
    ReplaceAbsent(command, FenceBash, "");
    ReplaceAbsent(command, Fence, "");
  }

  /** A text without a backtick holds no fence marker. */
  lemma {:induction false} NoBacktickNoFence(s: string)
    requires forall i :: 0 <= i < |s| ==> s[i] != '`'
    ensures !Contains(s, Fence)
  {
    NoFirstCharNoContains(s, Fence);
  }

  // ---------------------------------------------------------------------
  // Output formatter (`prettify_output`)

  /** The command in shell-prompt style, a newline, then the raw output. */
  function Prettify(command: string, output: string): (r: string)
    ensures |r| == |command| + |output| + 3
    ensures r[..2] == "$ " && r[2..|command| + 2] == command
    ensures r[|command| + 2] == '\n' && r[|command| + 3..] == output
  {
    "$ " + command + "\n" + output
  }

  /** Index of the first newline of `s`, or `|s|` when there is none. */
  function LineEnd(s: string): (n: nat)
    ensures n <= |s| && '\n' !in s[..n]
    ensures n < |s| ==> s[n] == '\n'
    decreases |s|
  {
    if s == [] || s[0] == '\n' then 0
    else
      var n := 1 + LineEnd(s[1..]);
      assert s[..n] == [s[0]] + s[1..][..n - 1];
      n
  }

  datatype Rendered = Rendered(command: string, output: string)

  /** Reads a formatted block back: the command is the first line after the
      "$ " prompt, the output is everything after that line. */
  function ParsePrettified(r: string): (p: Option<Rendered>)
    ensures p.Some? ==> Prettify(p.value.command, p.value.output) == r
  {
    if !StartsWith(r, "$ ") then None
    else
      var body := r[2..];
      var n := LineEnd(body);
      if n == |body| then None
      else
        assert r == "$ " + body[..n] + "\n" + body[n + 1..];
        Some(Rendered(body[..n], body[n + 1..]))
  }

  /** A single-line command and its output are recovered from the block. */
  lemma {:induction false} PrettifyRoundTrip(command: string, output: string)
    requires '\n' !in command
    ensures ParsePrettified(Prettify(command, output)) == Some(Rendered(command, output))
  {
    var r := Prettify(command, output);
    var body := r[2..];
    assert body == command + "\n" + output;
    LineEndAfter(command, output);
  }

  lemma {:induction false} LineEndAfter(line: string, rest: string)
    requires '\n' !in line
    ensures LineEnd(line + "\n" + rest) == |line|
    decreases |line|
  {
    if line != [] {
      assert (line + "\n" + rest)[0] == line[0];
      assert (line + "\n" + rest)[1..] == line[1..] + "\n" + rest;
      LineEndAfter(line[1..], rest);
    } else {
      assert (line + "\n" + rest)[0] == '\n';
    }
  }

  // ---------------------------------------------------------------------
  // Completion-service replies (`send_to_chatgpt`, `get_manual_steps`)

  /** What the completion endpoint answered: its status code, its raw body
      and, for a 200 reply, the content of the first choice's message. */
  datatype HttpReply = HttpReply(statusCode: nat, text: string, content: string)

  function SuggestionPrompt(query: string): (prompt: string)
    ensures StartsWith(prompt, PromptPrefix) && prompt[|PromptPrefix|..] == query
  {
    PromptPrefix + query
  }

  /** The text `send_to_chatgpt` hands back: the reply's content, or an error
      text embedding status code and body. */
  function SuggestionText(reply: HttpReply): (t: string)
    ensures reply.statusCode == 200 ==> t == reply.content
    ensures reply.statusCode != 200 ==>
      StartsWith(t, SendFailedPrefix) && EndsWith(t, reply.text)
  {
    if reply.statusCode == 200 then reply.content
    else SendFailedPrefix + NatToString(reply.statusCode) + ", " + reply.text
  }

  /** The text `get_manual_steps` hands back. */
  function ManualStepsText(reply: HttpReply): (t: string)
    ensures reply.statusCode == 200 ==> t == reply.content
    ensures reply.statusCode != 200 ==>
      StartsWith(t, StepsFailedPrefix) && EndsWith(t, reply.text)
  {
    if reply.statusCode == 200 then reply.content
    else StepsFailedPrefix + NatToString(reply.statusCode) + ", " + reply.text
  }

  /** An error text from the suggestion call mentions "kubectl" exactly when
      the body of the failed reply does: nothing the service adds around the
      body can form the word. */
  lemma {:induction false} SuggestionErrorMentionsKubectl(reply: HttpReply)
    requires reply.statusCode != 200
    ensures Contains(SuggestionText(reply), Kubectl) <==> Contains(reply.text, Kubectl)
  {
    var head := SendFailedPrefix + NatToString(reply.statusCode) + ", ";
    assert SuggestionText(reply) == head + reply.text;
    if Contains(reply.text, Kubectl) {
      ContainsAppendLeft(head, reply.text, Kubectl);
    }
    if Contains(SuggestionText(reply), Kubectl) {
      NatToStringDigits(reply.statusCode);
      assert forall i :: 0 <= i < |head| ==> head[i] != 'k';
      ContainsAfterForeignPrefix(head, reply.text, Kubectl);
    }
  }

  // ---------------------------------------------------------------------
  // Query resolver (`handle_query`)

  datatype Response = Response(status: nat, body: string)

  /** Which oracles one resolution consulted: the prompt sent for a
      suggestion, the argument vector given to the process (None when no
      process was started) and the queries sent for manual steps. */
  datatype Consulted = Consulted(prompt: string, argv: Option<seq<string>>, stepsQueries: seq<string>)

  datatype Resolution = Resolution(response: Response, consulted: Consulted)

  /** Resolve `query`, given the suggestion the completion service returns
      for its prompt, what the process runner returns for the command, and
      the manual steps the service returns for the query. */
  function HandleQuery(query: string, suggestion: string, outcome: Option<string>, steps: string): (res: Resolution)
    ensures res.consulted.prompt == SuggestionPrompt(query)
    ensures res.response.status in {200, 400, 500}
    // no "kubectl" anywhere: 400, no process, manual steps fetched once
    ensures res.response.status == 400 <==> !Contains(suggestion, Kubectl)
    ensures res.response.status == 400 ==>
      && res.response.body == NoCommandHeader + steps
      && res.consulted.argv == None
      && res.consulted.stepsQueries == [query]
    // a process ran and printed something: 200 with the formatted block
    ensures res.response.status == 200 <==>
      && Contains(suggestion, Kubectl)
      && IsValidCommand(CleanCommand(Strip(suggestion)))
      && outcome.Some? && outcome.value != []
    ensures res.response.status == 200 ==>
      && res.response.body == Prettify(Strip(suggestion), outcome.value)
      && res.consulted.stepsQueries == []
    // anything else after the gate: 500, manual steps fetched once
    ensures res.response.status == 500 <==>
      && Contains(suggestion, Kubectl)
      && !(IsValidCommand(CleanCommand(Strip(suggestion))) && outcome.Some? && outcome.value != [])
    ensures res.response.status == 500 ==>
      && res.response.body == ExecFailedHeader + steps
      && res.consulted.stepsQueries == [query]
    // a process is started only for a validated command
    ensures res.consulted.argv.Some? <==>
      Contains(suggestion, Kubectl) && IsValidCommand(CleanCommand(Strip(suggestion)))
    ensures res.consulted.argv.Some? ==>
      && res.consulted.argv.value == Split(CleanCommand(Strip(suggestion)))
      && |res.consulted.argv.value| > 0
      && StartsWith(res.consulted.argv.value[0], Kubectl)
  {
    var prompt := SuggestionPrompt(query);
    if Contains(suggestion, Kubectl) then
      var command := Strip(suggestion);
      var e := RunKubectlCommand(command, outcome);
      var argv := if e.Ran? then Some(e.argv) else None;
      var returned := e.Returned();
      if returned.Some? && returned.value != [] then
        Resolution(Response(200, Prettify(command, returned.value)), Consulted(prompt, argv, []))
      else
        Resolution(Response(500, ExecFailedHeader + steps), Consulted(prompt, argv, [query]))
    else
      Resolution(Response(400, NoCommandHeader + steps), Consulted(prompt, None, [query]))
  }

  /** A failed suggestion call whose body does not mention "kubectl" ends in
      the 400 fallback without starting a process. */
  lemma {:induction false} SuggestionFailureFallsBack(query: string, reply: HttpReply, outcome: Option<string>, steps: string)
    requires reply.statusCode != 200 && !Contains(reply.text, Kubectl)
    ensures var res := HandleQuery(query, SuggestionText(reply), outcome, steps);
      res.response == Response(400, NoCommandHeader + steps) && res.consulted.argv == None
  {
    SuggestionErrorMentionsKubectl(reply);
  }

  /** A failed suggestion call never starts a process: its error text begins
      with 'F', which survives stripping and cleaning, so validation fails.
      Manual steps are fetched once; the answer is 400 when the reply body
      does not mention "kubectl" and 500 when it does. */
  lemma {:induction false} FailedSuggestionNeverRuns(query: string, reply: HttpReply, outcome: Option<string>, steps: string)
    requires reply.statusCode != 200
    ensures var res := HandleQuery(query, SuggestionText(reply), outcome, steps);
      && res.consulted.argv == None
      && res.consulted.stepsQueries == [query]
      && (res.response.status == 400 <==> !Contains(reply.text, Kubectl))
      && (res.response.status == 500 <==> Contains(reply.text, Kubectl))
  {
    var t := SuggestionText(reply);
    SuggestionErrorMentionsKubectl(reply);
    assert t[0] == 'F' by {
      assert t == SendFailedPrefix + (NatToString(reply.statusCode) + ", " + reply.text);
    }
    StripKeepsHead(t);
    CleanKeepsHead(Strip(t));
    assert !IsValidCommand(CleanCommand(Strip(t))) by {
      assert Kubectl[0] == 'k';
    }
  }

  /** Cleaning keeps a first character that is neither whitespace nor a
      backtick. */
  lemma {:induction false} CleanKeepsHead(x: string)
    requires x != [] && !IsWhitespace(x[0]) && x[0] != '`'
    ensures CleanCommand(x) != [] && CleanCommand(x)[0] == x[0]
  {
    var a := Replace(x, FenceBash, "");
    assert a == [x[0]] + Replace(x[1..], FenceBash, "") by {
      assert x == [x[0]] + x[1..];
      ReplaceForeignPrefix([x[0]], x[1..], FenceBash, "");
    }
    var b := Replace(a, Fence, "");
    assert b == [x[0]] + Replace(a[1..], Fence, "") by {
      assert a == [x[0]] + a[1..];
      ReplaceForeignPrefix([x[0]], a[1..], Fence, "");
    }
    StripKeepsHead(b);
  }
}
