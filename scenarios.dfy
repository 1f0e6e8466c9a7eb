/** Worked requests through the resolver, one per behaviour the service
    promises or exhibits. */
module Scenarios {
  import opened Options
  import opened PyStr
  import opened K8sMonitor

  /** A plain suggestion that runs and prints a table is answered with the
      formatted block and status 200. */
  lemma {:induction false} ListAllPods(steps: string)
    ensures HandleQuery("list all pods", "kubectl get pods", Some("NAME  READY\npod-a  1/1"), steps).response
      == Response(200, "$ " + "kubectl get pods" + "\n" + "NAME  READY\npod-a  1/1")
  {
    var s := "kubectl get pods";
    assert StartsWith(s, Kubectl);
    StripTrimmed(s);
    NoBacktickNoFence(s);
    CleanUnfenced(s);
    ContainsOfPrefix(s, Kubectl);
    var out := "NAME  READY\npod-a  1/1";
    var res := HandleQuery("list all pods", s, Some(out), steps);
    assert res.response.status == 200;
    assert res.response.body == Prettify(s, out);
  }

  /** A suggestion that is not a command at all never reaches the process
      runner: status 400 with the manual steps. */
  lemma {:induction false} NoCommandSuggested(outcome: Option<string>, steps: string)
    ensures var res := HandleQuery("do something impossible", "I cannot determine a command", outcome, steps);
      res.response == Response(400, NoCommandHeader + steps) && res.consulted.argv == None
      && res.consulted.stepsQueries == ["do something impossible"]
  {
    NoFirstCharNoContains("I cannot determine a command", Kubectl);
  }

  /** The fenced form the completion service usually answers with: the
      process gets the bare command, the formatted block shows the fences. */
  lemma {:induction false} FencedSuggestion(output: string, steps: string)
    requires output != []
    ensures var suggestion := "```bash\nkubectl get pods\n```";
      var res := HandleQuery("list all pods", suggestion, Some(output), steps);
      && res.consulted.argv == Some(["kubectl", "get", "pods"])
      && res.response == Response(200, Prettify(suggestion, output))
  {
    FencedAccepted();
    SplitGetPods("kubectl get pods");
  }

  lemma {:induction false} FencedAccepted()
    ensures Contains("```bash\nkubectl get pods\n```", Kubectl)
    ensures Strip("```bash\nkubectl get pods\n```") == "```bash\nkubectl get pods\n```"
    ensures CleanCommand("```bash\nkubectl get pods\n```") == "kubectl get pods"
    ensures IsValidCommand("kubectl get pods")
  {
    assert StartsWith("kubectl get pods", Kubectl);
    StripTrimmed("```bash\nkubectl get pods\n```");
    FencedMentionsKubectl();
    CleanFenced();
  }

  lemma {:induction false} FencedMentionsKubectl()
    ensures Contains("```bash\nkubectl get pods\n```", Kubectl)
  {
    var cmd := "kubectl get pods";
    assert "```bash\nkubectl get pods\n```" == "```bash\n" + (cmd + "\n```");
    ContainsOfPrefix(cmd, Kubectl);
    ContainsAppendRight(cmd, "\n```", Kubectl);
    ContainsAppendLeft("```bash\n", cmd + "\n```", Kubectl);
  }

  lemma {:induction false} CleanFenced()
    ensures CleanCommand("```bash\nkubectl get pods\n```") == "kubectl get pods"
  {
    DropBashFence();
    DropFence();
    StripInner();
  }

  lemma {:induction false} DropBashFence()
    ensures Replace("```bash\nkubectl get pods\n```", FenceBash, "") == "\nkubectl get pods\n```"
  {
    var suggestion := "```bash\nkubectl get pods\n```";
    var inner := "\nkubectl get pods\n";
    assert suggestion[..|FenceBash|] == FenceBash;
    assert suggestion[|FenceBash|..] == inner + Fence;
    ShortNotContains(Fence, FenceBash);
    ReplaceForeignPrefix(inner, Fence, FenceBash, "");
  }

  lemma {:induction false} DropFence()
    ensures Replace("\nkubectl get pods\n```", Fence, "") == "\nkubectl get pods\n"
  {
    var inner := "\nkubectl get pods\n";
    ReplaceForeignPrefix(inner, Fence, Fence, "");
    assert Replace(Fence, Fence, "") == "";
    assert inner + Fence == "\nkubectl get pods\n```";
    assert inner + "" == inner;
  }

  lemma {:induction false} StripInner()
    ensures Strip("\nkubectl get pods\n") == "kubectl get pods"
  {
    var inner := "\nkubectl get pods\n";
    assert LStrip(inner) == LStrip(inner[1..]);
    assert LStrip(inner) == "kubectl get pods\n";
    assert RStrip("kubectl get pods\n") == "kubectl get pods";
  }

  lemma {:induction false} SplitGetPods(s: string)
    requires s == "kubectl get pods"
    ensures Split(s) == ["kubectl", "get", "pods"]
  {
    var ts := ["kubectl", "get", "pods"];
    GetPodsWords(s, ts);
    SplitJoin(ts);
  }

  lemma {:induction false} GetPodsWords(s: string, ts: seq<string>)
    requires s == "kubectl get pods" && ts == ["kubectl", "get", "pods"]
    ensures Join(ts, " ") == s
    ensures forall k :: 0 <= k < |ts| ==> IsToken(ts[k])
  {
    var k, get, pods := "kubectl", "get", "pods";
    WordIsToken(k);
    WordIsToken(get);
    WordIsToken(pods);
    JoinThree(k, get, pods, " ");
    assert " " + pods == " pods";
    assert get + " pods" == "get pods";
    assert " " + "get pods" == " get pods";
    assert k + " get pods" == "kubectl get pods";
  }

  lemma {:induction false} JoinThree(a: string, b: string, c: string, sep: string)
    ensures Join([a, b, c], sep) == a + (sep + (b + (sep + c)))
  {
    JoinCons(b, [c], sep);
    JoinCons(a, [b, c], sep);
    assert [b] + [c] == [b, c];
    assert [a] + [b, c] == [a, b, c];
  }

  lemma {:induction false} WordIsToken(w: string)
    requires w in {"kubectl", "get", "pods", "kubectl-unsafe"}
    ensures IsToken(w)
  {
    forall i | 0 <= i < |w| ensures !IsWhitespace(w[i]) {
      assert w[i] in "kubectlgetpods-unsafe";
    }
  }

  /** Validation is a prefix test on characters: an executable whose name
      merely begins with "kubectl" is run. */
  lemma {:induction false} LookalikeExecutableRuns(outcome: Option<string>)
    ensures RunKubectlCommand("kubectl-unsafe get", outcome) == Ran(["kubectl-unsafe", "get"], outcome)
  {
    LookalikeAccepted();
    SplitLookalike("kubectl-unsafe get");
  }

  lemma {:induction false} LookalikeAccepted()
    ensures CleanCommand("kubectl-unsafe get") == "kubectl-unsafe get"
    ensures IsValidCommand("kubectl-unsafe get")
  {
    var c := "kubectl-unsafe get";
    assert StartsWith(c, Kubectl);
    StripTrimmed(c);
    NoBacktickNoFence(c);
    CleanUnfenced(c);
  }

  lemma {:induction false} SplitLookalike(s: string)
    requires s == "kubectl-unsafe get"
    ensures Split(s) == ["kubectl-unsafe", "get"]
  {
    var k, get := "kubectl-unsafe", "get";
    var ts := [k, get];
    WordIsToken(k);
    WordIsToken(get);
    SplitJoin(ts);
    assert Join(ts, " ") == s by {
      JoinCons(k, [get], " ");
      assert [k] + [get] == ts;
      assert " " + get == " get";
      assert k + " get" == "kubectl-unsafe get";
    }
  }

  /** A suggestion that mentions "kubectl" in prose passes the substring gate
      but fails validation: no process is started and the answer is the
      500 fallback, not the 400 one. */
  lemma {:induction false} ProseSuggestion(outcome: Option<string>, steps: string)
    ensures var res := HandleQuery("list all pods", "Run kubectl get pods", outcome, steps);
      && res.response == Response(500, ExecFailedHeader + steps)
      && res.consulted.argv == None
      && res.consulted.stepsQueries == ["list all pods"]
  {
    var s := "Run kubectl get pods";
    StripTrimmed(s);
    NoBacktickNoFence(s);
    CleanUnfenced(s);
    assert !StartsWith(s, Kubectl) by { assert s[0] != Kubectl[0]; }
    ProseMentionsKubectl();
  }

  lemma {:induction false} ProseMentionsKubectl()
    ensures Contains("Run kubectl get pods", Kubectl)
  {
    var cmd := "kubectl get pods";
    assert "Run kubectl get pods" == "Run " + cmd;
    ContainsOfPrefix(cmd, Kubectl);
    ContainsAppendLeft("Run ", cmd, Kubectl);
  }

  /** A command that succeeds without printing anything counts as failed:
      the process ran, yet the answer is the 500 fallback. */
  lemma {:induction false} SilentSuccessFallsBack(steps: string)
    ensures var res := HandleQuery("list all pods", "kubectl get pods", Some(""), steps);
      && res.response == Response(500, ExecFailedHeader + steps)
      && res.consulted.argv.Some?
  {
    GetPodsAccepted();
  }

  lemma {:induction false} GetPodsAccepted()
    ensures Contains("kubectl get pods", Kubectl)
    ensures IsValidCommand(CleanCommand(Strip("kubectl get pods")))
  {
    var s := "kubectl get pods";
    assert StartsWith(s, Kubectl);
    StripTrimmed(s);
    NoBacktickNoFence(s);
    CleanUnfenced(s);
    ContainsOfPrefix(s, Kubectl);
  }
}
