# kubeai query resolver, modelled in Dafny

kubeai's `k8smonitor.py` is a small web service. It answers a plain-language
question about a Kubernetes cluster as follows:

1. It asks a completion service which `kubectl` command to run.
2. It cleans and validates the suggested command.
3. It runs the command and returns its output, formatted.
4. When it cannot do that, it returns manual steps.

This project models that decision logic as pure functions and proves what
it does for every input. The completion service and the process runner
are oracles. Their answers are parameters of the model:

- the suggestion text;
- the process outcome, as `Option<string>`, where `None` stands for a
  non-zero exit;
- the manual-steps text.

The resolver also returns a `Consulted` record. It holds the prompt that
was sent, the argument vector given to the process (or `None` when no
process was started) and the queries sent for manual steps. So "no process
is started" and "manual steps are fetched exactly once" are statements
about its result.

The project has three files:

- `pystr.dfy` (module `PyStr`) models the Python `str` operations the
  service uses: `strip`, `split()`, `replace`, `startswith`, `in`, and
  `str()` on a status code. Whitespace is the set that Python's
  `str.isspace()` accepts. `sep.join(parts)` and `endswith` are also
  defined, but the service never calls them. `join` is used only to state
  what `split()` produces. `endswith` is used only to state the shape of
  the completion calls' error texts.
- `k8smonitor.dfy` (modules `Options` and `K8sMonitor`) models:
  - the sanitizer and executor (`run_kubectl_command`);
  - the formatter (`prettify_output`);
  - the error texts of the two completion calls;
  - the resolver (`handle_query`).
- `scenarios.dfy` (module `Scenarios`) works through concrete requests.

Five facts about the code are easy to miss, and the model keeps each of
them:

- Validation is a raw character prefix test, so `kubectl-unsafe get` is
  accepted and run.
- There are two gates, and they are not redundant. A suggestion that
  mentions "kubectl" only in prose passes the substring gate but fails
  the prefix test after cleaning. It then gets the 500 answer with no
  process started, not the 400 answer.
- A process that succeeds with empty output is treated as a failure
  (500), because the code tests the output's truthiness.
- The formatted block shows the stripped suggestion, fences included, not
  the cleaned command. So the usual fenced suggestion gives
  "$ ```bash\nkubectl get pods\n```\n" followed by the output. That block
  spans several lines and cannot be split back into command and output,
  which is why PrettifyRoundTrip is stated only for single-line commands.
- A failed suggestion call never starts a process, because its error text
  starts with "Failed". If the failed reply's body mentions "kubectl", the
  error text passes the substring gate and fails validation, so the answer
  is 500, not 400. Otherwise it is 400.

## Model

| member | source | states |
|---|---|---|
| K8sMonitor.CleanCommand | k8smonitor.py:23-24 | after removing "```bash" and then "```" and stripping, the command has no whitespace at either end and contains no "```" marker anywhere, including one formed across a removed marker |
| K8sMonitor.CleanIdempotent | k8smonitor.py:23-24 | cleaning an already-cleaned command changes nothing |
| K8sMonitor.CleanUnfenced | k8smonitor.py:24 | a command without a "```" marker is cleaned by `strip()` alone |
| K8sMonitor.RunKubectlCommand | k8smonitor.py:23-38 | a process is started exactly when the cleaned command starts with "kubectl"; otherwise the result is None; when it runs, the result is the executor's outcome, and the argument vector is non-empty, has no empty token and no token containing whitespace, has a first token starting with "kubectl", and joined with single blanks equals the cleaned command with whitespace runs collapsed |
| K8sMonitor.Prettify | k8smonitor.py:96-102 | the block is "$ ", then the command, then a newline, then the output, with length equal to the sum of the parts plus 3 |
| K8sMonitor.ParsePrettified | k8smonitor.py:101 | whenever a block is read back into a command and an output, formatting those two reproduces the block |
| K8sMonitor.PrettifyRoundTrip | k8smonitor.py:101 | a command with no newline and any output are recovered exactly from their formatted block |
| K8sMonitor.SuggestionPrompt | k8smonitor.py:115 | the prompt is the fixed question prefix followed by the query, unchanged |
| K8sMonitor.SuggestionText | k8smonitor.py:62-68 | a 200 reply yields its message content; any other reply yields a text that starts with "Failed to send data to ChatGPT: " and ends with the reply body |
| K8sMonitor.ManualStepsText | k8smonitor.py:90-94 | a 200 reply yields its message content; any other reply yields a text that starts with "Failed to get manual steps from ChatGPT: " and ends with the reply body |
| K8sMonitor.SuggestionErrorMentionsKubectl | k8smonitor.py:68 | for a failed suggestion call, the error text contains "kubectl" if and only if the reply body does |
| K8sMonitor.HandleQuery | k8smonitor.py:104-142 | the status is 200, 400 or 500. 400 iff the suggestion lacks "kubectl", and then no process runs, manual steps are fetched once, and the body is the "did not suggest" header plus the steps. 200 iff it mentions "kubectl", the cleaned command is valid and the output is non-empty, and then the body is the formatted block of the stripped suggestion and no manual steps are fetched. 500 iff it mentions "kubectl" but validation failed or the output is None or empty, and then manual steps are fetched once and the body is the "can't be provided" header plus the steps. A process runs iff both gates pass, with the split of the cleaned command |
| K8sMonitor.SuggestionFailureFallsBack | k8smonitor.py:62-68 | a failed suggestion call whose body does not mention "kubectl" ends in the 400 answer with no process started |
| K8sMonitor.FailedSuggestionNeverRuns | k8smonitor.py:66-68 | for every failed suggestion call, no process is started and manual steps are fetched once; the answer is 400 if and only if the reply body does not mention "kubectl", and 500 if and only if it does |
| K8sMonitor.CleanKeepsHead | k8smonitor.py:24 | cleaning keeps a first character that is neither whitespace nor a backtick |
| PyStr.StripKeepsHead | k8smonitor.py:24 | `strip()` keeps a first character that is not whitespace, and the result is not empty |
| K8sMonitor.IsValidCommand | k8smonitor.py:27 | `startswith("kubectl")` on the cleaned command; its use is specified by RunKubectlCommand and LookalikeExecutableRuns |
| PyStr.IsWhitespace | k8smonitor.py:24 | the characters Python's `str.isspace()` accepts: tab to carriage return, file to unit separator, space, and the Unicode spaces and line and paragraph separators |
| PyStr.StartsWith | k8smonitor.py:27 | `s.startswith(p)`: `p` is a prefix of `s`; used by FirstTokenStartsWith and ContainsOfPrefix |
| PyStr.Contains | k8smonitor.py:120 | `p in s`: some suffix of `s` starts with `p`; specified by ContainsAppendLeft, ContainsAppendRight, ContainsAfterForeignPrefix, ShortNotContains and StripKeepsAbsence |
| PyStr.LStrip | k8smonitor.py:24 | `lstrip()`: never longer than its input and never starting with whitespace; specified fully by LStripSpec |
| PyStr.RStrip | k8smonitor.py:24 | `rstrip()`: never longer than its input; specified fully by RStripSpec |
| PyStr.Strip | k8smonitor.py:24 | `strip()`, that is `rstrip()` after `lstrip()`; specified by StripSpec, StripTrimmed and StripIdempotent |
| PyStr.Replace | k8smonitor.py:24 | `replace(pat, rep)`, left to right and without overlaps; specified by ReplaceAbsent, ReplaceForeignPrefix and RemovalLeavesNoFence |
| PyStr.Split | k8smonitor.py:33 | `split()` with no separator; specified by SplitTokens, JoinSplit, SplitJoin, SplitCons and FirstTokenStartsWith |
| PyStr.NatToString | k8smonitor.py:68 | `str(n)` in decimal; its characters are decimal digits (NatToStringDigits) |
| PyStr.LStripSpec | k8smonitor.py:24 | `lstrip()` keeps a suffix and removes only whitespace in front of it |
| PyStr.RStripSpec | k8smonitor.py:24 | `rstrip()` keeps a prefix that does not end in whitespace and removes only whitespace after it |
| PyStr.StripSpec | k8smonitor.py:24 | `strip()` leaves a trimmed infix of the text, with only whitespace on either side of it |
| PyStr.StripIdempotent | k8smonitor.py:122 | stripping twice is the same as stripping once |
| PyStr.ReplaceAbsent | k8smonitor.py:24 | `replace` on a text that does not contain the pattern returns the text unchanged |
| PyStr.ReplaceForeignPrefix | k8smonitor.py:24 | text in front that cannot begin the pattern passes through `replace` unchanged |
| PyStr.RemovalLeavesNoFence | k8smonitor.py:24 | after `replace("```", "")` the text contains no "```" |
| PyStr.StripKeepsAbsence | k8smonitor.py:24 | stripping cannot create a pattern that was absent |
| PyStr.TakeWordSpec | k8smonitor.py:33 | the first word is a whitespace-free prefix that ends at whitespace or at the end of the text |
| PyStr.SplitTokens | k8smonitor.py:33 | every token of `split()` is non-empty and free of whitespace |
| PyStr.SplitCons | k8smonitor.py:33 | a word followed by whitespace or by nothing is the first token of the split |
| PyStr.SplitJoin | k8smonitor.py:33 | any sequence of tokens joined with single blanks splits back into exactly that sequence |
| PyStr.JoinSplit | k8smonitor.py:33 | for a stripped text, joining the split with single blanks equals the text with each whitespace run collapsed to one blank |
| PyStr.FirstTokenStartsWith | k8smonitor.py:27-33 | if the text starts with a whitespace-free prefix, then the split is non-empty and its first token starts with that prefix |
| PyStr.NatToStringDigits | k8smonitor.py:68 | `str()` of a status code is a non-empty string of decimal digits |
| PyStr.ContainsAfterForeignPrefix | k8smonitor.py:120 | a pattern found in a text behind a prefix that holds no copy of the pattern's first character is found in the rest |
| Scenarios.ListAllPods | k8smonitor.py:120-130 | "kubectl get pods" with a table as output yields 200 and the formatted block |
| Scenarios.NoCommandSuggested | k8smonitor.py:138-142 | a suggestion with no "kubectl" yields 400, no process, and manual steps fetched once |
| Scenarios.FencedSuggestion | k8smonitor.py:23-130 | a fenced suggestion runs with the arguments ["kubectl", "get", "pods"], and the block shows the fenced text |
| Scenarios.LookalikeExecutableRuns | k8smonitor.py:27-33 | "kubectl-unsafe get" passes validation and is run with the arguments ["kubectl-unsafe", "get"] |
| Scenarios.ProseSuggestion | k8smonitor.py:120-136 | "Run kubectl get pods" passes the substring gate, fails validation, starts no process, and yields 500 |
| Scenarios.SilentSuccessFallsBack | k8smonitor.py:125-136 | a command that runs but prints nothing yields 500 |

## Left out

- The HTTP calls, their headers and JSON payloads (model name, system messages, `max_tokens`), and the JSON parsing of replies: these are network I/O through a foreign library. Their results enter as the `HttpReply` value or as the suggestion and steps strings.
- Process spawning: `check_output` is an oracle. Its answer is a parameter and does not depend on the argument vector. The code catches only a non-zero exit (k8smonitor.py:36), which the model's `None` outcome stands for. Any other error raised by `check_output` at line 33 escapes the resolver, and the caller gets the web framework's error page instead of the 500 manual-steps answer. Such errors arise from a missing or non-executable program, from output that cannot be decoded as text, or from a NUL character in an argument. These paths are not modelled. For example, for a suggestion such as "kubectl get\u0000pods" the model answers according to the outcome oracle, while the code raises.
- Process spawning also does not model that the executor merges stderr into the output.
- The Flask route, the extraction of `query` from the request body (a missing key gives the empty query, so the model takes the query string as given), `mimetype`, and the server start: these are web-framework plumbing.
- Logging: it has no effect on results.
- The command-line client and the packaging metadata: these are pure I/O and configuration.
- Exceptions from the completion calls: `requests.post` can raise on a connection failure or a timeout (k8smonitor.py:60,88). `response.json()` raises on a 200 reply whose body is not JSON (63,91). The lookup of the first choice's message content raises on a reply of another shape (65,92). A null content makes the substring test at line 120 raise. Nothing in `handle_query` catches these, so they escape the resolver and the caller gets the web framework's own error page, not a manual-steps body. The model's replies always carry a string content, and these paths are not modelled.
- PyStr.Replace: requires a non-empty pattern. The service only uses the two non-empty fence markers.
- K8sMonitor.SuggestionText: its contract fixes the prefix and the trailing reply body, but not the status code's digits and the ", " between them. The digits are covered by PyStr.NatToStringDigits.
- K8sMonitor.ManualStepsText: its contract fixes the prefix and the trailing reply body, but not the status code's digits and the ", " between them.
