# commit_maker, modelled in Dafny

commit_maker is a command-line tool. It reads the working-tree status and the staged diff from git, asks a language model for a commit message, and shows the message to the user. It commits on `y`, asks for a new draft on `r`, and stops on anything else. The model is either hosted (Mistral) or local (Ollama). This project models the four parts of the tool that make decisions:

- **`cut_think`** (`types.dfy`, `cut_think.dfy`, module `CutThinkPart`). Some models wrap their reasoning in `<think>…</think>`. The tool deletes every such block, together with the whitespace around it, using one `re.sub` call.
  - `CutThink` is a left-to-right scan: where a match starts it skips the match, elsewhere it keeps one character.
  - `MatchLen` is the match Python's engine picks at a position: a greedy `\s*`, `<think>`, the shortest body up to the first `</think>`, and a greedy `\s*`.
  - Whitespace (`IsSpace`) is CPython's `str.isspace` table, written out as a set of characters. The model takes this table as given; it is not derived from anything.
- **`bold` and `colored`** (`colored.dfy`, module `Colored`). These add fixed ANSI escape prefixes and suffixes. `colored` looks its colour up in a table of seven names; any other name raises `KeyError`, which the model returns as `Failure(KeyError(name))`.
- **`main()` of `src/commit_maker/main.py`** (`workflow.dfy`, module `Workflow`; shared pieces are in `shell.dfy`, module `Shell`). The program's surroundings are inputs:
  - the outputs of the git commands (`Repo`);
  - what the Ollama server reports (`Daemon`);
  - the lines typed at the yes/no prompts (`answers`);
  - the numbers typed at the model picker (`picks`);
  - the raw text returned for the i-th generation (`reply(i)`).

  A run returns an `Outcome`, the ordered trace of commands it started, and the requests it sent. When the answers or picks run out, the user has hit end of input or Ctrl+C at a prompt, and the run stops (`InputEnded`).
- **The older `commit_maker.py`** (`legacy.dfy`, module `Legacy`).
  - `MistralAI` is a class whose `messages` field is the conversation. Each `Message` call appends one entry and sends the whole conversation to the service, modelled as a function `server(model, messages)`.
  - `Run` is that file's `main()`. It asks for drafts while the answer is `retry` and commits everything on `y`. A failed request leaves the draft as `None`, and as written the commit message is then the literal text `None`.

Two behaviours of the code are worth stating outright:
- **Nested and spliced blocks.** `cut_think` (src/commit_maker/cut_think_part.py:5) makes one left-to-right pass with a lazy body, so a block ends at the first `</think>` after its `<think>`:
  - a nested block leaves its tail behind: `<think>a<think>b</think>c</think>` becomes `c</think>` (`NestedBlockLeavesTail`);
  - removing a block can splice a new block together from the text on either side of it, which the same pass does not revisit, so a second call removes more: `<thi<think>x</think>nk>a</think>` becomes `<think>a</think>`, and that becomes the empty string (`NotIdempotent`).
- **Exclusions after auto-staging.** The `--exclude` option is described as "Files to exclude when generating commit message" (main.py:89), and the first staged diff leaves those files out (main.py:171-175). When nothing was staged and the user agrees to `git add -A`, however, the staged diff is read again without the exclusions (main.py:229-234), so the excluded files' content is sent to the model. `CollectChanges` states this.

The branch at main.py:295-302 cannot be reached: with local models, an empty or missing catalog has already returned at lines 256-290. The model therefore has no path for it.

## Model

| member | source | states |
|---|---|---|
| `CutThinkPart.SpaceRun` | src/commit_maker/cut_think_part.py:5 | a greedy `\s*` consumes the longest run of whitespace: every character up to the result is whitespace, and the next one is not (or the text ends) |
| `CutThinkPart.FindFrom` | src/commit_maker/cut_think_part.py:5 | the lazy `.*?` stops at the first `</think>` at or after the position; `None` exactly when none follows |
| `CutThinkPart.MatchLen` | src/commit_maker/cut_think_part.py:5 | the match at the start of the text, when there is one, is at least as long as `<think></think>` and no longer than the text |
| `CutThinkPart.MatchLenIsPreferred` | src/commit_maker/cut_think_part.py:5 | `MatchLen` finds a match the pattern accepts, with no `</think>` before its end and the trailing whitespace taken whole; it finds nothing exactly when no prefix matches the pattern |
| `CutThinkPart.PreferredIsMatchLen` | src/commit_maker/cut_think_part.py:5 | the engine's preferred match is unique: any match with those properties is the one `MatchLen` returns |
| `CutThinkPart.PreferredAtIsMatchLen` | src/commit_maker/cut_think_part.py:5 | leading whitespace, `<think>`, a body without `</think>`, `</think>` and a whitespace run not followed by whitespace, given by their positions, make exactly the match `MatchLen` finds |
| `CutThinkPart.CutThink` | src/commit_maker/cut_think_part.py:4-6 | the output is never longer than the input |
| `CutThinkPart.CutThinkIsSubsequence` | src/commit_maker/cut_think_part.py:5-6 | the output is the input with characters deleted, in order: the unmatched segments concatenated |
| `CutThinkPart.NoThinkUnchanged` | src/commit_maker/cut_think_part.py:5 | a message without `<think>` comes back unchanged |
| `CutThinkPart.NoCloseUnchanged` | src/commit_maker/cut_think_part.py:5 | a message without `</think>` comes back unchanged |
| `CutThinkPart.UnclosedThinkKept` | src/commit_maker/cut_think_part.py:5 | a `<think>` with no `</think>` after it is kept, with everything after it: the output ends with that suffix of the input |
| `CutThinkPart.MatchEndsBeforeUnclosed` | src/commit_maker/cut_think_part.py:5 | no match extends past a `<think>` that has no `</think>` after it |
| `CutThinkPart.BlockRemoved` | src/commit_maker/cut_think_part.py:5 | text that holds no `<think>` and is empty or ends in a non-space, then whitespace, a block up to its first `</think>` (across newlines), whitespace, and a rest that is empty or starts with a non-space: the text in front is kept verbatim, the block and both whitespace runs are deleted, and the scan goes on over the rest, so every complete block is removed. Both side conditions matter: the text in front loses trailing whitespace (`"a "` + `<think>x</think>` + `"b"` gives `"ab"`), and the rest loses leading whitespace |
| `CutThinkPart.PrefixKept` | src/commit_maker/cut_think_part.py:5 | text that holds no `<think>` and ends in a non-space, followed by text that starts with `<` or whitespace, is kept verbatim in front of whatever the scan makes of what follows |
| `CutThinkPart.BlockAtStart` | src/commit_maker/cut_think_part.py:5 | a block with its surrounding whitespace at the start of the text, given by the positions of its parts, is removed, and the scan resumes right after it |
| `CutThinkPart.NestedBlockLeavesTail` | src/commit_maker/cut_think_part.py:5 | blocks do not nest: `<think>a<think>b</think>c</think>` becomes `c</think>` |
| `CutThinkPart.NotIdempotent` | src/commit_maker/cut_think_part.py:5 | `<thi<think>x</think>nk>a</think>` becomes `<think>a</think>`, which a second pass reduces to the empty string |
| `Colored.Lookup` | src/commit_maker/colored.py:45-53 | the colour table accepts exactly the seven names, and the colour found carries the name asked for |
| `Colored.Bold` | src/commit_maker/colored.py:4-15 | the output is `ESC[1m`, then the text, then `ESC[0m`, and its length is the text's plus 8 |
| `Colored.Unbold` | src/commit_maker/colored.py:13-15 | whatever `Unbold` recovers, bolding it gives back the input |
| `Colored.UnboldBold` | src/commit_maker/colored.py:13-15 | `Unbold` undoes `Bold` for every text |
| `Colored.ColoredText` | src/commit_maker/colored.py:18-58 | succeeds exactly for the seven table names; any other name fails with `KeyError` of that name |
| `Colored.ColoredPlain` | src/commit_maker/colored.py:57 | without bold, the output is the colour's code, the text and `ESC[0m` |
| `Colored.ColoredBoldIsBoldOfPlain` | src/commit_maker/colored.py:54-56 | with bold, the output is `bold` of the plain output, and bold is the default |
| `Colored.ColoredLength` | src/commit_maker/colored.py:38-58 | the output's length is the text's plus a constant that depends only on the colour and on boldness |
| `Colored.StripColored` | src/commit_maker/colored.py:38-58 | stripping the fixed prefix and suffix from an output recovers the text, and only outputs of `colored` strip to that text |
| `Shell.LeadingRepeats` | src/commit_maker/main.py:364-397 | counts the leading answers equal to the retry token: all answers before the count are that token, and the answer at the count is not |
| `Shell.InitRepository` | src/commit_maker/main.py:436-477 | `git init` runs exactly on a first answer `y`; the add-all and `'Initial commit'` pair runs exactly on a second `y`, and nothing else runs: the commands are exactly `git init` (on the first `y`) followed by that pair (on the second `y`); it reads one answer, and a second one only after a first `y`; the run ends declined on a first other answer, and at end of input when the answers run out |
| `Workflow.Exclusions` | src/commit_maker/main.py:173 | one `:!` pathspec per excluded file, in order |
| `Workflow.StagedDiffCommand` | src/commit_maker/main.py:171-175 | without exclusions, exactly `git diff --staged`; with exclusions, `git diff --staged -- .` followed by `:!f` for each excluded `f`, in order |
| `Workflow.ExcludedFilesRoundTrip` | src/commit_maker/main.py:171-175 | the excluded files can be read back from the command, so no file is lost, added or reordered |
| `Workflow.StagePromptAnswers` | src/commit_maker/main.py:199-224 | the staging prompt takes at most one answer, and only when nothing is staged |
| `Workflow.Collection` | src/commit_maker/main.py:184-234 | collecting succeeds exactly when there are changes and either something is staged or, outside a dry run, the user answers `y` to staging everything, and then yields the staged diff, or the one re-read after staging when nothing was staged |
| `Workflow.CollectTrace` | src/commit_maker/main.py:157-246 | the collection commands begin with `git status`, `git ls-files --others --exclude-standard` and the filtered staged diff |
| `Workflow.CollectTraceCommands` | src/commit_maker/main.py:157-246 | the collection commands contain no commit, and contain `git add -A` exactly when there are changes, nothing is staged, it is not a dry run and the staging answer is `y` |
| `Workflow.CollectTraceDiffs` | src/commit_maker/main.py:184-246 | `git diff` runs once for the no-changes test exactly when nothing is untracked or staged (the short-circuiting `and`), and once more, as the last collection command, exactly when collecting succeeds |
| `Workflow.CollectChanges` | src/commit_maker/main.py:157-246 | runs exactly the commands `CollectTrace` lists and yields exactly what `Collection` describes; it takes exactly the answers `StagePromptAnswers` counts; succeeds exactly when there are changes and either something is staged or, outside a dry run, the answer to the staging prompt is `y`; each stop carries its own reason: no changes exactly when untracked, staged and unstaged are all empty, nothing staged in a dry run, staging declined on an answer other than `y`, end of input when there is no answer; the diff used is the staged one or the one re-read after staging |
| `Workflow.FirstValidPick` | src/commit_maker/main.py:324-338 | the position of the first number in `1..size`: every number before it is outside that range, and the number at it is inside, unless no number is |
| `Workflow.PickModel` | src/commit_maker/main.py:324-338 | re-prompts past every number outside `1..len(catalog)`, and selects `catalog[n-1]` for the first number `n` inside, as `FirstValidPick` finds it; selects nothing exactly when no number is inside |
| `Workflow.BackendFor` | src/commit_maker/main.py:248-363 | the hosted model `mistral-large-latest` unless local models are asked for, and `--model` without them stops the run; locally, stops when Ollama is missing, not serving or lists no model; a requested model must be listed; a single listed model is taken; otherwise the run succeeds exactly when some number typed at the picker is valid, and stops at end of input otherwise; a chosen local model is always listed and needs a running server |
| `Workflow.ChooseBackend` | src/commit_maker/main.py:248-363 | runs `ollama --version` exactly when local models are asked for, and returns the client `BackendFor` describes; with several listed models and no `--model`, that is `catalog[n-1]` for the first valid number `n` |
| `Workflow.Preparation` | src/commit_maker/main.py:157-363 | the preparation succeeds exactly when the changes are collected and `BackendFor` chooses a client |
| `Workflow.Prepare` | src/commit_maker/main.py:157-363 | yields exactly `Preparation`: the request to the client `BackendFor` chooses, carrying `Git status: ` + status + `Git diff: ` + the diff used, or the stop of collecting (its own reason, as `Collection` gives it) or of choosing the client (Ollama missing, not serving, an empty catalog, an unlisted `--model`); runs exactly the collection commands followed by `ollama --version` when the changes are collected and local models are asked for; takes the staging prompt's answers and stages everything exactly on `y` there; no commit is issued |
| `Workflow.PrepareTraceCommands` | src/commit_maker/main.py:157-255 | the commands before the first request contain no commit, and contain `git add -A` exactly on `y` at the staging prompt |
| `Workflow.RepositoryTraceFacts` | src/commit_maker/main.py:157-402 | in the commands of a run inside a repository, a commit can only be the last command, one appears exactly when the outcome is a commit, and `git add -A` appears exactly on `y` at the staging prompt |
| `Workflow.ReviewDrafts` | src/commit_maker/main.py:364-397 | the number of generations is 1 plus the number of leading `r` answers (fewer only if a reply is empty); the loop accepts exactly when the first answer other than `r` is exactly `y`; the accepted message is the last reply with its think blocks cut |
| `Workflow.Generate` | src/commit_maker/main.py:364-433 | a dry run sends one request, prints the cut reply and never commits; otherwise, with k the number of leading `r` answers, at most k + 1 requests go out, each after the previous one got a reply, and exactly k + 1 unless a reply is empty (`LoopRule`); the single commit command is `git commit -m` with the accepted draft verbatim, issued exactly when answer k is `y`; declined exactly when answer k is something else, and ended exactly when there is no answer k; a committed, declined or printed message is the cut reply to the last request (`ShowsCutReply`) |
| `Workflow.RunInRepository` | src/commit_maker/main.py:157-433 | inside a repository: the commands are exactly the collection commands, `ollama --version` for local models once the changes are collected, and the commit if the outcome is one (`RepositoryTrace`); when no request went out, the outcome is the preparation's stop with its own reason; requests go out exactly once the changes are collected and `BackendFor` chooses a client, each to that client; `git add -A` runs exactly on `y` at the staging prompt; the committed message is the last cut reply (`ShowsCutReply`); with k the leading `r` answers after the staging prompt: at most k + 1 requests outside a dry run, each after a reply to the previous one, an empty reply exactly when generation failed, and once the last request got a reply there were k + 1 requests and answer k decides between commit, decline and end of input; a dry run that got its reply prints the cut reply (`ReviewRule`) |
| `Workflow.Run` | src/commit_maker/main.py:134-481 | no API key for the hosted backend stops the run before any command; otherwise `git --version` runs first; inside a repository the commands are exactly `git --version` followed by `RepositoryTrace`, and when no request went out the outcome is the preparation's stop with its own reason; every request carries the same status and diff to the client `BackendFor` chooses, and requests go out exactly once the changes are collected and a client is chosen; in a repository `git add -A` runs exactly on `y` at the staging prompt, a commit command appears exactly when the outcome is a commit, and the review loop's rules hold for the answers after the staging prompt (`ReviewRule`); a commit is only ever the last command, of the last cut reply; a dry run generates at most once and commits nothing; without a repository nothing is generated, `git init` runs exactly on a first `y`, the first commit exactly on a second `y`, and the commands are exactly `git --version`, then `git init` on the first `y`, then add-all and `'Initial commit'` on the second |
| `Legacy.MistralAI.constructor` | commit_maker.py:23-39 | a new client has the model `mistral-small-latest` and an empty conversation |
| `Legacy.MistralAI.Message` | commit_maker.py:41-75 | appends exactly one `{role, content}` entry (role `user` by default), leaves the earlier entries and the model unchanged, and returns the service's answer to the whole conversation |
| `Legacy.Run` | commit_maker.py:84-179 | stops without creating a client when status and diff are both empty; otherwise the conversation ends with k+1 identical user entries, where k is the number of leading `retry` answers; a commit, preceded by `git add -A`, happens exactly when the first other answer is `y`, with the last reply's text (`None` for a failed request) as the message; the run ends declined exactly when that answer is something else, and at end of input exactly when there is none; without `.git` no client is created, `git init` runs exactly on a first `y`, the add-all and `'Initial commit'` pair exactly on a second `y`, and the commands are exactly `git --version`, then `git init` on the first `y`, then that pair on the second |

## Left out

- The HTTP clients `src/commit_maker/ollama.py` and `src/commit_maker/mistral.py` are network I/O. Their answers are the input `reply(i)`.
- The client call signature is not modelled. As written, main.py:372-388 passes `messages=` and `timeout=`. The clients' `message` methods take `message=`, and the hosted one has no `timeout`. The real call would therefore raise, and main.py:480-481 would catch it. The model treats the call as returning a reply, as the flow evidently intends.
- The system message is not modelled: the generation prompt with language, length limit and user wishes (main.py:124-132). Requests carry only the user message and the chosen client.
- Temperature and timeout are not modelled. They are passed through and never computed with.
- Console output is not modelled: the spinner, the "Selected model" line, and the note about unstaged changes (main.py:235-246). The `git diff` that decides the note is in the command trace; its output decides nothing else.
- The argparse surface, the package version lookup and `src/commit_maker/rich_custom_formatter.py` are left out: they contain no decisions.
- `custom_int_prompt` is not part of this model. Its answers are the integers in `picks`.
- Failures of `git --version` are not modelled. The model assumes git can be started.
- An unreachable Ollama server is folded into `OllamaNotServing`. In the code, `requests.get` raises and the generic handler at main.py:480-481 reports it. A malformed JSON catalog is left out.
- Exceptions other than end of input at a prompt are left out. End of input, Ctrl+C and the generic handler all end a run without a commit, so both programs' handlers are modelled as `InputEnded`.
- In commit_maker.py, reading `MISTRAL_API_KEY` at import time is left out: a missing key fails before `main()` runs. Also left out are the request building (URL, headers, JSON encoding), the printing of HTTP errors, and a reply whose JSON lacks the expected fields.
- CutThinkPart.IsSpace: uses CPython's `str.isspace` table, taken as given. No Unicode database is modelled.
- CutThinkPart.CutThink: its own contract only bounds the length. What it removes and keeps is stated by the lemmas listed above.
