/**
 * The decision flow of `main()` in `src/commit_maker/main.py`: collect the
 * staged changes (staging everything on request), pick the backend and the
 * local model, then generate drafts until the user accepts or rejects one,
 * or print a single draft in a dry run.
 *
 * Everything outside the program is an input: what each git command
 * prints (`Repo`), what the local model server reports (`Daemon`), the
 * lines typed at the yes/no prompts (`answers`), the numbers typed at the
 * model picker (`picks`) and the raw text the language model returns for
 * the i-th request (`reply(i)`, `None` when the client returned nothing).
 * The commands the program runs come out as an ordered trace.
 */
module Workflow {
  import opened Types
  import opened Shell
  import CutThinkPart

  /** The command-line options that steer the flow. */
  datatype Options = Options(
    useLocal: bool,          // --local-models
    dryRun: bool,            // --dry-run
    model: string,           // --model; "" when not given (Python treats it as false)
    excluded: seq<string>,   // --exclude; [] when not given
    hasApiKey: bool)         // MISTRAL_API_KEY is set and not empty

  /** What the git commands print, in the order the flow asks for them. */
  datatype Repo = Repo(
    hasDotGit: bool,         // ".git" is listed in the working directory
    status: string,          // git status
    untracked: string,       // git ls-files --others --exclude-standard
    staged: string,          // the staged-diff command, exclusions applied
    unstaged: string,        // git diff
    restaged: string)        // git diff --staged, after git add -A

  /** What the local model server reports. */
  datatype Daemon = Daemon(
    installed: bool,         // `ollama --version` can be started
    serving: bool,           // its HTTP root answers 200
    catalog: seq<string>)    // the names under /api/tags

  /** The client the flow creates. */
  datatype Backend = Local(model: string) | Hosted(model: string)

  const HostedModel: string := "mistral-large-latest"

  /** One request to the language model: which client, and the user message. */
  datatype Request = Request(backend: Backend, content: string)

  /** Why a run ended without doing its job. */
  datatype Stop =
    | MissingApiKey     // hosted backend, no API key
    | NoChanges         // nothing untracked, staged or modified
    | StageDeclined     // nothing staged and the user did not answer `y`
    | NothingStaged     // nothing staged in a dry run
    | OllamaMissing     // `ollama` cannot be started
    | OllamaNotServing  // the server does not answer 200
    | CatalogEmpty      // the server lists no model
    | ModelNeedsLocal   // --model without --local-models
    | UnknownModel      // --model names no listed model
    | GenerationFailed  // the client returned nothing, so cut_think raised
    | InputEnded        // end of input (or Ctrl+C) at a prompt

  datatype Outcome =
    | Stopped(reason: Stop)
    | Committed(message: string)   // the user accepted the draft
    | Declined(message: string)    // the user answered neither `r` nor `y`
    | Printed(message: string)     // dry run
    | RepoNotCreated               // no .git and no `git init`
    | RepoCreated(firstCommit: bool)

  const GitStatus: Command := ["git", "status"]
  const ListUntracked: Command := ["git", "ls-files", "--others", "--exclude-standard"]
  const GitDiff: Command := ["git", "diff"]
  const StagedDiff: Command := ["git", "diff", "--staged"]
  const OllamaVersion: Command := ["ollama", "--version"]

  /** The `:!path` pathspecs that leave each excluded file out of the diff. */
  function Exclusions(files: seq<string>): (r: seq<string>)
    ensures |r| == |files|
    ensures forall i :: 0 <= i < |files| ==> r[i] == ":!" + files[i]
  {
    if files == [] then [] else [":!" + files[0]] + Exclusions(files[1..])
  }

  /**
   * The command that collects the staged diff: with exclusions, every path
   * (`-- .`) minus one `:!` pathspec per excluded file, in order.
   */
  function StagedDiffCommand(excluded: seq<string>): (c: Command)
    ensures excluded == [] ==> c == StagedDiff
    ensures excluded != [] ==> |c| == 5 + |excluded| && c[..5] == StagedDiff + ["--", "."]
    ensures forall i :: 0 <= i < |excluded| ==> c[5 + i] == ":!" + excluded[i]
  {
    if excluded == [] then StagedDiff else StagedDiff + ["--", "."] + Exclusions(excluded)
  }

  /** The files a staged-diff command leaves out: its `:!` pathspecs, prefix removed. */
  function ExcludedFiles(c: Command): (files: seq<string>)
  {
    if |c| <= 5 then []
    else
      seq(|c| - 5, i requires 0 <= i < |c| - 5 =>
        var p := c[5 + i];
        if |p| >= 2 && p[..2] == ":!" then p[2..] else p)
  }

  /** The excluded files can be read back from the command, in order. */
  lemma ExcludedFilesRoundTrip(excluded: seq<string>)
    ensures ExcludedFiles(StagedDiffCommand(excluded)) == excluded
  {
    var c := StagedDiffCommand(excluded);
    if excluded != [] {
      forall i | 0 <= i < |excluded| ensures ExcludedFiles(c)[i] == excluded[i] {
        assert (":!" + excluded[i])[..2] == ":!";
        assert (":!" + excluded[i])[2..] == excluded[i];
      }
    }
  }

  /** The user message of every request. */
  function UserMessage(status: string, diff: string): (m: string)
  {
    "Git status: " + status + "Git diff: " + diff
  }

  /** Nothing untracked, nothing staged, nothing modified. */
  predicate NoChangesIn(repo: Repo)
  {
    repo.untracked == "" && repo.staged == "" && repo.unstaged == ""
  }

  /** The diff the requests carry: the staged one, or the one re-read after staging. */
  function DiffSent(repo: Repo): (diff: string)
  {
    if repo.staged != "" then repo.staged else repo.restaged
  }

  /**
   * Collecting succeeds: there are changes, and either something is staged
   * or, outside a dry run, the user answers exactly `y` to staging everything.
   */
  predicate Collects(repo: Repo, opts: Options, answers: seq<string>)
  {
    !NoChangesIn(repo) && (repo.staged != "" || (!opts.dryRun && |answers| >= 1 && answers[0] == "y"))
  }

  /** How many answers the staging prompt takes: one when it is shown and answered. */
  function StagePromptAnswers(repo: Repo, opts: Options, answers: seq<string>): (n: nat)
    ensures n <= 1 && n <= |answers|
    ensures n == 1 ==> repo.staged == ""
  {
    if !NoChangesIn(repo) && repo.staged == "" && !opts.dryRun && |answers| >= 1 then 1 else 0
  }

  /**
   * What collecting the changes yields: the diff the requests will carry,
   * or why the run stops there.
   */
  function Collection(repo: Repo, opts: Options, answers: seq<string>): (r: Result<string, Stop>)
    ensures r.Success? <==> Collects(repo, opts, answers)
    ensures r.Success? ==> r.value == DiffSent(repo)
  {
    if NoChangesIn(repo) then Failure(NoChanges)
    else if repo.staged != "" then Success(repo.staged)
    else if opts.dryRun then Failure(NothingStaged)
    else if |answers| == 0 then Failure(InputEnded)
    else if answers[0] != "y" then Failure(StageDeclined)
    else Success(repo.restaged)
  }

  /**
   * The commands collecting the changes runs, in order: status, untracked
   * files and the filtered staged diff; the `git diff` of the no-changes
   * test, which the short-circuiting `and` reaches only when nothing is
   * untracked or staged; then, once collecting succeeds, `git add -A` and
   * the unfiltered staged diff if the user staged everything, and the
   * `git diff` that decides the note about unstaged changes.
   */
  function CollectTrace(repo: Repo, opts: Options, answers: seq<string>): (t: seq<Command>)
    ensures |t| >= 3 && t[..3] == [GitStatus, ListUntracked, StagedDiffCommand(opts.excluded)]
  {
    [GitStatus, ListUntracked, StagedDiffCommand(opts.excluded)] + NoChangesProbe(repo) + AfterCollect(repo, opts, answers)
  }

  /** The `git diff` of the no-changes test, reached only when nothing is untracked or staged. */
  function NoChangesProbe(repo: Repo): (t: seq<Command>)
  {
    if repo.untracked == "" && repo.staged == "" then [GitDiff] else []
  }

  /** The commands after the no-changes test: staging, if the user agreed, and the unstaged-changes `git diff`. */
  function AfterCollect(repo: Repo, opts: Options, answers: seq<string>): (t: seq<Command>)
  {
    if !Collects(repo, opts, answers) then []
    else if repo.staged == "" then [AddAll, StagedDiff, GitDiff]
    else [GitDiff]
  }

  /** The collection trace issues no commit, and stages everything exactly on `y` at the staging prompt. */
  lemma CollectTraceCommands(repo: Repo, opts: Options, answers: seq<string>)
    ensures forall c :: c in CollectTrace(repo, opts, answers) ==> !IsCommit(c)
    ensures AddAll in CollectTrace(repo, opts, answers) <==>
      !NoChangesIn(repo) && repo.staged == "" && !opts.dryRun && |answers| >= 1 && answers[0] == "y"
  {
    var head := [GitStatus, ListUntracked, StagedDiffCommand(opts.excluded)];
    var probe, rest := NoChangesProbe(repo), AfterCollect(repo, opts, answers);
    assert CollectTrace(repo, opts, answers) == head + probe + rest;
    HeadCommands(opts.excluded);
    assert forall c :: c in head + probe + rest ==> c in head || c in probe || c in rest;
    assert AddAll in rest <==> repo.staged == "" && Collects(repo, opts, answers);
  }

  /**
   * The collection trace runs `git diff` once for the no-changes test
   * exactly when nothing is untracked or staged, and once more, as its last
   * command, exactly when collecting succeeds.
   */
  lemma CollectTraceDiffs(repo: Repo, opts: Options, answers: seq<string>)
    ensures multiset(CollectTrace(repo, opts, answers))[GitDiff]
      == (if repo.untracked == "" && repo.staged == "" then 1 else 0) + (if Collects(repo, opts, answers) then 1 else 0)
    ensures Collects(repo, opts, answers) ==>
      var t := CollectTrace(repo, opts, answers); t[|t| - 1] == GitDiff
  {
    var head := [GitStatus, ListUntracked, StagedDiffCommand(opts.excluded)];
    var probe, rest := NoChangesProbe(repo), AfterCollect(repo, opts, answers);
    assert CollectTrace(repo, opts, answers) == head + probe + rest;
    HeadCommands(opts.excluded);
    assert multiset(head)[GitDiff] == 0;
    assert multiset(rest)[GitDiff] == (if Collects(repo, opts, answers) then 1 else 0);
    assert multiset(head + probe + rest) == multiset(head) + multiset(probe) + multiset(rest);
  }

  /** The first three collection commands are no `git diff`, no `git add -A` and no commit. */
  lemma HeadCommands(excluded: seq<string>)
    ensures forall c :: c in [GitStatus, ListUntracked, StagedDiffCommand(excluded)] ==>
      c != GitDiff && c != AddAll && !IsCommit(c)
  {
    var c := StagedDiffCommand(excluded);
    assert c[1] == "diff";
    assert |c| >= 3;
  }

  /**
   * Collecting the changes: status, untracked files and the staged diff;
   * a stop when there is nothing at all; when nothing is staged, a stop in
   * a dry run and otherwise a prompt whose exact answer `y` stages
   * everything, after which the staged diff is read again WITHOUT the
   * exclusions; finally the `git diff` whose output only decides a note.
   */
  method CollectChanges(repo: Repo, opts: Options, answers: seq<string>)
    returns (r: Result<string, Stop>, commands: seq<Command>, asked: nat)
    ensures asked == StagePromptAnswers(repo, opts, answers)
    ensures r == Collection(repo, opts, answers)
    ensures commands == CollectTrace(repo, opts, answers)
    ensures r.Success? <==> Collects(repo, opts, answers)
    ensures |commands| >= 3 && commands[..3] == [GitStatus, ListUntracked, StagedDiffCommand(opts.excluded)]
    ensures forall c :: c in commands ==> !IsCommit(c)
    ensures r == Failure(NoChanges) <==> NoChangesIn(repo)
    ensures r.Success? ==> r.value == DiffSent(repo) && commands[|commands| - 1] == GitDiff
    ensures repo.staged != "" ==> r.Success? && asked == 0 && AddAll !in commands
    ensures !NoChangesIn(repo) && repo.staged == "" && opts.dryRun ==> r == Failure(NothingStaged) && asked == 0
    ensures AddAll in commands <==>
      !NoChangesIn(repo) && repo.staged == "" && !opts.dryRun && |answers| >= 1 && answers[0] == "y"
    ensures AddAll in commands ==> r.Success? && commands[|commands| - 3..] == [AddAll, StagedDiff, GitDiff]
    ensures r.Success? ==> repo.staged != "" || AddAll in commands
    ensures !NoChangesIn(repo) && repo.staged == "" && !opts.dryRun && |answers| >= 1 && answers[0] != "y"
      ==> r == Failure(StageDeclined)
    ensures !NoChangesIn(repo) && repo.staged == "" && !opts.dryRun && |answers| == 0 ==> r == Failure(InputEnded)
  {
    CollectTraceCommands(repo, opts, answers);
    CollectTraceDiffs(repo, opts, answers);
    commands := [GitStatus, ListUntracked, StagedDiffCommand(opts.excluded)];
    asked := 0;
    if repo.untracked == "" && repo.staged == "" {
      commands := commands + [GitDiff];
      if repo.unstaged == "" {
        return Failure(NoChanges), commands, asked;
      }
    }
    var diff := repo.staged;
    if diff == "" {
      if opts.dryRun {
        return Failure(NothingStaged), commands, asked;
      }
      if |answers| == 0 {
        return Failure(InputEnded), commands, asked;
      }
      asked := 1;
      if answers[0] != "y" {
        return Failure(StageDeclined), commands, asked;
      }
      commands := commands + [AddAll, StagedDiff, GitDiff];
      assert commands[|commands| - 3..] == [AddAll, StagedDiff, GitDiff];
      return Success(repo.restaged), commands, asked;
    }
    commands := commands + [GitDiff];
    r := Success(diff);
  }

  /** A number the picker accepts for a catalog of `size` models. */
  predicate ValidPick(n: int, size: nat)
  {
    1 <= n <= size
  }

  /**
   * The position of the first number the picker accepts for a catalog of
   * `size` models, or `|picks|` when it accepts none of them.
   */
  function FirstValidPick(picks: seq<int>, size: nat): (u: nat)
    ensures u <= |picks|
    ensures forall j :: 0 <= j < u ==> !ValidPick(picks[j], size)
    ensures u < |picks| ==> ValidPick(picks[u], size)
  {
    if picks == [] || ValidPick(picks[0], size) then 0
    else 1 + FirstValidPick(picks[1..], size)
  }

  /**
   * The local-model picker: asks for a number until one lies in
   * `1..|catalog|`, then selects that model, counting from one. `None`
   * when the numbers run out first.
   */
  method PickModel(catalog: seq<string>, picks: seq<int>) returns (r: Option<string>)
    ensures var u := FirstValidPick(picks, |catalog|);
      && (r.Some? <==> u < |picks|)
      && (r.Some? ==> r.value == catalog[picks[u] - 1])
  {
    var i := 0;
    while i < |picks|
      invariant i <= |picks|
      invariant forall j :: 0 <= j < i ==> !ValidPick(picks[j], |catalog|)
    {
      var n := picks[i];
      i := i + 1;
      if ValidPick(n, |catalog|) {
        return Some(catalog[n - 1]);
      }
    }
    r := None;
  }

  /**
   * The client `main()` settles on: the hosted model unless local models
   * are asked for; then the server must be installed, serving and list a
   * model, a requested model must be listed, and without a request a single
   * listed model is taken as is and otherwise the first number the picker
   * accepts decides.
   */
  function BackendFor(opts: Options, daemon: Daemon, picks: seq<int>): (r: Result<Backend, Stop>)
    ensures !opts.useLocal ==> r == (if opts.model != "" then Failure(ModelNeedsLocal) else Success(Hosted(HostedModel)))
    ensures opts.useLocal && !daemon.installed ==> r == Failure(OllamaMissing)
    ensures opts.useLocal && daemon.installed && !daemon.serving ==> r == Failure(OllamaNotServing)
    ensures opts.useLocal && daemon.installed && daemon.serving && daemon.catalog == [] ==> r == Failure(CatalogEmpty)
    ensures opts.useLocal && r.Success? ==>
              daemon.installed && daemon.serving && r.value.Local? && r.value.model in daemon.catalog
    ensures opts.useLocal && opts.model != "" && r.Success? ==> r.value == Local(opts.model)
    ensures opts.useLocal && opts.model != "" && daemon.installed && daemon.serving && daemon.catalog != []
      ==> (r == Failure(UnknownModel) <==> opts.model !in daemon.catalog)
    ensures opts.useLocal && opts.model == "" && daemon.installed && daemon.serving && |daemon.catalog| == 1
      ==> r == Success(Local(daemon.catalog[0]))
    ensures opts.useLocal && opts.model == "" && daemon.installed && daemon.serving && |daemon.catalog| > 1
      ==> && (r.Success? <==> exists j :: 0 <= j < |picks| && ValidPick(picks[j], |daemon.catalog|))
          && (r.Failure? ==> r.error == InputEnded)
    ensures r == Failure(InputEnded) ==> opts.useLocal && opts.model == "" && |daemon.catalog| > 1
  {
    if !opts.useLocal then
      if opts.model != "" then Failure(ModelNeedsLocal) else Success(Hosted(HostedModel))
    else if !daemon.installed then Failure(OllamaMissing)
    else if !daemon.serving then Failure(OllamaNotServing)
    else if daemon.catalog == [] then Failure(CatalogEmpty)
    else if opts.model != "" then
      if opts.model in daemon.catalog then Success(Local(opts.model)) else Failure(UnknownModel)
    else if |daemon.catalog| == 1 then Success(Local(daemon.catalog[0]))
    else
      var u := FirstValidPick(picks, |daemon.catalog|);
      if u == |picks| then Failure(InputEnded) else Success(Local(daemon.catalog[picks[u] - 1]))
  }

  /**
   * Choosing the client, with the `ollama --version` probe it runs for
   * local models; the choice is the one `BackendFor` describes.
   */
  method ChooseBackend(opts: Options, daemon: Daemon, picks: seq<int>)
    returns (r: Result<Backend, Stop>, commands: seq<Command>)
    ensures commands == if opts.useLocal then [OllamaVersion] else []
    ensures r == BackendFor(opts, daemon, picks)
    ensures opts.useLocal && opts.model == "" && daemon.installed && daemon.serving && |daemon.catalog| > 1
      ==> var u := FirstValidPick(picks, |daemon.catalog|);
          r == if u < |picks| then Success(Local(daemon.catalog[picks[u] - 1])) else Failure(InputEnded)
  {
    commands := [];
    if !opts.useLocal {
      if opts.model != "" {
        return Failure(ModelNeedsLocal), commands;
      }
      return Success(Hosted(HostedModel)), commands;
    }
    commands := [OllamaVersion];
    if !daemon.installed {
      return Failure(OllamaMissing), commands;
    }
    if !daemon.serving {
      return Failure(OllamaNotServing), commands;
    }
    if daemon.catalog == [] {
      return Failure(CatalogEmpty), commands;
    }
    var model := opts.model;
    if model == "" {
      if |daemon.catalog| > 1 {
        var picked := PickModel(daemon.catalog, picks);
        if picked.None? {
          return Failure(InputEnded), commands;
        }
        model := picked.value;
      } else {
        model := daemon.catalog[0];
      }
    } else if model !in daemon.catalog {
      return Failure(UnknownModel), commands;
    }
    r := Success(Local(model));
  }

  /** How the review loop ends. */
  datatype Review =
    | Accepted(message: string)   // the first answer other than `r` is `y`
    | Rejected(message: string)   // the first answer other than `r` is anything else
    | NoReply                     // a request came back empty
    | NoAnswer                    // the answers ran out, all of them `r`

  /**
   * The review loop: generate a draft, strip its reasoning block, show it;
   * the answer `r` goes round again, any other answer ends the loop, and
   * only the exact answer `y` accepts the last draft.
   */
  method ReviewDrafts(reply: nat -> Option<string>, answers: seq<string>)
    returns (result: Review, generated: nat)
    ensures var k := LeadingRepeats(answers, "r");
      && 1 <= generated <= k + 1
      && (forall j :: 0 <= j < generated - 1 ==> reply(j).Some?)
      && (result == NoReply <==> exists j :: 0 <= j <= k && reply(j).None?)
      && (result == NoReply ==> reply(generated - 1).None?)
      && (result != NoReply ==> generated == k + 1 && reply(k).Some?)
      && (result == NoAnswer <==> result != NoReply && k == |answers|)
      && (result.Accepted? <==> result != NoReply && k < |answers| && answers[k] == "y")
      && (result.Accepted? || result.Rejected? ==> result.message == CutThinkPart.CutThink(reply(k).value))
  {
    var i := 0;
    while true
      invariant i <= |answers| && i <= LeadingRepeats(answers, "r")
      invariant forall j :: 0 <= j < i ==> reply(j).Some? && answers[j] == "r"
      decreases |answers| - i
    {
      var raw := reply(i);
      if raw.None? {
        return NoReply, i + 1;
      }
      var message := CutThinkPart.CutThink(raw.value);
      if i == |answers| {
        return NoAnswer, i + 1;
      }
      if answers[i] != "r" {
        result := if answers[i] == "y" then Accepted(message) else Rejected(message);
        return result, i + 1;
      }
      i := i + 1;
    }
  }

  /** A commit, if any, is the last command of the trace. */
  predicate CommitLast(commands: seq<Command>)
  {
    forall i :: 0 <= i < |commands| - 1 ==> !IsCommit(commands[i])
  }

  lemma CommitLastAfterPrefix(pre: seq<Command>, commands: seq<Command>)
    requires forall c :: c in pre ==> !IsCommit(c)
    requires CommitLast(commands)
    ensures CommitLast(pre + commands)
  {
    var all := pre + commands;
    forall i | 0 <= i < |all| - 1 ensures !IsCommit(all[i]) {
      if i < |pre| {
        assert all[i] in pre;
      } else {
        assert all[i] == commands[i - |pre|];
      }
    }
  }

  /**
   * A whole run of `main()`. `reply(i)` is the raw text returned for the
   * i-th request of the run.
   */
  method Run(opts: Options, repo: Repo, daemon: Daemon, answers: seq<string>, picks: seq<int>,
             reply: nat -> Option<string>)
    returns (outcome: Outcome, commands: seq<Command>, requests: seq<Request>)
    // The API key is checked before anything runs.
    ensures !opts.useLocal && !opts.hasApiKey ==> outcome == Stopped(MissingApiKey) && commands == [] && requests == []
    ensures opts.useLocal || opts.hasApiKey ==> |commands| >= 1 && commands[0] == GitVersion
    // Every request carries the status and the staged diff, to the chosen client.
    ensures forall q :: q in requests ==> q.content == UserMessage(repo.status, DiffSent(repo))
    ensures (opts.useLocal || opts.hasApiKey) && repo.hasDotGit && NoChangesIn(repo) ==> outcome == Stopped(NoChanges)
    ensures repo.hasDotGit && !opts.useLocal && opts.model != "" ==> outcome.Stopped?
    // A commit is the last command, and only an accepted draft or the first commit of a new repository is committed.
    ensures CommitLast(commands)
    ensures outcome.Committed? ==> |commands| >= 1 && commands[|commands| - 1] == Commit(outcome.message)
    ensures ShowsCutReply(outcome, requests, reply)
    ensures (exists c :: c in commands && IsCommit(c)) ==> outcome.Committed? || outcome == RepoCreated(true)
    ensures repo.hasDotGit ==> ((exists c :: c in commands && IsCommit(c)) <==> outcome.Committed?)
    // A dry run generates once and commits nothing.
    ensures repo.hasDotGit && opts.dryRun ==> |requests| <= 1 && !outcome.Committed? && forall c :: c in commands ==> !IsCommit(c)
    ensures outcome.Printed? ==> opts.dryRun && |requests| == 1
    // Requests go out exactly once the changes are collected and a client is chosen.
    ensures ((opts.useLocal || opts.hasApiKey) && repo.hasDotGit
             && Collects(repo, opts, answers) && BackendFor(opts, daemon, picks).Success?) ==> requests != []
    ensures requests != [] ==>
              && repo.hasDotGit && Collects(repo, opts, answers) && BackendFor(opts, daemon, picks).Success?
              && forall q :: q in requests ==> q.backend == BackendFor(opts, daemon, picks).value
    // Everything is staged exactly on `y` at the staging prompt.
    ensures (opts.useLocal || opts.hasApiKey) && repo.hasDotGit ==>
              (AddAll in commands <==>
                 !NoChangesIn(repo) && repo.staged == "" && !opts.dryRun && |answers| >= 1 && answers[0] == "y")
    // The review loop's rules, with its answers starting after the staging prompt.
    ensures repo.hasDotGit ==>
              ReviewRule(answers, StagePromptAnswers(repo, opts, answers), opts.dryRun, outcome, requests, reply)
    // Inside a repository: the exact trace, and the stop of the preparation when nothing was sent.
    ensures (opts.useLocal || opts.hasApiKey) && repo.hasDotGit ==>
              && commands == [GitVersion] + RepositoryTrace(repo, opts, answers, outcome)
              && (requests == [] ==>
                    Preparation(opts, repo, daemon, answers, picks).Failure?
                    && outcome == Stopped(Preparation(opts, repo, daemon, answers, picks).error))
    // Without a repository nothing is generated; `git init` needs a `y`, the first commit a second one.
    ensures !repo.hasDotGit ==> requests == []
    ensures (opts.useLocal || opts.hasApiKey) && !repo.hasDotGit ==>
              && (GitInit in commands <==> |answers| >= 1 && answers[0] == "y")
              && (outcome == RepoNotCreated <==> |answers| >= 1 && answers[0] != "y")
              && (outcome == RepoCreated(true) <==> |answers| >= 2 && answers[0] == "y" && answers[1] == "y")
              && (outcome == RepoCreated(false) <==> |answers| >= 2 && answers[0] == "y" && answers[1] != "y")
              && commands == [GitVersion] + (if |answers| >= 1 && answers[0] == "y" then [GitInit] else [])
                             + (if outcome == RepoCreated(true) then [AddAll, Commit(InitialMessage)] else [])
  {
    commands, requests := [], [];
    if !opts.useLocal && !opts.hasApiKey {
      return Stopped(MissingApiKey), commands, requests;
    }
    commands := [GitVersion];
    if !repo.hasDotGit {
      var end, initCommands, _ := InitRepository(answers);
      AfterVersion(initCommands);
      commands := commands + initCommands;
      outcome := match end
        case InitDeclined => RepoNotCreated
        case Initialized(first) => RepoCreated(first)
        case InitInputEnded => Stopped(InputEnded);
      return;
    }
    var rest;
    outcome, rest, requests := RunInRepository(opts, repo, daemon, answers, picks, reply);
    AfterVersion(rest);
    commands := commands + rest;
  }

  /** `git --version` in front of a trace adds no staging, no `git init` and no commit. */
  lemma AfterVersion(rest: seq<Command>)
    ensures AddAll in [GitVersion] + rest <==> AddAll in rest
    ensures GitInit in [GitVersion] + rest <==> GitInit in rest
    ensures (exists c :: c in [GitVersion] + rest && IsCommit(c)) <==> (exists c :: c in rest && IsCommit(c))
    ensures CommitLast(rest) ==> CommitLast([GitVersion] + rest)
  {
    assert GitVersion[1] != AddAll[1] && GitVersion[1] != GitInit[1];
    assert !IsCommit(GitVersion);
    if CommitLast(rest) {
      CommitLastAfterPrefix([GitVersion], rest);
    }
  }

  /** The part of a run inside a repository, after the API key and `git --version`. */
  method RunInRepository(opts: Options, repo: Repo, daemon: Daemon, answers: seq<string>, picks: seq<int>,
                         reply: nat -> Option<string>)
    returns (outcome: Outcome, commands: seq<Command>, requests: seq<Request>)
    ensures outcome.Stopped? || outcome.Committed? || outcome.Declined? || outcome.Printed?
    ensures forall q :: q in requests ==> q.content == UserMessage(repo.status, DiffSent(repo))
    ensures NoChangesIn(repo) ==> outcome == Stopped(NoChanges)
    ensures !opts.useLocal && opts.model != "" ==> outcome.Stopped?
    ensures CommitLast(commands)
    ensures outcome.Committed? <==> exists c :: c in commands && IsCommit(c)
    ensures outcome.Committed? ==> |commands| >= 1 && commands[|commands| - 1] == Commit(outcome.message)
    ensures ShowsCutReply(outcome, requests, reply)
    ensures opts.dryRun ==> |requests| <= 1 && !outcome.Committed?
    ensures outcome.Printed? ==> opts.dryRun && |requests| == 1
    // Requests go out only once the changes are collected and a client is chosen.
    ensures requests != [] ==>
              && Collects(repo, opts, answers) && BackendFor(opts, daemon, picks).Success?
              && forall q :: q in requests ==> q.backend == BackendFor(opts, daemon, picks).value
    ensures AddAll in commands <==>
      !NoChangesIn(repo) && repo.staged == "" && !opts.dryRun && |answers| >= 1 && answers[0] == "y"
    ensures Collects(repo, opts, answers) && BackendFor(opts, daemon, picks).Success? ==> requests != []
    ensures ReviewRule(answers, StagePromptAnswers(repo, opts, answers), opts.dryRun, outcome, requests, reply)
    // The exact trace, and the stop of the preparation when nothing was sent.
    ensures commands == RepositoryTrace(repo, opts, answers, outcome)
    ensures requests == [] ==>
              Preparation(opts, repo, daemon, answers, picks).Failure?
              && outcome == Stopped(Preparation(opts, repo, daemon, answers, picks).error)
  {
    var prepared, asked;
    prepared, commands, asked := Prepare(opts, repo, daemon, answers, picks);
    if prepared.Failure? {
      outcome, requests := Stopped(prepared.error), [];
      assert commands + [] == commands;
    } else {
      var commitCommands;
      outcome, commitCommands, requests := Generate(opts.dryRun, prepared.value, answers[asked..], reply);
      ReviewRuleAfterPrompt(answers, asked, opts.dryRun, outcome, requests, reply);
      assert Collects(repo, opts, answers) && prepared.value.backend == BackendFor(opts, daemon, picks).value;
      commands := commands + commitCommands;
    }
    RepositoryTraceFacts(repo, opts, answers, outcome);
  }

  /**
   * The rules of the review loop whose answers start at `a`, with k the
   * number of `r` answers from there on: a commit needs `y` as the answer
   * after them; once the last request got a reply, there were k + 1
   * requests and that answer decides between commit, decline and end of
   * input; a dry run that got its reply prints the cut draft.
   */
  predicate ReviewRule(answers: seq<string>, a: nat, dryRun: bool, outcome: Outcome, requests: seq<Request>,
                       reply: nat -> Option<string>)
    requires a <= |answers|
  {
    var k := LeadingRepeats(answers[a..], "r");
    var replied := requests != [] && reply(|requests| - 1).Some?;
    && (outcome.Committed? ==> !dryRun && a + k < |answers| && answers[a + k] == "y" && |requests| == k + 1)
    && (!dryRun ==> |requests| <= k + 1)
    && (requests != [] ==> (outcome == Stopped(GenerationFailed) <==> reply(|requests| - 1).None?))
    && (forall j :: 0 <= j < |requests| - 1 ==> reply(j).Some?)
    && (!dryRun && replied ==>
          && |requests| == k + 1
          && (outcome.Committed? <==> a + k < |answers| && answers[a + k] == "y")
          && (outcome.Declined? <==> a + k < |answers| && answers[a + k] != "y")
          && (outcome == Stopped(InputEnded) <==> a + k == |answers|))
    && (dryRun && replied ==> |requests| == 1 && outcome == Printed(CutThinkPart.CutThink(reply(0).value)))
  }

  /**
   * The message of a committed or declined outcome is the reply to the last
   * request with its reasoning block cut; a printed message is the first reply, cut.
   */
  predicate ShowsCutReply(outcome: Outcome, requests: seq<Request>, reply: nat -> Option<string>)
  {
    && (outcome.Committed? || outcome.Declined? ==>
          && |requests| >= 1 && reply(|requests| - 1).Some?
          && outcome.message == CutThinkPart.CutThink(reply(|requests| - 1).value))
    && (outcome.Printed? ==> |requests| >= 1 && reply(0).Some? && outcome.message == CutThinkPart.CutThink(reply(0).value))
  }

  /** What `Generate` promises about the answers it was given, moved to the whole answer list. */
  lemma ReviewRuleAfterPrompt(answers: seq<string>, a: nat, dryRun: bool, outcome: Outcome, requests: seq<Request>,
                              reply: nat -> Option<string>)
    requires a <= |answers| && |requests| >= 1
    requires outcome == Stopped(GenerationFailed) <==> reply(|requests| - 1).None?
    requires outcome.Committed? ==> !dryRun
    requires dryRun ==> |requests| == 1 && (outcome.Printed? || outcome == Stopped(GenerationFailed))
    requires ShowsCutReply(outcome, requests, reply)
    requires !dryRun ==> LoopRule(answers[a..], outcome, requests)
    requires forall j :: 0 <= j < |requests| - 1 ==> reply(j).Some?
    ensures ReviewRule(answers, a, dryRun, outcome, requests, reply)
  {
    var k := LeadingRepeats(answers[a..], "r");
    if k < |answers[a..]| {
      assert answers[a..][k] == answers[a + k];
    }
  }

  /** Appending no command or one commit to a trace without commits. */
  lemma NoCommitSoFar(pre: seq<Command>, post: seq<Command>)
    requires forall c :: c in pre ==> !IsCommit(c)
    requires post == [] || (|post| == 1 && IsCommit(post[0]))
    ensures CommitLast(pre + post)
    ensures (exists c :: c in pre + post && IsCommit(c)) <==> post != []
    ensures AddAll in pre + post <==> AddAll in pre
  {
    if post != [] {
      assert (pre + post)[|pre|] == post[0];
      assert !IsCommit(AddAll);
    }
    CommitLastAfterPrefix(pre, post);
  }

  /**
   * What the preparation yields: the request every generation sends, or
   * the stop of collecting the changes or, once they are collected, of
   * choosing the client.
   */
  function Preparation(opts: Options, repo: Repo, daemon: Daemon, answers: seq<string>, picks: seq<int>)
    : (r: Result<Request, Stop>)
    ensures r.Success? <==> Collects(repo, opts, answers) && BackendFor(opts, daemon, picks).Success?
  {
    match Collection(repo, opts, answers)
    case Failure(e) => Failure(e)
    case Success(diff) =>
      match BackendFor(opts, daemon, picks)
      case Failure(e) => Failure(e)
      case Success(b) => Success(Request(b, UserMessage(repo.status, diff)))
  }

  /** The commands before the first request: collecting, then `ollama --version` for local models. */
  function PrepareTrace(repo: Repo, opts: Options, answers: seq<string>): (t: seq<Command>)
  {
    CollectTrace(repo, opts, answers) + (if Collects(repo, opts, answers) && opts.useLocal then [OllamaVersion] else [])
  }

  /** The commands of a run inside a repository: the preparation's, then the commit, if any. */
  function RepositoryTrace(repo: Repo, opts: Options, answers: seq<string>, outcome: Outcome): (t: seq<Command>)
  {
    PrepareTrace(repo, opts, answers) + (if outcome.Committed? then [Commit(outcome.message)] else [])
  }

  /**
   * A run inside a repository commits only as its last command, and exactly
   * when its outcome is a commit; it stages everything exactly on `y` at
   * the staging prompt.
   */
  lemma RepositoryTraceFacts(repo: Repo, opts: Options, answers: seq<string>, outcome: Outcome)
    ensures CommitLast(RepositoryTrace(repo, opts, answers, outcome))
    ensures outcome.Committed? <==> exists c :: c in RepositoryTrace(repo, opts, answers, outcome) && IsCommit(c)
    ensures AddAll in RepositoryTrace(repo, opts, answers, outcome) <==>
      !NoChangesIn(repo) && repo.staged == "" && !opts.dryRun && |answers| >= 1 && answers[0] == "y"
  {
    PrepareTraceCommands(repo, opts, answers);
    NoCommitSoFar(PrepareTrace(repo, opts, answers), if outcome.Committed? then [Commit(outcome.message)] else []);
  }

  /** The commands before the first request issue no commit, and stage everything exactly on `y`. */
  lemma PrepareTraceCommands(repo: Repo, opts: Options, answers: seq<string>)
    ensures forall c :: c in PrepareTrace(repo, opts, answers) ==> !IsCommit(c)
    ensures AddAll in PrepareTrace(repo, opts, answers) <==>
      !NoChangesIn(repo) && repo.staged == "" && !opts.dryRun && |answers| >= 1 && answers[0] == "y"
  {
    CollectTraceCommands(repo, opts, answers);
    var collect := CollectTrace(repo, opts, answers);
    var local := if Collects(repo, opts, answers) && opts.useLocal then [OllamaVersion] else [];
    assert forall c :: c in collect + local ==> c in collect || c in local;
    assert OllamaVersion[0] != AddAll[0] && !IsCommit(OllamaVersion);
  }

  /**
   * Everything before the first request: the changes, then the client.
   * The request it returns is the one every generation of the run sends.
   */
  method Prepare(opts: Options, repo: Repo, daemon: Daemon, answers: seq<string>, picks: seq<int>)
    returns (r: Result<Request, Stop>, commands: seq<Command>, asked: nat)
    ensures r == Preparation(opts, repo, daemon, answers, picks)
    ensures commands == PrepareTrace(repo, opts, answers)
    // A collection stop is reported as such: no changes, nothing staged in a dry run, staging declined, end of input.
    ensures !Collects(repo, opts, answers) ==> r == Failure(Collection(repo, opts, answers).error)
    ensures asked == StagePromptAnswers(repo, opts, answers)
    ensures forall c :: c in commands ==> !IsCommit(c)
    ensures AddAll in commands <==>
      !NoChangesIn(repo) && repo.staged == "" && !opts.dryRun && |answers| >= 1 && answers[0] == "y"
    // Once the changes are collected, the outcome is the client choice's.
    ensures !Collects(repo, opts, answers) ==> r.Failure?
    ensures Collects(repo, opts, answers) ==>
              r == match BackendFor(opts, daemon, picks)
                   case Success(b) => Success(Request(b, UserMessage(repo.status, DiffSent(repo))))
                   case Failure(e) => Failure(e)
    ensures Collects(repo, opts, answers) && opts.useLocal && !daemon.installed ==> r == Failure(OllamaMissing)
    ensures Collects(repo, opts, answers) && opts.useLocal && daemon.installed && !daemon.serving
      ==> r == Failure(OllamaNotServing)
    ensures Collects(repo, opts, answers) && opts.useLocal && daemon.installed && daemon.serving && daemon.catalog == []
      ==> r == Failure(CatalogEmpty)
    ensures Collects(repo, opts, answers) && opts.useLocal && opts.model != ""
      && daemon.installed && daemon.serving && daemon.catalog != []
      ==> (r == Failure(UnknownModel) <==> opts.model !in daemon.catalog)
    ensures r.Success? ==> r.value.content == UserMessage(repo.status, DiffSent(repo))
    ensures r.Success? ==> if opts.useLocal then r.value.backend.Local? && r.value.backend.model in daemon.catalog
                           else r.value.backend == Hosted(HostedModel)
    ensures NoChangesIn(repo) ==> r == Failure(NoChanges) && AddAll !in commands
    ensures repo.staged == "" && opts.dryRun ==> r.Failure? && AddAll !in commands
    ensures repo.staged == "" && (|answers| == 0 || answers[0] != "y") ==> r.Failure? && AddAll !in commands
    ensures !opts.useLocal && opts.model != "" ==> r.Failure?
  {
    var collected;
    collected, commands, asked := CollectChanges(repo, opts, answers);
    if collected.Failure? {
      return Failure(collected.error), commands, asked;
    }
    var chosen, daemonCommands := ChooseBackend(opts, daemon, picks);
    commands := commands + daemonCommands;
    if chosen.Failure? {
      return Failure(chosen.error), commands, asked;
    }
    r := Success(Request(chosen.value, UserMessage(repo.status, collected.value)));
  }

  /**
   * What the review loop over `answers` promises, with k the number of
   * leading `r` answers: at most k + 1 requests, exactly k + 1 unless a
   * reply came back empty, and then answer k decides: `y` commits, any
   * other answer declines, and no answer at all ends the run.
   */
  predicate LoopRule(answers: seq<string>, outcome: Outcome, requests: seq<Request>)
  {
    var k := LeadingRepeats(answers, "r");
    && |requests| <= k + 1
    && (outcome != Stopped(GenerationFailed) ==> |requests| == k + 1)
    && (outcome.Committed? <==> outcome != Stopped(GenerationFailed) && k < |answers| && answers[k] == "y")
    && (outcome.Declined? <==> outcome != Stopped(GenerationFailed) && k < |answers| && answers[k] != "y")
    && (outcome == Stopped(InputEnded) <==> outcome != Stopped(GenerationFailed) && k == |answers|)
  }

  /**
   * The generation step: in a dry run one draft, printed; otherwise the
   * review loop, and a commit of the accepted draft, verbatim.
   */
  method Generate(dryRun: bool, request: Request, answers: seq<string>, reply: nat -> Option<string>)
    returns (outcome: Outcome, commands: seq<Command>, requests: seq<Request>)
    ensures |requests| >= 1 && forall q :: q in requests ==> q == request
    ensures commands == if outcome.Committed? then [Commit(outcome.message)] else []
    ensures outcome.Committed? || outcome.Declined? || outcome.Printed?
      || outcome == Stopped(GenerationFailed) || outcome == Stopped(InputEnded)
    ensures outcome == Stopped(GenerationFailed) <==> reply(|requests| - 1).None?
    ensures outcome != Stopped(GenerationFailed) ==> reply(|requests| - 1).Some?
    ensures forall j :: 0 <= j < |requests| - 1 ==> reply(j).Some?
    ensures dryRun ==> |requests| == 1 && (outcome.Printed? || outcome == Stopped(GenerationFailed))
    ensures outcome.Printed? ==> dryRun
    ensures ShowsCutReply(outcome, requests, reply)
    ensures !dryRun ==> LoopRule(answers, outcome, requests)
  {
    if dryRun {
      requests := [request];
      commands := [];
      var raw := reply(0);
      if raw.None? {
        return Stopped(GenerationFailed), commands, requests;
      }
      return Printed(CutThinkPart.CutThink(raw.value)), commands, requests;
    }
    var review, generated := ReviewDrafts(reply, answers);
    requests := seq(generated, _ => request);
    commands := [];
    match review
    case Accepted(message) =>
      commands := [Commit(message)];
      outcome := Committed(message);
    case Rejected(message) =>
      outcome := Declined(message);
    case NoReply =>
      outcome := Stopped(GenerationFailed);
    case NoAnswer =>
      outcome := Stopped(InputEnded);
  }
}
