/**
 * The first version of the tool, `commit_maker.py`: a hosted-model client
 * that keeps the whole conversation and sends all of it with every
 * message, and a `main()` that asks for drafts until the answer is not
 * `retry`, then commits everything on `y`.
 *
 * The HTTP exchange is an input: `server(model, messages)` is what the
 * client returns for a request carrying that model and that conversation,
 * `None` when the request failed (the client then prints the error and
 * returns nothing).
 */
module Legacy {
  import opened Types
  import opened Shell

  /** One entry of the conversation sent to the service. */
  datatype Entry = Entry(role: string, content: string)

  const DefaultModel: string := "mistral-small-latest"
  const Endpoint: string := "https://api.mistral.ai/v1/chat/completions"

  /** The instruction put in front of the status and the diff. */
  const Instruction: string :=
    "Привет! Ты составитель коммитов для git. Твоя задача, опираясь на\n"
    + "данные от 'git status' и 'git diff' написать короткий и ёмкий коммит. В ответ\n"
    + "на это сообщение тебе нужно предоставить ТОЛЬКО коммит. Пиши просто обычный\n"
    + "текст, без markdown!"

  /** The hosted-model client; `messages` is the conversation so far. */
  class MistralAI {
    const url: string
    const apiKey: string
    var model: string
    var messages: seq<Entry>

    constructor (apiKey: string)
      ensures this.apiKey == apiKey && url == Endpoint
      ensures model == DefaultModel && messages == []
    {
      this.url := Endpoint;
      this.apiKey := apiKey;
      model := DefaultModel;
      messages := [];
    }

    /**
     * Appends one entry to the conversation, earlier entries untouched, and
     * sends the whole conversation.
     */
    method Message(message: string, server: (string, seq<Entry>) -> Option<string>, role: string := "user")
      returns (answer: Option<string>)
      modifies this
      ensures messages == old(messages) + [Entry(role, message)]
      ensures model == old(model)
      ensures answer == server(model, messages)
    {
      messages := messages + [Entry(role, message)];
      answer := server(model, messages);
    }
  }

  /** What git prints. */
  datatype Repo = Repo(
    hasDotGit: bool,   // ".git" is listed in the working directory
    status: string,    // git status -v
    diff: string)      // git diff

  datatype Outcome =
    | NoChanges                     // status and diff both empty
    | Committed(message: string)    // the answer was `y`
    | Declined                      // any other answer
    | InputEnded                    // end of input at a prompt
    | RepoNotCreated
    | RepoCreated(firstCommit: bool)

  const GitStatus: Command := ["git", "status", "-v"]
  const GitDiff: Command := ["git", "diff"]

  /** The text of `f"{answer}"`: a failed request formats as `None`. */
  function Show(answer: Option<string>): (text: string)
  {
    match answer
    case Some(text) => text
    case None => "None"
  }

  /** The message sent with every request. */
  function Prompt(repo: Repo): (message: string)
  {
    Instruction + "Git status: " + repo.status + "Git diff: " + repo.diff
  }

  /** Every entry of `history` is a user entry carrying `content`. */
  predicate AllUser(history: seq<Entry>, content: string)
  {
    forall j :: 0 <= j < |history| ==> history[j] == Entry("user", content)
  }

  /**
   * A whole run of `main()`. `history` is the client's conversation at the
   * end of the run, `[]` when no client was created.
   */
  method Run(repo: Repo, apiKey: string, answers: seq<string>, server: (string, seq<Entry>) -> Option<string>)
    returns (outcome: Outcome, commands: seq<Command>, history: seq<Entry>)
    ensures |commands| >= 1 && commands[0] == GitVersion
    ensures repo.hasDotGit ==> |commands| >= 3 && commands[1..3] == [GitStatus, GitDiff]
    ensures repo.hasDotGit && repo.status == "" && repo.diff == "" ==>
              outcome == NoChanges && |commands| == 3 && history == []
    ensures !repo.hasDotGit ==> history == []
    // Without `.git`, `git init` needs a `y` and the first commit a second one.
    ensures !repo.hasDotGit ==>
              && (GitInit in commands <==> |answers| >= 1 && answers[0] == "y")
              && (outcome == RepoNotCreated <==> |answers| >= 1 && answers[0] != "y")
              && (outcome == RepoCreated(true) <==> |answers| >= 2 && answers[0] == "y" && answers[1] == "y")
              && (outcome == RepoCreated(false) <==> |answers| >= 2 && answers[0] == "y" && answers[1] != "y")
              && commands == [GitVersion] + (if |answers| >= 1 && answers[0] == "y" then [GitInit] else [])
                             + (if outcome == RepoCreated(true) then [AddAll, Commit(InitialMessage)] else [])
    ensures repo.hasDotGit && (repo.status != "" || repo.diff != "") ==>
              var k := LeadingRepeats(answers, "retry");
              && |history| == k + 1 && AllUser(history, Prompt(repo))
              && (outcome.Committed? <==> k < |answers| && answers[k] == "y")
              && (outcome == Declined <==> k < |answers| && answers[k] != "y")
              && (outcome == InputEnded <==> k == |answers|)
    ensures outcome.Committed? ==>
              && |commands| == 5 && commands[3..] == [AddAll, Commit(outcome.message)]
              && |history| >= 1 && outcome.message == Show(server(DefaultModel, history))
    ensures repo.hasDotGit && !outcome.Committed? ==> |commands| == 3
    ensures (exists c :: c in commands && IsCommit(c)) ==> outcome.Committed? || outcome == RepoCreated(true)
  {
    commands := [GitVersion];
    history := [];
    if !repo.hasDotGit {
      var end, initCommands, _ := InitRepository(answers);
      commands := commands + initCommands;
      outcome := match end
        case InitDeclined => RepoNotCreated
        case Initialized(first) => RepoCreated(first)
        case InitInputEnded => InputEnded;
      return;
    }
    commands := commands + [GitStatus, GitDiff];
    if repo.status == "" && repo.diff == "" {
      return NoChanges, commands, history;
    }
    var client := new MistralAI(apiKey);
    var prompt := Prompt(repo);
    var i := 0;
    while true
      invariant i <= |answers| && i <= LeadingRepeats(answers, "retry")
      invariant forall j :: 0 <= j < i ==> answers[j] == "retry"
      invariant client.model == DefaultModel
      invariant |client.messages| == i && AllUser(client.messages, prompt)
      decreases |answers| - i
    {
      var answer := client.Message(prompt, server);
      if i == |answers| {
        return InputEnded, commands, client.messages;
      }
      if answers[i] != "retry" {
        history := client.messages;
        if answers[i] == "y" {
          commands := commands + [AddAll, Commit(Show(answer))];
          outcome := Committed(Show(answer));
        } else {
          outcome := Declined;
        }
        return;
      }
      i := i + 1;
    }
  }
}
