/**
 * What both entry points share: the commands they hand to `subprocess.run`,
 * the way a run of identical answers at a prompt is counted, and the
 * "no repository yet" branch, which `commit_maker.py` and `main.py` carry
 * in the same form.
 */
module Shell {
  /** An argument vector as given to `subprocess.run`. */
  type Command = seq<string>

  const GitVersion: Command := ["git", "--version"]
  const GitInit: Command := ["git", "init"]
  const AddAll: Command := ["git", "add", "-A"]

  /** The message of the first commit, quotes included: no shell strips them. */
  const InitialMessage: string := "'Initial commit'"

  function Commit(message: string): (c: Command)
  {
    ["git", "commit", "-m", message]
  }

  /** A command that creates a commit. */
  predicate IsCommit(c: Command)
  {
    |c| == 4 && c[0] == "git" && c[1] == "commit" && c[2] == "-m"
  }

  /**
   * How many answers in a row, from the first, are exactly `token`: the
   * number of times a loop that goes round again on `token` goes round.
   */
  function LeadingRepeats(answers: seq<string>, token: string): (k: nat)
    ensures k <= |answers|
    ensures forall j :: 0 <= j < k ==> answers[j] == token
    ensures k < |answers| ==> answers[k] != token
  {
    if answers == [] || answers[0] != token then 0
    else 1 + LeadingRepeats(answers[1..], token)
  }

  /** How the "no repository" branch ends. */
  datatype InitEnd = InitDeclined | Initialized(firstCommit: bool) | InitInputEnded

  /**
   * The branch taken when the working directory has no `.git`: `git init`
   * only on the answer `y`, then the first commit only on a second `y`.
   * Running out of answers is the end of input at a prompt.
   */
  method InitRepository(answers: seq<string>) returns (end: InitEnd, commands: seq<Command>, asked: nat)
    ensures asked <= 2 && asked <= |answers|
    ensures end == InitInputEnded <==> |answers| == 0 || (|answers| == 1 && answers[0] == "y")
    ensures GitInit in commands <==> |answers| >= 1 && answers[0] == "y"
    ensures end == InitDeclined <==> |answers| >= 1 && answers[0] != "y"
    ensures end == Initialized(true) <==> |answers| >= 2 && answers[0] == "y" && answers[1] == "y"
    ensures end == Initialized(false) <==> |answers| >= 2 && answers[0] == "y" && answers[1] != "y"
    ensures asked == if |answers| >= 1 && answers[0] == "y" then (if |answers| >= 2 then 2 else 1)
                     else (if |answers| >= 1 then 1 else 0)
    ensures commands == (if |answers| >= 1 && answers[0] == "y" then [GitInit] else [])
                        + (if end == Initialized(true) then [AddAll, Commit(InitialMessage)] else [])
    ensures end == Initialized(true) ==> commands == [GitInit, AddAll, Commit(InitialMessage)]
    ensures end != Initialized(true) ==> AddAll !in commands && forall c :: c in commands ==> !IsCommit(c)
  {
    commands, asked := [], 0;
    if |answers| == 0 {
      return InitInputEnded, commands, asked;
    }
    asked := 1;
    if answers[0] != "y" {
      return InitDeclined, commands, asked;
    }
    commands := commands + [GitInit];
    if |answers| == 1 {
      return InitInputEnded, commands, asked;
    }
    asked := 2;
    if answers[1] == "y" {
      commands := commands + [AddAll, Commit(InitialMessage)];
      end := Initialized(true);
    } else {
      end := Initialized(false);
    }
  }
}
