/** `main`: parse the command line, resolve the identity from the configuration file or the
    console, check it is complete, and issue the `git` commands. The process environment is a
    `Host`: the console input, the configuration file, the warnings written to the error
    stream, and the commands handed to `system`, in order. */
module Setup {
  import opened Streams
  import opened Config
  import opened Email
  import opened Args
  import opened Plan

  /** The two non-fatal warnings about the e-mail shape. */
  datatype Warning = GitHubEmailWarning | GitLabEmailWarning

  /** What a run leaves behind: its exit code, the console input not yet read, the
      configuration file, the warnings and the commands issued. */
  datatype Final = Final(exit: int, input: Stream, config: ConfigFile, warnings: seq<Warning>, commands: seq<string>)

  /** The warnings for an identity typed at the prompt: one per no-reply address that fails the check. */
  function EmailWarnings(id: Identity): seq<Warning>
  {
    (if ValidateEmail(id.githubEmail, GitHubNoReplyDomain) then [] else [GitHubEmailWarning])
    + (if ValidateEmail(id.gitlabEmail, GitLabNoReplyDomain) then [] else [GitLabEmailWarning])
  }

  /** The outcome of the identity-resolution part of `main`. */
  datatype Resolution =
    | LoadFailed
    | Resolved(id: Identity, input: Stream, config: ConfigFile, warnings: seq<Warning>)

  /** The first half of identity resolution. In private mode with an existing file the file is
      loaded and the console is not read. Otherwise four lines are read from the console, checked
      (only to warn) and saved to the file, in public mode as well. */
  function LoadOrPrompt(privateUser: bool, input: Stream, config: ConfigFile): Resolution
  {
    if privateUser && !config.Absent? then
      if config.Text? then Resolved(ReadFields(Open(config.content), Blank).1, input, config, [])
      else LoadFailed
    else
      var first := ReadFields(input, Blank);
      Resolved(first.1, first.0, Saved(config, first.1), EmailWarnings(first.1))
  }

  /** The second half: in public mode four more lines are read over the four fields. */
  function PublicPrompt(privateUser: bool, input: Stream, id: Identity): (Stream, Identity)
  {
    if privateUser then (input, id) else ReadFields(input, id)
  }

  /** The rest of `main` once the first half of identity resolution succeeded: the public
      prompts, the completeness check, and the commands. */
  function Finish(options: Options, r: Resolution): Final
    requires r.Resolved?
  {
    var (left, id) := PublicPrompt(options.privateUser, r.input, r.id);
    if !id.Complete() then Final(1, left, r.config, r.warnings, [])
    else Final(0, left, r.config, r.warnings, Commands(id, options.repo, options.privateUser))
  }

  /** The whole run of `main` on the given arguments, console input and configuration file. */
  function Outcome(argv: seq<string>, input: Stream, config: ConfigFile): Final
  {
    match ArgsOf(argv)
    case MissingRepo => Final(1, input, config, [], [])
    case EmptyRepo => Final(1, input, config, [], [])
    case Proceed(options) =>
      var r := LoadOrPrompt(options.privateUser, input, config);
      if r.LoadFailed? then Final(1, input, config, [], [])
      else Finish(options, r)
  }

  class Host {
    var input: Stream
    var config: ConfigFile
    var warnings: seq<Warning>
    var commands: seq<string>

    /** A process about to start, with its console input and the configuration file as found. */
    constructor (stdin: string, file: ConfigFile)
      ensures input == Open(stdin) && config == file && warnings == [] && commands == []
    {
      input := Open(stdin);
      config := file;
      warnings := [];
      commands := [];
    }

    /** `std::getline(std::cin, str)` where `str` held `prev`. */
    method Prompt(prev: string) returns (line: string)
      modifies this`input
      ensures (input, line) == ReadLine(old(input), prev)
    {
      input, line := GetLine(input, prev);
    }

    /** A warning written to the error stream. */
    method Warn(w: Warning)
      modifies this`warnings
      ensures warnings == old(warnings) + [w]
    {
      warnings := warnings + [w];
    }

    /** `system(command)`; its exit status is discarded. */
    method System(command: string)
      modifies this`commands
      ensures commands == old(commands) + [command]
    {
      commands := commands + [command];
    }

    /** Four prompts, read into the four fields in order; `id` holds their values before. */
    method PromptFields(id: Identity) returns (typed: Identity)
      modifies this`input
      ensures (input, typed) == ReadFields(old(input), id)
    {
      var githubUser := Prompt(id.githubUser);
      var gitlabUser := Prompt(id.gitlabUser);
      var githubEmail := Prompt(id.githubEmail);
      var gitlabEmail := Prompt(id.gitlabEmail);
      typed := Identity(githubUser, gitlabUser, githubEmail, gitlabEmail);
    }

    /** The e-mail shape checks: each failure only writes a warning. */
    method CheckEmails(id: Identity)
      modifies this`warnings
      ensures warnings == old(warnings) + EmailWarnings(id)
    {
      if !ValidateEmail(id.githubEmail, GitHubNoReplyDomain) {
        Warn(GitHubEmailWarning);
      }
      if !ValidateEmail(id.gitlabEmail, GitLabNoReplyDomain) {
        Warn(GitLabEmailWarning);
      }
    }

    /** The first half of identity resolution in `main`; `ok` is false when the existing file
        cannot be loaded. */
    method LoadOrPromptIdentity(privateUser: bool) returns (ok: bool, id: Identity)
      modifies this`input, this`config, this`warnings
      ensures var r := LoadOrPrompt(privateUser, old(input), old(config));
              if r.LoadFailed? then
                !ok && input == old(input) && config == old(config) && warnings == old(warnings)
              else
                ok && id == r.id && input == r.input && config == r.config
                && warnings == old(warnings) + r.warnings
    {
      id := Blank;
      if privateUser && !config.Absent? {
        ok, id := LoadConfig(config, id);
        return;
      }
      id := PromptFields(id);
      CheckEmails(id);
      config := SaveConfig(config, id);
      ok := true;
    }

    /** The commands of a successful run, issued in order. */
    method Apply(id: Identity, repo: string, privateUser: bool)
      modifies this`commands
      ensures commands == old(commands) + Commands(id, repo, privateUser)
    {
      var githubUrl := GitHubUrl(id.githubUser, repo);
      var gitlabUrl := GitLabUrl(id.gitlabUser, repo);
      System("git init");
      System("git remote add github " + githubUrl);
      System("git config remote.github.url " + githubUrl);
      System("git remote add gitlab " + gitlabUrl);
      System("git config remote.gitlab.url " + gitlabUrl);
      System("git config user.email " + id.githubEmail);
      System("git config user.name " + id.githubUser);
      if privateUser {
        System("git config remote.github.email " + id.githubEmail);
        System("git config remote.gitlab.email " + id.gitlabEmail);
        System("git config --global user.email " + id.githubEmail);
        System("git config --global user.name " + id.githubUser);
      }
    }

    /** `main`, returning its exit code. */
    method Run(argv: seq<string>) returns (exit: int)
      modifies this
      ensures var f := Outcome(argv, old(input), old(config));
              exit == f.exit && input == f.input && config == f.config
              && warnings == old(warnings) + f.warnings && commands == old(commands) + f.commands
    {
      var parsed := ParseArgs(argv);
      if parsed.MissingRepo? {
        return 1;
      }
      if parsed.EmptyRepo? {
        return 1;
      }
      var repo, privateUser := parsed.options.repo, parsed.options.privateUser;
      ghost var input0, config0 := input, config;
      ghost var r := LoadOrPrompt(privateUser, input0, config0);
      var ok, id := LoadOrPromptIdentity(privateUser);
      if !ok {
        return 1;
      }
      assert Outcome(argv, input0, config0) == Finish(parsed.options, r);
      if !privateUser {
        id := PromptFields(id);
      }
      if !id.Complete() {
        return 1;
      }
      Apply(id, repo, privateUser);
      return 0;
    }
  }
}
