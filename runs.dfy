/** What a whole run of `main` does, stated over its inputs (arguments, console input,
    configuration file) and its results (exit code, remaining input, file, warnings, commands). */
module Runs {
  import opened Streams
  import opened Config
  import opened Email
  import opened Args
  import opened Plan
  import opened Setup

  /** With no repository argument, or an empty one, the run exits with code 1 before it looks
      at the file, reads the console or issues a command. */
  lemma BadArgumentsExitEarly(argv: seq<string>, input: Stream, config: ConfigFile)
    requires |argv| < 2 || argv[1] == ""
    ensures Outcome(argv, input, config) == Final(1, input, config, [], [])
  {
  }

  /** Every run exits with 0 or 1; a run that exits with 1 has issued no command; a run that
      exits with 0 had a repository argument and issued exactly the commands for some complete
      identity, the repository named by `argv[1]` and the mode the flag selects. */
  lemma ExitCodes(argv: seq<string>, input: Stream, config: ConfigFile)
    ensures var f := Outcome(argv, input, config);
            (f.exit == 0 || f.exit == 1)
            && (f.exit == 1 ==> f.commands == [])
            && (f.exit == 0 ==>
                  |argv| >= 2 && argv[1] != ""
                  && exists id: Identity :: id.Complete() && f.commands == Commands(id, argv[1], HasPrivateFlag(argv)))
  {
    var f := Outcome(argv, input, config);
    if ArgsOf(argv).Proceed? {
      var options := ArgsOf(argv).options;
      var r := LoadOrPrompt(options.privateUser, input, config);
      if r.Resolved? {
        var id := PublicPrompt(options.privateUser, r.input, r.id).1;
        if f.exit == 0 {
          assert id.Complete() && f.commands == Commands(id, argv[1], HasPrivateFlag(argv));
        }
      }
    }
  }

  /** A public run never changes the global git configuration. */
  lemma PublicRunNeverGlobal(argv: seq<string>, input: Stream, config: ConfigFile)
    requires !HasPrivateFlag(argv)
    ensures var cmds := Outcome(argv, input, config).commands;
            forall i :: 0 <= i < |cmds| ==> !StartsWith(cmds[i], GlobalPrefix)
  {
    ExitCodes(argv, input, config);
    var f := Outcome(argv, input, config);
    if f.exit == 0 {
      var id: Identity :| id.Complete() && f.commands == Commands(id, argv[1], false);
      PublicNeverGlobal(id, argv[1]);
    }
  }

  /** Private mode with an existing file reads no console input, leaves the file as it is and
      warns about nothing; a file that cannot be opened ends the run with code 1, and a file
      that opens supplies the identity, by position, that the commands use. */
  lemma PrivateRunWithFile(argv: seq<string>, input: Stream, config: ConfigFile)
    requires |argv| >= 2 && argv[1] != "" && HasPrivateFlag(argv)
    requires !config.Absent?
    ensures var f := Outcome(argv, input, config);
            f.input == input && f.config == config && f.warnings == []
            && (config.Unopenable? ==> f.exit == 1 && f.commands == [])
            && (config.Text? ==>
                  var id := ReadFields(Open(config.content), Blank).1;
                  f.commands == if id.Complete() then Commands(id, argv[1], true) else [])
  {
  }

  /** A run that prompts (public mode, or private mode without a file) on console input of
      newline-terminated lines, enough of them for every prompt: the first four lines are
      checked, warned about and saved, in public mode too; in private mode they are the identity,
      in public mode the next four lines replace them; whether the e-mail checks pass changes
      nothing but the warnings. */
  lemma PromptedRun(argv: seq<string>, lines: seq<string>, config: ConfigFile)
    requires |argv| >= 2 && argv[1] != ""
    requires !(HasPrivateFlag(argv) && !config.Absent?)
    requires NoLineFeed(lines)
    requires |lines| >= if HasPrivateFlag(argv) then 4 else 8
    ensures var privateUser := HasPrivateFlag(argv);
            var first := Identity(lines[0], lines[1], lines[2], lines[3]);
            var id := if privateUser then first else Identity(lines[4], lines[5], lines[6], lines[7]);
            var f := Outcome(argv, AfterLines(lines, 0), config);
            f.config == Saved(config, first)
            && f.warnings == EmailWarnings(first)
            && f.input == AfterLines(lines, if privateUser then 4 else 8)
            && f.exit == (if id.Complete() then 0 else 1)
            && f.commands == (if id.Complete() then Commands(id, argv[1], privateUser) else [])
  {
    var privateUser := HasPrivateFlag(argv);
    var options := Options(argv[1], privateUser);
    assert ArgsOf(argv) == Proceed(options);
    var first := Identity(lines[0], lines[1], lines[2], lines[3]);
    ReadFieldsOfLines(lines, 0, Blank);
    var r := LoadOrPrompt(privateUser, AfterLines(lines, 0), config);
    assert r == Resolved(first, AfterLines(lines, 4), Saved(config, first), EmailWarnings(first));
    if !privateUser {
      ReadFieldsOfLines(lines, 4, first);
      assert PublicPrompt(privateUser, r.input, r.id) == (AfterLines(lines, 8), Identity(lines[4], lines[5], lines[6], lines[7]));
    }
    assert Outcome(argv, AfterLines(lines, 0), config) == Finish(options, r);
  }

  /** A public run whose console holds only four newline-terminated lines ends with code 1: the
      second prompt for the GitHub user finds the input exhausted and empties that field. */
  lemma PublicRunOnFourLinesFails(argv: seq<string>, lines: seq<string>, config: ConfigFile)
    requires |argv| >= 2 && argv[1] != "" && !HasPrivateFlag(argv)
    requires NoLineFeed(lines) && |lines| == 4
    ensures Outcome(argv, AfterLines(lines, 0), config).exit == 1
    ensures Outcome(argv, AfterLines(lines, 0), config).commands == []
  {
    ReadFieldsOfLines(lines, 0, Blank);
    var first := Identity(lines[0], lines[1], lines[2], lines[3]);
    ReadAfterLines(lines, 4, first.githubUser);
    assert ReadFields(AfterLines(lines, 4), first).1.githubUser == "";
  }

  /** A private run on a file that `save_config` wrote for `id` always passes the completeness
      check, whatever `id` holds, even empty fields: the loaded fields keep their `KEY=` prefixes,
      so none is empty, and the commands carry those prefixes into the URLs and the author
      settings. */
  lemma PrivateRunOnSavedFile(argv: seq<string>, input: Stream, file: ConfigFile, id: Identity)
    requires |argv| >= 2 && argv[1] != "" && HasPrivateFlag(argv)
    requires !file.Unopenable? && id.NoLineFeed()
    ensures var keyed := Identity("GITHUB_USER=" + id.githubUser, "GITLAB_USER=" + id.gitlabUser,
                                  "GITHUB_EMAIL=" + id.githubEmail, "GITLAB_EMAIL=" + id.gitlabEmail);
            Outcome(argv, input, Saved(file, id)) == Final(0, input, Saved(file, id), [], Commands(keyed, argv[1], true))
  {
    LoadAfterSaveKeepsKeys(file, id, Blank);
    PrivateRunWithFile(argv, input, Saved(file, id));
  }

  /** The file a prompting run leaves behind holds the first four lines typed. */
  lemma PromptedRunSaves(argv: seq<string>, lines: seq<string>, config: ConfigFile)
    requires |argv| >= 2 && argv[1] != "" && !(HasPrivateFlag(argv) && !config.Absent?)
    requires NoLineFeed(lines) && |lines| >= 8
    ensures Identity(lines[0], lines[1], lines[2], lines[3]).NoLineFeed()
    ensures Outcome(argv, AfterLines(lines, 0), config).config
            == Saved(config, Identity(lines[0], lines[1], lines[2], lines[3]))
  {
    PromptedRun(argv, lines, config);
    assert '\n' !in lines[0] && '\n' !in lines[1] && '\n' !in lines[2] && '\n' !in lines[3];
  }

  /** Once a prompting run has saved the file, the next private run succeeds with the keyed
      fields of the first four lines typed in the prompting run: its GitHub remote, for one,
      points at the user `GITHUB_USER=<first line>`, not at the user typed. */
  lemma LaterPrivateRunUsesKeyedFields(argv1: seq<string>, lines: seq<string>, config: ConfigFile,
                                       argv2: seq<string>, input2: Stream)
    requires |argv1| >= 2 && argv1[1] != "" && !(HasPrivateFlag(argv1) && !config.Absent?)
    requires !config.Unopenable?
    requires NoLineFeed(lines) && |lines| >= 8
    requires |argv2| >= 2 && argv2[1] != "" && HasPrivateFlag(argv2)
    ensures var f1 := Outcome(argv1, AfterLines(lines, 0), config);
            var f2 := Outcome(argv2, input2, f1.config);
            f2.exit == 0 && f2.input == input2 && |f2.commands| == 11
            && f2.commands == Commands(Identity("GITHUB_USER=" + lines[0], "GITLAB_USER=" + lines[1],
                                                "GITHUB_EMAIL=" + lines[2], "GITLAB_EMAIL=" + lines[3]),
                                       argv2[1], true)
  {
    var first := Identity(lines[0], lines[1], lines[2], lines[3]);
    PromptedRunSaves(argv1, lines, config);
    PrivateRunOnSavedFile(argv2, input2, config, first);
    var keyed := Identity("GITHUB_USER=" + lines[0], "GITLAB_USER=" + lines[1],
                          "GITHUB_EMAIL=" + lines[2], "GITLAB_EMAIL=" + lines[3]);
    CommandCounts(keyed, argv2[1]);
  }

  /** A public run whose console input is four lines with no '\n' after the last one: the
      first prompt block reads the four values and reaches the end of the input; every read of
      the second block then fails and leaves the fields alone, so the values typed once are both
      saved and used. */
  lemma PublicRunOnUnterminatedInput(argv: seq<string>, id: Identity, config: ConfigFile)
    requires |argv| >= 2 && argv[1] != "" && !HasPrivateFlag(argv)
    requires id.NoLineFeed() && id.gitlabEmail != []
    ensures var text := id.githubUser + "\n" + id.gitlabUser + "\n" + id.githubEmail + "\n" + id.gitlabEmail;
            var f := Outcome(argv, Open(text), config);
            f.config == Saved(config, id)
            && f.exit == (if id.Complete() then 0 else 1)
            && f.commands == (if id.Complete() then Commands(id, argv[1], false) else [])
  {
    var t3 := id.githubEmail + "\n" + id.gitlabEmail;
    var t2 := id.gitlabUser + "\n" + t3;
    var t1 := id.githubUser + "\n" + t2;
    assert id.githubUser + "\n" + id.gitlabUser + "\n" + id.githubEmail + "\n" + id.gitlabEmail == t1;
    ReadTerminated(id.githubUser, t2, "");
    ReadTerminated(id.gitlabUser, t3, "");
    ReadTerminated(id.githubEmail, id.gitlabEmail, "");
    ReadUnterminated(id.gitlabEmail, "");
    var done := Stream([], true, false);
    assert ReadFields(Open(t1), Blank) == (done, id);
    assert ReadFields(done, id) == (done.(fail := true), id);
    var options := Options(argv[1], false);
    assert ArgsOf(argv) == Proceed(options);
    var r := LoadOrPrompt(false, Open(t1), config);
    assert r == Resolved(id, done, Saved(config, id), EmailWarnings(id));
    assert Outcome(argv, Open(t1), config) == Finish(options, r);
  }

  /** A prompting run in which the two e-mail lines are the no-reply addresses that
      `get_github_email` and `get_gitlab_email` build draws both warnings: the check as written
      rejects every such address. */
  lemma NoReplyPromptsDrawBothWarnings(argv: seq<string>, lines: seq<string>, config: ConfigFile)
    requires |argv| >= 2 && argv[1] != ""
    requires !(HasPrivateFlag(argv) && !config.Absent?)
    requires NoLineFeed(lines)
    requires |lines| >= if HasPrivateFlag(argv) then 4 else 8
    requires lines[2] == GitHubEmail(lines[0]) && lines[3] == GitLabEmail(lines[1])
    ensures Outcome(argv, AfterLines(lines, 0), config).warnings == [GitHubEmailWarning, GitLabEmailWarning]
  {
    PromptedRun(argv, lines, config);
    NoReplyAddressesFail(lines[0]);
    NoReplyAddressesFail(lines[1]);
  }
}
