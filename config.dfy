/** The identity record and its persisted form, the file
    `$HOME/.git-init-private-users-config.txt`: `save_config` writes four `KEY=value` lines and
    `load_config` reads the first four lines back by position, without looking at the keys. */
module Config {
  import opened Streams

  /** The four strings that identify the user on the two hosting providers. */
  datatype Identity = Identity(githubUser: string, gitlabUser: string, githubEmail: string, gitlabEmail: string)
  {
    /** None of the four fields is empty. */
    predicate Complete()
    {
      githubUser != [] && gitlabUser != [] && githubEmail != [] && gitlabEmail != []
    }

    predicate NoLineFeed()
    {
      '\n' !in githubUser && '\n' !in gitlabUser && '\n' !in githubEmail && '\n' !in gitlabEmail
    }
  }

  /** The four empty strings `main` declares before resolving the identity. */
  const Blank := Identity("", "", "", "")

  /** The configuration file: missing (its `stat` fails), present but impossible to open as a
      file stream, or present with the given text. */
  datatype ConfigFile = Absent | Unopenable | Text(content: string)

  /** The four lines `save_config` writes, in order. */
  function ConfigLines(id: Identity): seq<string>
  {
    ["GITHUB_USER=" + id.githubUser, "GITLAB_USER=" + id.gitlabUser,
     "GITHUB_EMAIL=" + id.githubEmail, "GITLAB_EMAIL=" + id.gitlabEmail]
  }

  /** The file after `save_config`: an output file stream truncates it and writes the four lines;
      when the stream cannot be opened every write is dropped and the file is as it was. */
  function Saved(file: ConfigFile, id: Identity): ConfigFile
  {
    if file.Unopenable? then file else Text(Join(ConfigLines(id)))
  }

  /** `save_config`: streams the four `KEY=value` lines into the file, one after another. */
  method SaveConfig(file: ConfigFile, id: Identity) returns (written: ConfigFile)
    ensures written == Saved(file, id)
  {
    if file.Unopenable? {
      return file;
    }
    var text := "";
    text := text + "GITHUB_USER=" + id.githubUser + "\n";
    text := text + "GITLAB_USER=" + id.gitlabUser + "\n";
    text := text + "GITHUB_EMAIL=" + id.githubEmail + "\n";
    text := text + "GITLAB_EMAIL=" + id.gitlabEmail + "\n";
    var lines := ConfigLines(id);
    assert text == lines[0] + "\n" + lines[1] + "\n" + lines[2] + "\n" + lines[3] + "\n";
    JoinFour(lines);
    written := Text(text);
  }

  lemma JoinFour(lines: seq<string>)
    requires |lines| == 4
    ensures Join(lines) == lines[0] + "\n" + lines[1] + "\n" + lines[2] + "\n" + lines[3] + "\n"
  {
    assert Join(lines[4..]) == [];
    assert Join(lines[3..]) == lines[3] + "\n";
    assert Join(lines[2..]) == lines[2] + "\n" + Join(lines[3..]);
    assert Join(lines[1..]) == lines[1] + "\n" + Join(lines[2..]);
  }

  /** Four successive `std::getline` calls from `s` into the four fields, in declaration order;
      `id` holds the fields' values before the calls. */
  function ReadFields(s: Stream, id: Identity): (Stream, Identity)
  {
    var githubUser := ReadLine(s, id.githubUser);
    var gitlabUser := ReadLine(githubUser.0, id.gitlabUser);
    var githubEmail := ReadLine(gitlabUser.0, id.githubEmail);
    var gitlabEmail := ReadLine(githubEmail.0, id.gitlabEmail);
    (gitlabEmail.0, Identity(githubUser.1, gitlabUser.1, githubEmail.1, gitlabEmail.1))
  }

  /** `load_config`: when the file opens, reads its first four lines into the four fields by
      position and reports success whatever the lines hold; otherwise reports failure and leaves
      the fields alone. */
  method LoadConfig(file: ConfigFile, id: Identity) returns (ok: bool, loaded: Identity)
    ensures ok <==> file.Text?
    ensures ok ==> loaded == ReadFields(Open(file.content), id).1
    ensures !ok ==> loaded == id
  {
    if !file.Text? {
      return false, id;
    }
    var s := Open(file.content);
    var githubUser, gitlabUser, githubEmail, gitlabEmail;
    s, githubUser := GetLine(s, id.githubUser);
    s, gitlabUser := GetLine(s, id.gitlabUser);
    s, githubEmail := GetLine(s, id.githubEmail);
    s, gitlabEmail := GetLine(s, id.gitlabEmail);
    return true, Identity(githubUser, gitlabUser, githubEmail, gitlabEmail);
  }

  /** The i-th line, or "" past the end. */
  function LineOr(lines: seq<string>, i: nat): string
  {
    if i < |lines| then lines[i] else ""
  }

  /** The stream after reading `n` lines from joined `lines`: the remaining lines, or an
      exhausted stream with both eofbit and failbit once the lines ran out. */
  function AfterLines(lines: seq<string>, n: nat): Stream
  {
    if n <= |lines| then Open(Join(lines[n..])) else Stream([], true, true)
  }

  lemma ReadAfterLines(lines: seq<string>, n: nat, prev: string)
    requires NoLineFeed(lines)
    ensures ReadLine(AfterLines(lines, n), prev)
            == (AfterLines(lines, n + 1), if n < |lines| then lines[n] else if n == |lines| then "" else prev)
  {
    if n <= |lines| {
      var tail := lines[n..];
      assert NoLineFeed(tail) by {
        forall i | 0 <= i < |tail| ensures '\n' !in tail[i] { assert tail[i] == lines[n + i]; }
      }
      ReadJoined(tail, prev);
      if n < |lines| {
        assert tail[1..] == lines[n + 1..];
      }
    }
  }

  /** No line read yet: the stream over all the lines. */
  lemma NothingRead(lines: seq<string>)
    ensures AfterLines(lines, 0) == Open(Join(lines))
  {
    assert lines[0..] == lines;
  }

  /** Reading four fields after `n` newline-terminated lines takes the next four lines in
      order; when there are fewer, the fields that start empty stay empty. */
  lemma ReadFieldsOfLines(lines: seq<string>, n: nat, id: Identity)
    requires NoLineFeed(lines)
    requires |lines| >= n + 4 || id == Blank
    ensures ReadFields(AfterLines(lines, n), id)
            == (AfterLines(lines, n + 4),
                Identity(LineOr(lines, n), LineOr(lines, n + 1), LineOr(lines, n + 2), LineOr(lines, n + 3)))
  {
    var s0 := AfterLines(lines, n);
    ReadAfterLines(lines, n, id.githubUser);
    var r1 := ReadLine(s0, id.githubUser);
    assert r1.0 == AfterLines(lines, n + 1);
    ReadAfterLines(lines, n + 1, id.gitlabUser);
    var r2 := ReadLine(r1.0, id.gitlabUser);
    assert r2.0 == AfterLines(lines, n + 2);
    ReadAfterLines(lines, n + 2, id.githubEmail);
    var r3 := ReadLine(r2.0, id.githubEmail);
    assert r3.0 == AfterLines(lines, n + 3);
    ReadAfterLines(lines, n + 3, id.gitlabEmail);
    var r4 := ReadLine(r3.0, id.gitlabEmail);
    assert r4.0 == AfterLines(lines, n + 4);
    assert r1.1 == LineOr(lines, n);
    assert r2.1 == LineOr(lines, n + 1);
    assert r3.1 == LineOr(lines, n + 2);
    assert r4.1 == LineOr(lines, n + 3);
  }

  /** Loading what `save_config` wrote does NOT give the identity back: every field keeps its
      `KEY=` prefix, and so differs from the value that was saved. */
  lemma LoadAfterSaveKeepsKeys(file: ConfigFile, id: Identity, before: Identity)
    requires !file.Unopenable?
    requires id.NoLineFeed()
    ensures Saved(file, id).Text?
    ensures ReadFields(Open(Saved(file, id).content), before).1
            == Identity("GITHUB_USER=" + id.githubUser, "GITLAB_USER=" + id.gitlabUser,
                        "GITHUB_EMAIL=" + id.githubEmail, "GITLAB_EMAIL=" + id.gitlabEmail)
    ensures ReadFields(Open(Saved(file, id).content), before).1 != id
  {
    var lines := ConfigLines(id);
    assert NoLineFeed(lines) by {
      PrefixKeepsNoLineFeed("GITHUB_USER=", id.githubUser);
      PrefixKeepsNoLineFeed("GITLAB_USER=", id.gitlabUser);
      PrefixKeepsNoLineFeed("GITHUB_EMAIL=", id.githubEmail);
      PrefixKeepsNoLineFeed("GITLAB_EMAIL=", id.gitlabEmail);
    }
    ReadFieldsOfLines(lines, 0, before);
    NothingRead(lines);
    assert |lines[0]| > |id.githubUser|;
  }

  lemma PrefixKeepsNoLineFeed(key: string, value: string)
    requires '\n' !in key && '\n' !in value
    ensures '\n' !in key + value
  {
  }

  /** The file that a first run saved, read back by a later run, is exactly four lines long:
      the stream is left empty but still good after the fourth line. */
  lemma SavedFileHoldsFourLines(id: Identity)
    requires id.NoLineFeed()
    ensures ReadFields(Open(Join(ConfigLines(id))), Blank).0 == Open("")
  {
    var lines := ConfigLines(id);
    assert NoLineFeed(lines) by {
      PrefixKeepsNoLineFeed("GITHUB_USER=", id.githubUser);
      PrefixKeepsNoLineFeed("GITLAB_USER=", id.gitlabUser);
      PrefixKeepsNoLineFeed("GITHUB_EMAIL=", id.githubEmail);
      PrefixKeepsNoLineFeed("GITLAB_EMAIL=", id.gitlabEmail);
    }
    ReadFieldsOfLines(lines, 0, Blank);
    NothingRead(lines);
  }
}
