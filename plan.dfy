/** The remote URLs and the ordered `git` commands `main` hands to `system`. */
module Plan {
  import opened Config

  /** The SSH URL of the repository on GitHub. */
  function GitHubUrl(user: string, repo: string): string
  {
    "git@github.com:" + user + "/" + repo + ".git"
  }

  /** The SSH URL of the repository on GitLab. */
  function GitLabUrl(user: string, repo: string): string
  {
    "git@gitlab.com:" + user + "/" + repo + ".git"
  }

  /** The seven commands of every successful run: initialise, add and point each remote, and
      set the local author from the GitHub identity. */
  function PublicCommands(id: Identity, repo: string): seq<string>
  {
    var githubUrl := GitHubUrl(id.githubUser, repo);
    var gitlabUrl := GitLabUrl(id.gitlabUser, repo);
    ["git init",
     "git remote add github " + githubUrl,
     "git config remote.github.url " + githubUrl,
     "git remote add gitlab " + gitlabUrl,
     "git config remote.gitlab.url " + gitlabUrl,
     "git config user.email " + id.githubEmail,
     "git config user.name " + id.githubUser]
  }

  /** The four commands private mode adds: the per-remote e-mail keys and the global author. */
  function PrivateCommands(id: Identity): seq<string>
  {
    ["git config remote.github.email " + id.githubEmail,
     "git config remote.gitlab.email " + id.gitlabEmail,
     "git config --global user.email " + id.githubEmail,
     "git config --global user.name " + id.githubUser]
  }

  /** Every command of a successful run, in the order they are issued. */
  function Commands(id: Identity, repo: string, privateUser: bool): seq<string>
  {
    PublicCommands(id, repo) + if privateUser then PrivateCommands(id) else []
  }

  const GlobalPrefix := "git config --global "

  predicate StartsWith(s: string, prefix: string)
  {
    |prefix| <= |s| && s[..|prefix|] == prefix
  }

  /** A public run issues seven commands and a private run eleven, and the private run's first
      seven are the public run's. */
  lemma CommandCounts(id: Identity, repo: string)
    ensures |Commands(id, repo, false)| == 7 && |Commands(id, repo, true)| == 11
    ensures Commands(id, repo, true)[..7] == Commands(id, repo, false)
  {
  }

  /** No command of a public run touches the global configuration. */
  lemma PublicNeverGlobal(id: Identity, repo: string)
    ensures forall i :: 0 <= i < |Commands(id, repo, false)| ==> !StartsWith(Commands(id, repo, false)[i], GlobalPrefix)
  {
    var cmds := Commands(id, repo, false);
    assert |cmds| == 7;
    assert !StartsWith(cmds[0], GlobalPrefix) by { assert |cmds[0]| < |GlobalPrefix|; }
    assert !StartsWith(cmds[1], GlobalPrefix) by { assert cmds[1][4] == 'r' != GlobalPrefix[4]; }
    assert !StartsWith(cmds[2], GlobalPrefix) by { assert cmds[2][11] == 'r' != GlobalPrefix[11]; }
    assert !StartsWith(cmds[3], GlobalPrefix) by { assert cmds[3][4] == 'r' != GlobalPrefix[4]; }
    assert !StartsWith(cmds[4], GlobalPrefix) by { assert cmds[4][11] == 'r' != GlobalPrefix[11]; }
    assert !StartsWith(cmds[5], GlobalPrefix) by { assert cmds[5][11] == 'u' != GlobalPrefix[11]; }
    assert !StartsWith(cmds[6], GlobalPrefix) by { assert cmds[6][11] == 'u' != GlobalPrefix[11]; }
  }

  /** In a private run exactly the last two commands touch the global configuration, and they
      set the global author to the GitHub identity. */
  lemma PrivateGlobalIsLast(id: Identity, repo: string)
    ensures var cmds := Commands(id, repo, true);
            (forall i :: 0 <= i < 9 ==> !StartsWith(cmds[i], GlobalPrefix))
            && cmds[9] == GlobalPrefix + "user.email " + id.githubEmail
            && cmds[10] == GlobalPrefix + "user.name " + id.githubUser
  {
    var cmds := Commands(id, repo, true);
    PublicNeverGlobal(id, repo);
    CommandCounts(id, repo);
    assert forall i :: 0 <= i < 7 ==> cmds[i] == Commands(id, repo, false)[i];
    assert !StartsWith(cmds[7], GlobalPrefix) by { assert cmds[7][11] == 'r' != GlobalPrefix[11]; }
    assert !StartsWith(cmds[8], GlobalPrefix) by { assert cmds[8][11] == 'r' != GlobalPrefix[11]; }
  }

  /** The GitHub URL determines the user when the repository is fixed. */
  lemma {:induction false} GitHubUrlDeterminesUser(u: string, v: string, repo: string)
    requires GitHubUrl(u, repo) == GitHubUrl(v, repo)
    ensures u == v
  {
    var a, b := GitHubUrl(u, repo), GitHubUrl(v, repo);
    assert |u| == |v|;
    forall i | 0 <= i < |u| ensures u[i] == v[i] {
      assert a[15 + i] == u[i] && b[15 + i] == v[i];
    }
  }

  /** The GitLab URL determines the user when the repository is fixed. */
  lemma {:induction false} GitLabUrlDeterminesUser(u: string, v: string, repo: string)
    requires GitLabUrl(u, repo) == GitLabUrl(v, repo)
    ensures u == v
  {
    var a, b := GitLabUrl(u, repo), GitLabUrl(v, repo);
    assert |u| == |v|;
    forall i | 0 <= i < |u| ensures u[i] == v[i] {
      assert a[15 + i] == u[i] && b[15 + i] == v[i];
    }
  }

  /** The two remotes never share a URL: the host names differ. */
  lemma RemotesDiffer(u: string, v: string, repo: string, other: string)
    ensures GitHubUrl(u, repo) != GitLabUrl(v, other)
  {
    assert GitHubUrl(u, repo)[7] == 'h' && GitLabUrl(v, other)[7] == 'l';
  }
}
