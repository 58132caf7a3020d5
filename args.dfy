/** The command line `<program> <repository_name> [--private-user]`. */
module Args {

  const PrivateFlag := "--private-user"

  /** The repository name and whether private mode was asked for. */
  datatype Options = Options(repo: string, privateUser: bool)

  /** The two usage errors, both of which end the program with exit code 1. */
  datatype Parsed = Proceed(options: Options) | MissingRepo | EmptyRepo

  /** Some argument after the repository name is exactly the private-mode flag. */
  predicate HasPrivateFlag(argv: seq<string>)
  {
    exists i :: 2 <= i < |argv| && argv[i] == PrivateFlag
  }

  /** What the command line means: `argv[0]` is the program, `argv[1]` the repository name
      whatever its text, and private mode is on exactly when a later argument is the flag;
      every other argument is ignored. */
  function ArgsOf(argv: seq<string>): Parsed
  {
    if |argv| < 2 then MissingRepo
    else if argv[1] == "" then EmptyRepo
    else Proceed(Options(argv[1], HasPrivateFlag(argv)))
  }

  /** The argument handling at the top of `main`: the two checks, then a scan of the remaining
      arguments that raises the private-mode flag. */
  method ParseArgs(argv: seq<string>) returns (r: Parsed)
    ensures r == ArgsOf(argv)
  {
    if |argv| < 2 {
      return MissingRepo;
    }
    var repo := argv[1];
    if repo == "" {
      return EmptyRepo;
    }
    var privateUser := false;
    for i := 2 to |argv|
      invariant privateUser <==> exists j :: 2 <= j < i && argv[j] == PrivateFlag
    {
      if argv[i] == PrivateFlag {
        privateUser := true;
      }
    }
    return Proceed(Options(repo, privateUser));
  }

  /** The flag in the repository-name position is taken as the name, and private mode stays off. */
  lemma FlagAsRepositoryName(program: string)
    ensures ArgsOf([program, PrivateFlag]) == Proceed(Options(PrivateFlag, false))
  {
  }
}
