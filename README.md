# git-init-setup, modelled in Dafny

`git-init-setup <repository_name> [--private-user]` initialises a git repository and adds two
remotes, `github` and `gitlab`, with SSH URLs built from the user's names on the two hosting
providers. It also sets the commit author. In private mode it sets per-remote e-mail keys and the
global author too, and it reuses the identity stored in
`$HOME/.git-init-private-users-config.txt`. That file is written as four `KEY=value` lines and
read back by position.

The model follows `main.cpp` module by module:

- `Streams` — `std::getline` on the console and on the configuration file. It is a function
  `ReadLine` on a stream value (remaining text, eofbit, failbit) and a method `GetLine` that reads
  character by character and is proved against that function.
- `Email` — `get_github_email`, `get_gitlab_email`, and `validate_email`. The check is written
  out as a scanner for the pattern `main.cpp` actually compiles (see Findings), proved equal to a
  description of that pattern's language. Beside it is the check the code evidently intended,
  with the domain spliced into the pattern.
- `Config` — the four-field identity, the file, `save_config` and `load_config`.
- `Args` — the argument checks and the scan for `--private-user`.
- `Plan` — the two remote URLs and the ordered list of `git` commands.
- `Setup` — `main`. The process is a `Host` object: console input, configuration file, warnings
  written to the error stream, and the commands handed to `system`. `Host.Run` follows `main`
  statement by statement. It is proved equal to `Outcome`, a function from the arguments, the
  console input and the file to the exit code and everything the run leaves behind.
- `Runs` — properties of whole runs, stated over `Outcome`.

The model follows `main.cpp` as written:

- Saving and then loading does not give the identity back: every loaded field keeps its `KEY=`
  prefix (`Config.LoadAfterSaveKeepsKeys`). A later private run therefore builds URLs such as
  `git@github.com:GITHUB_USER=alice/repo.git` (`Runs.LaterPrivateRunUsesKeyedFields`).
- Public mode runs the first prompt block too. It reads four lines, checks the e-mails and saves
  the file, then prompts for four more lines (`Runs.PromptedRun`).
- A public run given only four newline-terminated lines fails: the fifth read empties the GitHub
  user (`Runs.PublicRunOnFourLinesFails`). With four lines and no final newline it succeeds on
  those four values (`Runs.PublicRunOnUnterminatedInput`).
- The commands are issued as add-github, set-github-url, add-gitlab, set-gitlab-url, not as
  both adds followed by both URL settings.
- `validate_email` checks the pattern its raw string literal really contains. That pattern
  ignores the domain and rejects every ordinary address. So each prompting run warns about
  every e-mail typed, no-reply addresses included (`Runs.NoReplyPromptsDrawBothWarnings`). The
  warnings change nothing else.

## Model

| member | source | states |
|---|---|---|
| Streams.ReadLineMeaning | main.cpp:119 | `getline` on a failed stream keeps the old string and sets failbit. On a good one it returns the text before the first '\n' (never containing '\n') and removes it and the '\n' from the input. Without a '\n' it reads the whole rest and sets eofbit, and also failbit when nothing was read. The stream stays good exactly when a '\n' was found. |
| Streams.GetLine | main.cpp:47-50 | the character-by-character extraction loop gives exactly the stream and string of `ReadLine` |
| Streams.ReadJoined | main.cpp:119-130 | reading newline-terminated lines yields the first line and leaves the others; past the last line it yields "" with eofbit and failbit set |
| Streams.ReadTerminated | main.cpp:119 | a line followed by '\n' is read whole and the text after the '\n' remains |
| Streams.ReadUnterminated | main.cpp:130 | a non-empty last line without '\n' is read whole and sets eofbit but not failbit |
| Email.ValidateEmailMeaning | main.cpp:68-71 | `validate_email(e, d)` holds iff `e` is a non-empty `[a-zA-Z0-9._%+-]` run followed by `@"`, two or more spaces, the word `domain`, two or more spaces and `R"` (both directions), which is the language of the pattern line 69 compiles |
| Email.MatchWrittenTailMeaning | main.cpp:69 | the scan of what follows the local part accepts exactly `@"` + spaces (at least two) + `domain` + spaces (at least two) + `R"` |
| Email.ValidateEmailIgnoresDomain | main.cpp:68-71 | the verdict of `validate_email` is the same for every `domain` argument |
| Email.PassingAddressEndsWithQuote | main.cpp:69-70 | every address that passes ends with `R"` |
| Email.AddressFails | main.cpp:68-71 | `user@host` fails against every domain whenever `host` does not end with `R"` |
| Email.NoReplyAddressesFail | main.cpp:16-23 | no address built by `get_github_email` or `get_gitlab_email` passes the check against its provider's no-reply domain, whatever the user name |
| Email.LiteralTailPasses | main.cpp:69 | `a@"  domain  R"` passes the check, so the check accepts some input |
| Email.ValidateEmailIntendedMeaning | main.cpp:69 | the intended check holds iff `e` splits into a non-empty `[a-zA-Z0-9._%+-]` run, '@', and a string of `d`'s length that matches `d` character by character, where '.' in `d` matches any character but '\n' and '\r' (both directions) |
| Email.MatchDomainMeaning | main.cpp:69 | the recursive domain matcher of the intended check accepts exactly the strings that match the domain, spliced in unescaped, as a whole |
| Email.AddressPassesIntended | main.cpp:69 | a local part, '@' and a domain free of line terminators pass the intended check against that domain |
| Email.GitHubEmailPassesIntended | main.cpp:16-18 | `get_github_email(u)` passes the intended check against the GitHub no-reply domain whenever `u` is a non-empty run of `[a-zA-Z0-9._%+-]` |
| Email.GitLabEmailPassesIntended | main.cpp:21-23 | the same for `get_gitlab_email` and the GitLab no-reply domain |
| Email.DotsMatchAnyCharacterIntended | main.cpp:69 | with the domain spliced in unescaped, `alice@usersXnoreplyXgithubXcom` passes the intended GitHub check |
| Email.OtherAddressFailsIntended | main.cpp:69 | `alice@example.com` fails the intended GitHub check |
| Email.NoReplyAddressVerdicts | main.cpp:69 | `alice@users.noreply.github.com` fails the check as written and passes the intended check |
| Config.SaveConfig | main.cpp:58-65 | the file afterwards holds exactly the four lines `GITHUB_USER=`, `GITLAB_USER=`, `GITHUB_EMAIL=`, `GITLAB_EMAIL=` plus the values, each '\n'-terminated, replacing what was there; a file that cannot be opened is left as it was |
| Config.LoadConfig | main.cpp:44-55 | succeeds exactly when the file opens; the fields are then the results of four successive `getline`s from the start of the file, whatever the lines hold; otherwise the fields are untouched |
| Config.ReadFieldsOfLines | main.cpp:44-55 | four reads over newline-terminated lines take the next four lines in order; with fewer lines the missing fields keep their initial empty value |
| Config.LoadAfterSaveKeepsKeys | main.cpp:44-65 | loading what `save_config` wrote gives `GITHUB_USER=` + u1 and so on, never the identity that was saved |
| Config.SavedFileHoldsFourLines | main.cpp:58-65 | reading four lines from the saved file consumes all of it and leaves the stream good |
| Args.ParseArgs | main.cpp:78-96 | fewer than two arguments and an empty `argv[1]` are the two usage errors; otherwise `argv[1]` is the repository, and private mode is on exactly when some `argv[i]` with i ≥ 2 is `--private-user` |
| Args.FlagAsRepositoryName | main.cpp:83-96 | `--private-user` in the repository position is taken as the name and does not switch private mode on |
| Plan.CommandCounts | main.cpp:173-193 | a public run issues 7 commands and a private run 11, whose first 7 are the public ones |
| Plan.PublicNeverGlobal | main.cpp:173-186 | no public-mode command starts with `git config --global ` |
| Plan.PrivateGlobalIsLast | main.cpp:189-193 | in private mode only the last two commands are global, and they set the global e-mail and name from the GitHub identity |
| Plan.GitHubUrlDeterminesUser | main.cpp:169 | for a fixed repository, the GitHub URL determines the GitHub user |
| Plan.GitLabUrlDeterminesUser | main.cpp:170 | for a fixed repository, the GitLab URL determines the GitLab user |
| Plan.RemotesDiffer | main.cpp:169-170 | the GitHub and GitLab URLs are never equal |
| Setup.Host.constructor | main.cpp:73-99 | a process starts with its console input, the file as found, no warnings and no commands |
| Setup.Host.Prompt | main.cpp:119 | one `getline` from the console advances the input as `ReadLine` does |
| Setup.Host.Warn | main.cpp:134 | a warning is appended to the error stream |
| Setup.Host.System | main.cpp:173 | a command is appended to the commands issued |
| Setup.Host.PromptFields | main.cpp:118-130 | four prompts read the four fields in order from the console |
| Setup.Host.CheckEmails | main.cpp:133-139 | one warning per e-mail that fails `validate_email` as written, GitHub first, and nothing else |
| Setup.Host.LoadOrPromptIdentity | main.cpp:102-144 | private mode with an existing file loads it (failure: nothing changes) without reading the console; otherwise four lines are read, checked and saved |
| Setup.Host.Apply | main.cpp:169-193 | appends exactly the ordered commands of the mode, with both URLs built from the users and the repository |
| Setup.Host.Run | main.cpp:73-203 | `main` returns the exit code of `Outcome` and leaves the input, file, warnings and commands it describes |
| Runs.BadArgumentsExitEarly | main.cpp:78-89 | a missing or empty repository name gives exit 1, with the input and file untouched and no warning or command |
| Runs.ExitCodes | main.cpp:78-203 | the exit code is 0 or 1; exit 1 means no command was issued; exit 0 means the commands are exactly those of some complete identity, the named repository and the selected mode |
| Runs.PublicRunNeverGlobal | main.cpp:147-193 | no run without the flag ever touches the global git configuration |
| Runs.PrivateRunWithFile | main.cpp:102-112 | private mode with an existing file reads no console input, leaves the file, warns about nothing, fails if the file cannot be opened, and otherwise uses the first four lines of the file by position |
| Runs.PromptedRun | main.cpp:113-193 | a prompting run saves the first four lines and warns about them, in public mode too; the identity is those lines in private mode and the next four in public mode; failed e-mail checks change nothing else; the exit code and commands follow from completeness alone |
| Runs.PublicRunOnFourLinesFails | main.cpp:147-166 | a public run on exactly four newline-terminated lines exits 1 with no command |
| Runs.PublicRunOnUnterminatedInput | main.cpp:118-166 | a public run on four lines with no final newline saves and uses those four values |
| Runs.PrivateRunOnSavedFile | main.cpp:102-112 | a private run on a file written by `save_config` always succeeds, with the keyed fields in every command |
| Runs.PromptedRunSaves | main.cpp:142 | the file a prompting run leaves behind holds the first four lines typed |
| Runs.NoReplyPromptsDrawBothWarnings | main.cpp:133-139 | a prompting run whose e-mail lines are the no-reply addresses of the two user names draws both warnings |
| Runs.LaterPrivateRunUsesKeyedFields | main.cpp:44-65 | after a prompting run, the next private run exits 0 and issues 11 commands for the `KEY=`-prefixed fields, so its GitHub remote user is `GITHUB_USER=` + the first line typed |

## Left out

- The spinner thread, its one-second pause and its detach: they are cosmetic and do not change
  any outcome.
- What `system` does: each command is only recorded, in order. The model does not cover git's
  effects, the shell's parsing of the command string (spaces or metacharacters in names or
  e-mails), or command exit statuses, which the program discards.
- `getenv("HOME")`, the path of the configuration file and `stat`. The file is one value:
  absent, present but impossible to open, or present with its text. One state covers both
  opening for reading and opening for writing.
- Every message written to standard output and the usage and error messages on the error
  stream. The two e-mail warnings are kept as values.
- The terminal. The console input is the whole text the user will type, known in advance.
- The general `std::regex` engine: only the one pattern `validate_email` compiles is modelled.
  The intended check covers only the intended pattern shape. It treats characters of the domain
  other than '.' literally, which is exact for the two domains the program passes.
- The `max_size` limit of `std::string` in `getline`, and the conversion of `argv` from C
  strings (an argument cannot contain a NUL byte in the source; here it can).
- The exit code is an unbounded `int` rather than a C `int`. It only ever takes the values 0
  and 1 (`Runs.ExitCodes`), so nothing is lost.

## Findings

| source | as written | input that shows it | evidently intended | confidence | as-written member | corrected member |
|---|---|---|---|---|---|---|
| main.cpp:69 | the raw string literal `R"(...)"` ends at the first `)"`, so the pattern is the literal text `^[a-zA-Z0-9._%+-]+@" + domain + R"($)` and the domain is never spliced in | `validate_email("alice@users.noreply.github.com", "users.noreply.github.com")` is false, and the warning of line 134 is printed | the pattern `^[a-zA-Z0-9._%+-]+@` + domain + `$` | high; not executed | Email.NoReplyAddressVerdicts | Email.GitHubEmailPassesIntended |

The run model (`Setup.EmailWarnings`, `Setup.Host.CheckEmails`) keeps the check as written,
because the warnings are what the program prints. The intended check,
`Email.ValidateEmailIntended`, is proved to accept the no-reply addresses
(`Email.GitHubEmailPassesIntended`, `Email.GitLabEmailPassesIntended`).
