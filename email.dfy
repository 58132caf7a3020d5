/** The no-reply e-mail addresses of the two hosting providers and the e-mail shape check
    `validate_email(email, domain)`.

    The check compiles a raw string literal that opens with `R"(` and closes at the first `)"`,
    the one inside `$))"`. So the pattern is the literal text
    `^[a-zA-Z0-9._%+-]+@" + domain + R"($)`: the `domain` argument is never part of it. Read as
    an ECMAScript regular expression, that text demands a local part, then `@"`, two or more
    spaces, the word `domain`, two or more spaces, and `R"` at the end (`ValidateEmail`).

    The evidently intended pattern splices the domain in: `^[a-zA-Z0-9._%+-]+@` + domain + `$`,
    with every '.' of the domain left as the "any character" wildcard (`ValidateEmailIntended`). */
module Email {

  const GitHubNoReplyDomain := "users.noreply.github.com"
  const GitLabNoReplyDomain := "users.noreply.gitlab.com"

  /** `get_github_email`: the GitHub no-reply address of a user. */
  function GitHubEmail(user: string): string { user + "@" + GitHubNoReplyDomain }

  /** `get_gitlab_email`: the GitLab no-reply address of a user. */
  function GitLabEmail(user: string): string { user + "@" + GitLabNoReplyDomain }

  /** The bracket class `[a-zA-Z0-9._%+-]` of the local part. */
  predicate LocalChar(c: char)
  {
    'a' <= c <= 'z' || 'A' <= c <= 'Z' || '0' <= c <= '9'
    || c == '.' || c == '_' || c == '%' || c == '+' || c == '-'
  }

  /** A non-empty run of local-part characters: what `[a-zA-Z0-9._%+-]+` matches. */
  predicate LocalPart(s: string)
  {
    s != [] && forall i :: 0 <= i < |s| ==> LocalChar(s[i])
  }

  /** The length of the longest prefix of `s` made of local-part characters. */
  function LocalLength(s: string): nat
  {
    if s == [] || !LocalChar(s[0]) then 0 else 1 + LocalLength(s[1..])
  }

  /** The scan stops at the first character outside the class, or at the end. */
  lemma {:induction false} LocalLengthStops(s: string)
    ensures LocalLength(s) <= |s|
    ensures forall i :: 0 <= i < LocalLength(s) ==> LocalChar(s[i])
    ensures LocalLength(s) < |s| ==> !LocalChar(s[LocalLength(s)])
  {
    if s != [] && LocalChar(s[0]) {
      LocalLengthStops(s[1..]);
      forall i | 0 < i < LocalLength(s) ensures LocalChar(s[i]) {
        assert s[i] == s[1..][i - 1];
      }
    }
  }

  /** An '@' that ends a local part is where the greedy scan stops: since '@' is outside the
      class, the `+` of the local part can only stop there. */
  lemma SplitIsGreedy(email: string, j: int)
    requires 0 < j < |email| && email[j] == '@' && LocalPart(email[..j])
    ensures LocalLength(email) == j
  {
    LocalLengthStops(email);
  }

  // ---------------------------------------------------------------------------------------
  // The check as written

  /** `n` spaces. */
  function Blanks(n: nat): string { seq(n, _ => ' ') }

  /** What the compiled pattern demands after the local part: `@"`, two or more spaces, the
      word `domain`, two or more spaces, and `R"` at the very end. */
  ghost predicate WrittenTail(t: string)
  {
    exists a: nat, b: nat :: 2 <= a && 2 <= b && t == "@\"" + Blanks(a) + "domain" + Blanks(b) + "R\""
  }

  /** The strings the compiled pattern matches as a whole. */
  ghost predicate WrittenMatch(email: string)
  {
    exists k :: 0 < k < |email| && LocalPart(email[..k]) && WrittenTail(email[k..])
  }

  /** The length of the run of spaces at the front of `s`. */
  function SpaceCount(s: string): (n: nat)
    ensures n <= |s|
  {
    if s == [] || s[0] != ' ' then 0 else 1 + SpaceCount(s[1..])
  }

  /** The run stops at the first character that is not a space, or at the end. */
  lemma {:induction false} SpaceCountStops(s: string)
    ensures forall i :: 0 <= i < SpaceCount(s) ==> s[i] == ' '
    ensures SpaceCount(s) < |s| ==> s[SpaceCount(s)] != ' '
  {
    if s != [] && s[0] == ' ' {
      SpaceCountStops(s[1..]);
      forall i | 0 < i < SpaceCount(s) ensures s[i] == ' ' {
        assert s[i] == s[1..][i - 1];
      }
    }
  }

  /** Spaces followed by something else: the run is exactly the spaces. */
  lemma {:induction false} SpaceCountAfterBlanks(n: nat, rest: string)
    requires rest != [] && rest[0] != ' '
    ensures SpaceCount(Blanks(n) + rest) == n
  {
    if n > 0 {
      assert (Blanks(n) + rest)[1..] == Blanks(n - 1) + rest;
      SpaceCountAfterBlanks(n - 1, rest);
    } else {
      assert Blanks(n) + rest == rest;
    }
  }

  /** Scans what follows the local part against `@" +  domain +  R"` (each ` +` one or more
      spaces, followed by one more space). */
  function MatchWrittenTail(t: string): bool
  {
    if |t| < 2 || t[..2] != "@\"" then false
    else
      var a := SpaceCount(t[2..]);
      var u := t[2 + a..];
      if a < 2 || |u| < 6 || u[..6] != "domain" then false
      else
        var b := SpaceCount(u[6..]);
        2 <= b && u[6 + b..] == "R\""
  }

  /** The scan accepts exactly the tails the pattern describes. */
  lemma MatchWrittenTailMeaning(t: string)
    ensures MatchWrittenTail(t) <==> WrittenTail(t)
  {
    if MatchWrittenTail(t) {
      ScannedTailIsWritten(t);
    }
    if WrittenTail(t) {
      var a: nat, b: nat :| 2 <= a && 2 <= b && t == "@\"" + Blanks(a) + "domain" + Blanks(b) + "R\"";
      WrittenTailIsScanned(a, b);
    }
  }

  /** What the scan accepts has the written shape. */
  lemma ScannedTailIsWritten(t: string)
    requires MatchWrittenTail(t)
    ensures WrittenTail(t)
  {
    var a := SpaceCount(t[2..]);
    var u := t[2 + a..];
    var b := SpaceCount(u[6..]);
    SpaceCountStops(t[2..]);
    SpaceCountStops(u[6..]);
    var sa, sb := t[2..][..a], u[6..][..b];
    assert sa == Blanks(a);
    assert sb == Blanks(b);
    assert t == t[..2] + sa + u;
    assert u == u[..6] + sb + u[6 + b..];
    assert t == "@\"" + Blanks(a) + "domain" + Blanks(b) + "R\"";
  }

  /** Every tail of the written shape is accepted by the scan. */
  lemma WrittenTailIsScanned(a: nat, b: nat)
    requires 2 <= a && 2 <= b
    ensures MatchWrittenTail("@\"" + Blanks(a) + "domain" + Blanks(b) + "R\"")
  {
    var rest := "domain" + Blanks(b) + "R\"";
    var t := "@\"" + Blanks(a) + rest;
    assert t == "@\"" + Blanks(a) + "domain" + Blanks(b) + "R\"";
    assert t[..2] == "@\"";
    assert t[2..] == Blanks(a) + rest;
    SpaceCountAfterBlanks(a, rest);
    assert t[2 + a..] == rest;
    assert rest[..6] == "domain";
    assert rest[6..] == Blanks(b) + "R\"";
    SpaceCountAfterBlanks(b, "R\"");
    assert rest[6 + b..] == "R\"";
  }

  /** `validate_email` as written: the greedy local part, then the literal tail of the pattern.
      The `domain` argument plays no part. */
  function ValidateEmail(email: string, domain: string): bool
  {
    var k := LocalLength(email);
    0 < k < |email| && MatchWrittenTail(email[k..])
  }

  /** The check gives exactly the compiled pattern's verdict. */
  lemma ValidateEmailMeaning(email: string, domain: string)
    ensures ValidateEmail(email, domain) <==> WrittenMatch(email)
  {
    var k := LocalLength(email);
    LocalLengthStops(email);
    if ValidateEmail(email, domain) {
      MatchWrittenTailMeaning(email[k..]);
      assert LocalPart(email[..k]);
    }
    if WrittenMatch(email) {
      var j :| 0 < j < |email| && LocalPart(email[..j]) && WrittenTail(email[j..]);
      MatchWrittenTailMeaning(email[j..]);
      assert email[j] == email[j..][..2][0] == '@';
      SplitIsGreedy(email, j);
    }
  }

  /** The verdict is the same whatever domain is passed. */
  lemma ValidateEmailIgnoresDomain(email: string, d1: string, d2: string)
    ensures ValidateEmail(email, d1) == ValidateEmail(email, d2)
  {
  }

  /** Every address that passes ends with `R"`. */
  lemma PassingAddressEndsWithQuote(email: string, domain: string)
    requires ValidateEmail(email, domain)
    ensures |email| >= 2 && email[|email| - 2..] == "R\""
  {
    var k := LocalLength(email);
    var t := email[k..];
    var a := SpaceCount(t[2..]);
    var u := t[2 + a..];
    var b := SpaceCount(u[6..]);
    assert u[6 + b..] == email[k + 2 + a + 6 + b..];
  }

  /** An address `user@host` whose host does not end with `R"` fails the check against any
      domain. */
  lemma AddressFails(user: string, host: string, domain: string)
    requires |host| >= 2 && host[|host| - 2..] != "R\""
    ensures !ValidateEmail(user + "@" + host, domain)
  {
    var email := user + "@" + host;
    assert email[|email| - 2..] == host[|host| - 2..];
    if ValidateEmail(email, domain) {
      PassingAddressEndsWithQuote(email, domain);
    }
  }

  /** What `get_github_email` and `get_gitlab_email` build never passes the check, whatever the
      user: each such address draws the warning. */
  lemma NoReplyAddressesFail(user: string)
    ensures !ValidateEmail(GitHubEmail(user), GitHubNoReplyDomain)
    ensures !ValidateEmail(GitLabEmail(user), GitLabNoReplyDomain)
  {
    AddressFails(user, GitHubNoReplyDomain, GitHubNoReplyDomain);
    AddressFails(user, GitLabNoReplyDomain, GitLabNoReplyDomain);
  }

  /** The kind of text the compiled pattern accepts. */
  lemma LiteralTailPasses()
    ensures ValidateEmail("a@\"  domain  R\"", GitHubNoReplyDomain)
  {
    var email := "a@\"  domain  R\"";
    assert Blanks(2) == "  ";
    assert email[..1] == "a" && LocalPart(email[..1]);
    assert email[1..] == "@\"" + Blanks(2) + "domain" + Blanks(2) + "R\"";
    assert WrittenTail(email[1..]);
    ValidateEmailMeaning(email, GitHubNoReplyDomain);
  }

  // ---------------------------------------------------------------------------------------
  // The check as intended

  /** One character of the input against one character of the domain pattern: '.' is the
      ECMAScript wildcard, which matches everything but the line terminators '\n' and '\r';
      every other character matches itself. */
  predicate CharMatches(c: char, p: char)
  {
    if p == '.' then c != '\n' && c != '\r' else c == p
  }

  /** `s` matches the domain pattern `d` as a whole. */
  predicate DomainMatches(s: string, d: string)
  {
    |s| == |d| && forall i :: 0 <= i < |s| ==> CharMatches(s[i], d[i])
  }

  /** Matches `s` against the domain pattern `d` character by character. */
  function MatchDomain(s: string, d: string): bool
  {
    if s == [] || d == [] then s == [] && d == []
    else CharMatches(s[0], d[0]) && MatchDomain(s[1..], d[1..])
  }

  /** The character-by-character match is the whole-string match. */
  lemma {:induction false} MatchDomainMeaning(s: string, d: string)
    ensures MatchDomain(s, d) <==> DomainMatches(s, d)
  {
    if s != [] && d != [] {
      MatchDomainMeaning(s[1..], d[1..]);
      if DomainMatches(s[1..], d[1..]) && CharMatches(s[0], d[0]) {
        forall i | 0 < i < |s| ensures CharMatches(s[i], d[i]) {
          assert s[i] == s[1..][i - 1] && d[i] == d[1..][i - 1];
        }
      }
      if DomainMatches(s, d) {
        forall i | 0 <= i < |s| - 1 ensures CharMatches(s[1..][i], d[1..][i]) {
          assert s[1..][i] == s[i + 1] && d[1..][i] == d[i + 1];
        }
      }
    }
  }

  /** The check with the domain spliced into the pattern: the greedy local part must stop
      exactly at an '@', and the rest must match the domain. */
  function ValidateEmailIntended(email: string, domain: string): bool
  {
    var k := LocalLength(email);
    0 < k < |email| && email[k] == '@' && MatchDomain(email[k + 1..], domain)
  }

  /** The intended check gives the spliced pattern's verdict: some split of the address into a
      local part, an '@' and a match of the domain pattern. */
  lemma ValidateEmailIntendedMeaning(email: string, domain: string)
    ensures ValidateEmailIntended(email, domain)
            <==> exists k :: 0 < k < |email| && email[k] == '@'
                             && LocalPart(email[..k]) && DomainMatches(email[k + 1..], domain)
  {
    var k := LocalLength(email);
    LocalLengthStops(email);
    if ValidateEmailIntended(email, domain) {
      MatchDomainMeaning(email[k + 1..], domain);
      assert LocalPart(email[..k]);
    } else {
      forall j | 0 < j < |email| && email[j] == '@' && LocalPart(email[..j])
        ensures !DomainMatches(email[j + 1..], domain)
      {
        SplitIsGreedy(email, j);
        MatchDomainMeaning(email[j + 1..], domain);
      }
    }
  }

  /** Every domain matches itself: the dots of the pattern match the dots of the text. */
  lemma {:induction false} DomainMatchesItself(d: string)
    requires '\n' !in d && '\r' !in d
    ensures DomainMatches(d, d)
  {
    forall i | 0 <= i < |d| ensures CharMatches(d[i], d[i]) {
      assert d[i] in d;
    }
  }

  /** A local part, '@' and a domain pass the intended check against that domain. */
  lemma AddressPassesIntended(user: string, domain: string)
    requires LocalPart(user)
    requires '\n' !in domain && '\r' !in domain
    ensures ValidateEmailIntended(user + "@" + domain, domain)
  {
    var email := user + "@" + domain;
    var k := |user|;
    assert email[k] == '@';
    assert email[..k] == user;
    assert email[k + 1..] == domain;
    DomainMatchesItself(domain);
    ValidateEmailIntendedMeaning(email, domain);
  }

  /** What `get_github_email` builds passes the intended check against the GitHub no-reply
      domain whenever the user name is a non-empty run of local-part characters. */
  lemma GitHubEmailPassesIntended(user: string)
    requires LocalPart(user)
    ensures ValidateEmailIntended(GitHubEmail(user), GitHubNoReplyDomain)
  {
    AddressPassesIntended(user, GitHubNoReplyDomain);
  }

  /** The same for `get_gitlab_email` and the GitLab no-reply domain. */
  lemma GitLabEmailPassesIntended(user: string)
    requires LocalPart(user)
    ensures ValidateEmailIntended(GitLabEmail(user), GitLabNoReplyDomain)
  {
    AddressPassesIntended(user, GitLabNoReplyDomain);
  }

  /** Even spliced in, the unescaped dots make the check looser than the literal domain: each
      '.' accepts any other character, so a look-alike host passes. */
  lemma DotsMatchAnyCharacterIntended()
    ensures ValidateEmailIntended("alice@usersXnoreplyXgithubXcom", GitHubNoReplyDomain)
  {
    var email := "alice@usersXnoreplyXgithubXcom";
    assert email[5] == '@';
    assert LocalPart(email[..5]);
    assert DomainMatches(email[6..], GitHubNoReplyDomain);
    ValidateEmailIntendedMeaning(email, GitHubNoReplyDomain);
  }

  /** An address on another domain fails the intended check. */
  lemma OtherAddressFailsIntended()
    ensures !ValidateEmailIntended("alice@example.com", GitHubNoReplyDomain)
  {
    ValidateEmailIntendedMeaning("alice@example.com", GitHubNoReplyDomain);
  }

  /** The discrepancy on one input: the GitHub no-reply address of `alice` fails the check as
      written and passes the check as intended. */
  lemma NoReplyAddressVerdicts()
    ensures !ValidateEmail(GitHubEmail("alice"), GitHubNoReplyDomain)
    ensures ValidateEmailIntended(GitHubEmail("alice"), GitHubNoReplyDomain)
  {
    NoReplyAddressesFail("alice");
    assert '\n' !in GitHubNoReplyDomain && '\r' !in GitHubNoReplyDomain;
    assert LocalPart("alice");
    GitHubEmailPassesIntended("alice");
  }
}
