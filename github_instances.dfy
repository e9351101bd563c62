/**
  GitHubInstance: a GitHub host and its API base, found from a git remote
  URL, with the owner/repository name of the remote and a mutable token.
 */
module GitHubInstances {
  import opened Options
  import opened Exceptions
  import opened Text

  const DotComHostname: string := "github.com"
  const DotComApiBase: string := "https://api.github.com"

  /** The default API base of a self-hosted instance. */
  function DefaultApiBase(hostname: string): string {
    "https://" + hostname + "/api/v3"
  }

  /* ---------------------------------------------------------------------
     java.net.URI, for the shapes a remote URL takes
     --------------------------------------------------------------------- */

  /** The host and path of a parsed URI; either may be null. */
  datatype Uri = Uri(host: Option<string>, path: Option<string>)

  /** A URI reference without its query and fragment. */
  function BeforeQuery(s: string): string {
    Span(s, {'?', '#'})
  }

  /** The host of a server authority: after the user information, before
      the port; null when empty. */
  function HostOf(authority: string): Option<string> {
    var hostPort := match After(authority, '@') case Some(t) => t case None => authority;
    var host := Before(hostPort, ':');
    if host == "" then None else Some(host)
  }

  /** `URI(s)`: a scheme is present when a ':' comes before any '/', '?' or
      '#'. With "//" after the scheme the authority runs to the next '/',
      '?' or '#' and the path follows it; with a '/' the path starts there;
      anything else is an opaque URI, which has neither host nor path.
      Without a scheme the whole reference is a relative path. */
  function ParseUri(s: string): Uri {
    var p := Span(s, {':', '/', '?', '#'});
    if |p| < |s| && s[|p|] == ':' then AfterScheme(s[|p| + 1..])
    else Uri(None, Some(BeforeQuery(s)))
  }

  /** The part of a URI after "<scheme>:". */
  function AfterScheme(rest: string): Uri {
    if StartsWith(rest, "//") then
      var authority := Span(rest[2..], {'/', '?', '#'});
      Uri(HostOf(authority), Some(BeforeQuery(rest[2 + |authority|..])))
    else if StartsWith(rest, "/") then Uri(None, Some(BeforeQuery(rest)))
    else Uri(None, None)
  }

  /** A plain "<scheme>://<host>/<path>" URL has that host and the path
      "/<path>". */
  lemma {:induction false} ParseSimpleUrl(scheme: string, host: string, path: string)
    requires scheme != [] && forall c :: c in scheme ==> c !in {':', '/', '?', '#'}
    requires host != [] && forall c :: c in host ==> c !in {'/', '?', '#', '@', ':'}
    requires forall c :: c in path ==> c !in {'?', '#'}
    ensures ParseUri(scheme + "://" + host + "/" + path) == Uri(Some(host), Some("/" + path))
  {
    var rest := "//" + host + ("/" + path);
    var u := scheme + "://" + host + "/" + path;
    assert u == scheme + [':'] + rest;
    SchemeOf(scheme, rest);
    AuthorityUri(host, "/" + path);
    assert ParseUri(u) == AfterScheme(rest);
  }

  lemma {:induction false} SchemeOf(scheme: string, rest: string)
    requires scheme != [] && forall c :: c in scheme ==> c !in {':', '/', '?', '#'}
    ensures ParseUri(scheme + [':'] + rest) == AfterScheme(rest)
  {
    var s := scheme + [':'] + rest;
    assert s == scheme + ([':'] + rest);
    SpanStops(scheme, [':'] + rest, {':', '/', '?', '#'});
    assert s[|scheme|] == ':' && s[|scheme| + 1..] == rest;
  }

  lemma {:induction false} AuthorityUri(host: string, tail: string)
    requires host != [] && forall c :: c in host ==> c !in {'/', '?', '#', '@', ':'}
    requires tail != [] && tail[0] == '/' && forall c :: c in tail ==> c !in {'?', '#'}
    ensures AfterScheme("//" + host + tail) == Uri(Some(host), Some(tail))
  {
    var rest := "//" + host + tail;
    assert rest[..2] == "//";
    assert rest[2..] == host + tail;
    AuthorityOf(host, tail);
    assert rest[2 + |host|..] == tail;
    SpanAll(tail, {'?', '#'});
    HostOfPlain(host);
  }

  lemma {:induction false} AuthorityOf(host: string, tail: string)
    requires forall c :: c in host ==> c !in {'/', '?', '#', '@', ':'}
    requires tail != [] && tail[0] == '/'
    ensures Span(host + tail, {'/', '?', '#'}) == host
    ensures (host + tail)[|host|..] == tail
  {
    SpanStops(host, tail, {'/', '?', '#'});
  }

  lemma {:induction false} HostOfPlain(host: string)
    requires host != [] && forall c :: c in host ==> c !in {'@', ':'}
    ensures HostOf(host) == Some(host)
  {
    AfterAbsent(host, '@');
    BeforeAbsent(host, ':');
  }

  lemma {:induction false} SpanStops(a: string, b: string, stops: set<char>)
    requires forall c :: c in a ==> c !in stops
    requires b != [] && b[0] in stops
    ensures Span(a + b, stops) == a
    decreases |a|
  {
    if a != [] {
      assert (a + b)[1..] == a[1..] + b;
      SpanStops(a[1..], b, stops);
    }
  }

  lemma {:induction false} SpanAll(a: string, stops: set<char>)
    requires forall c :: c in a ==> c !in stops
    ensures Span(a, stops) == a
    decreases |a|
  {
    if a != [] {
      SpanAll(a[1..], stops);
    }
  }

  lemma {:induction false} AfterAbsent(a: string, c: char)
    requires c !in a
    ensures After(a, c) == None
  {
  }

  lemma {:induction false} BeforeAbsent(a: string, c: char)
    requires c !in a
    ensures Before(a, c) == a
    decreases |a|
  {
    if a != [] {
      BeforeAbsent(a[1..], c);
    }
  }

  /* ---------------------------------------------------------------------
     Hostname and owner/repository name of a remote
     --------------------------------------------------------------------- */

  /** `extractHostname(remoteUrl)`: the URI host of an "https" remote, the
      text between "git@" and the next ':' of an scp-style remote, null for
      anything else. */
  function ExtractHostname(remoteUrl: Option<string>): Option<string> {
    match remoteUrl
    case None => None
    case Some(u) =>
      if StartsWith(u, "https") then ParseUri(u).host
      else if StartsWith(u, "git@") then Some(Before(u[4..], ':'))
      else None
  }

  /** "https://<host>/<path>" has the URI host <host> and path "/<path>",
      and its hostname is <host>. */
  lemma {:induction false} HttpsRemote(host: string, path: string)
    requires host != [] && forall c :: c in host ==> c !in {'/', '?', '#', '@', ':'}
    requires forall c :: c in path ==> c !in {'?', '#'}
    ensures ParseUri("https://" + host + "/" + path) == Uri(Some(host), Some("/" + path))
    ensures ExtractHostname(Some("https://" + host + "/" + path)) == Some(host)
  {
    HttpsUri(host, path);
    HostnameOfHttpsUri(host, path);
  }

  lemma {:induction false} HttpsUri(host: string, path: string)
    requires host != [] && forall c :: c in host ==> c !in {'/', '?', '#', '@', ':'}
    requires forall c :: c in path ==> c !in {'?', '#'}
    ensures ParseUri("https://" + host + "/" + path) == Uri(Some(host), Some("/" + path))
  {
    assert "https" + "://" + host + "/" + path == "https://" + host + "/" + path;
    ParseSimpleUrl("https", host, path);
  }

  lemma {:induction false} HostnameOfHttpsUri(host: string, path: string)
    requires ParseUri("https://" + host + "/" + path) == Uri(Some(host), Some("/" + path))
    ensures ExtractHostname(Some("https://" + host + "/" + path)) == Some(host)
  {
    HttpsPrefix(host, path);
    HostnameOfHttps("https://" + host + "/" + path);
  }

  lemma {:induction false} RepoNwoOfHttpsUri(host: string, path: string)
    requires ParseUri("https://" + host + "/" + path) == Uri(Some(host), Some("/" + path))
    ensures RepoNwo(host, Some("https://" + host + "/" + path)) == Ok(Some(StripGitSuffixAsWritten(path)))
    ensures RepoNwoFixed(host, Some("https://" + host + "/" + path)) == Ok(Some(StripGitSuffix(path)))
  {
    HttpsPrefix(host, path);
    RepoNwoOfHttps(host, "https://" + host + "/" + path);
    assert DropLeadingSlash("/" + path) == path;
  }

  lemma HttpsPrefix(host: string, path: string)
    ensures StartsWith("https://" + host + "/" + path, "https")
  {
    var scheme := "https://";
    PrefixAndSuffix(scheme, host, "/", path);
    assert StartsWith(scheme, "https");
    StartsWithTrans(scheme + host + "/" + path, scheme, "https");
  }

  /** The hostname of an "https" remote is its URI host. */
  lemma HostnameOfHttps(u: string)
    requires StartsWith(u, "https")
    ensures ExtractHostname(Some(u)) == ParseUri(u).host
  {
  }

  /** The repository of an "https" remote is its URI path without the
      leading '/', cut by the suffix rule; a URI without a path throws. */
  lemma RepoNwoOfHttps(hostname: string, u: string)
    requires StartsWith(u, "https")
    ensures RepoNwo(hostname, Some(u)) ==
      match ParseUri(u).path
      case None => Err(RuntimeFailure)
      case Some(p) => Ok(Some(StripGitSuffixAsWritten(DropLeadingSlash(p))))
    ensures RepoNwoFixed(hostname, Some(u)) ==
      match ParseUri(u).path
      case None => Err(RuntimeFailure)
      case Some(p) => Ok(Some(StripGitSuffix(DropLeadingSlash(p))))
  {
  }

  /** The hostname of "git@<host>:<path>" is <host>, and in general it is
      the text after "git@" up to the first ':'. */
  lemma HostnameOfScpRemote(host: string, path: string)
    requires ':' !in host
    ensures ExtractHostname(Some("git@" + host + ":" + path)) == Some(host)
  {
    var u := "git@" + host + ":" + path;
    assert u[0] == 'g' && "https"[0] == 'h';
    assert u[..4] == "git@";
    assert u[4..] == host + [':'] + path;
    SplitAtFirst(host, ':', path);
  }

  /** `replace(Regex("^/"), "")`: one leading '/' removed. */
  function DropLeadingSlash(s: string): string {
    if s != [] && s[0] == '/' then s[1..] else s
  }

  /** A line terminator of `java.util.regex`: the characters `.` does not
      match and before which a final `$` matches. */
  predicate LineTerminator(c: char) {
    c == '\n' || c == '\r' || c == '\U{85}' || c == '\U{2028}' || c == '\U{2029}'
  }

  /** Where `$` matches without MULTILINE: at the end of the input, or just
      before a line terminator that ends it, "\r\n" counting as one. */
  predicate DollarAt(s: string, i: int) {
    || i == |s|
    || (0 <= i == |s| - 1 && LineTerminator(s[i]) && !(s[i] == '\n' && i > 0 && s[i - 1] == '\r'))
    || (0 <= i == |s| - 2 && s[i] == '\r' && s[i + 1] == '\n')
  }

  /** The pattern `.git$` matches `s` at position `j`: the unescaped dot
      takes any character but a line terminator. */
  predicate DotGitAt(s: string, j: int) {
    && 0 <= j && j + 4 <= |s|
    && !LineTerminator(s[j])
    && s[j + 1..j + 4] == "git"
    && DollarAt(s, j + 4)
  }

  /** `replace(Regex(".git$"), "")` as written: the match, found at the end
      or before a final line terminator, is removed, and there is at most
      one; without a match the text is unchanged. */
  function StripGitSuffixAsWritten(s: string): (r: string)
    ensures forall j :: DotGitAt(s, j) ==> r == s[..j] + s[j + 4..]
    ensures (forall j :: !DotGitAt(s, j)) ==> r == s
  {
    if DotGitAt(s, |s| - 4) then
      s[..|s| - 4]
    else if DotGitAt(s, |s| - 5) then
      assert !DotGitAt(s, |s| - 4) && !DotGitAt(s, |s| - 6) by {
        assert s[|s| - 4..|s| - 1][2] == s[|s| - 2] == 't';
      }
      s[..|s| - 5] + s[|s| - 1..]
    else if DotGitAt(s, |s| - 6) then
      s[..|s| - 6] + s[|s| - 2..]
    else s
  }

  /** The suffix rule as evidently intended: a literal ".git" removed. */
  function StripGitSuffix(s: string): (r: string)
    ensures EndsWith(s, ".git") ==> s == r + ".git"
    ensures !EndsWith(s, ".git") ==> r == s
  {
    if EndsWith(s, ".git") then s[..|s| - 4] else s
  }

  /** Stripping undoes appending ".git", and leaves a name without it as
      it is. */
  lemma StripGitSuffixInverse(name: string)
    ensures StripGitSuffix(name + ".git") == name
    ensures !EndsWith(name, ".git") ==> StripGitSuffix(name) == name
  {
    assert (name + ".git")[..|name|] == name;
  }

  /** The two rules agree on names ending in ".git" ... */
  lemma SuffixRulesAgreeOnDotGit(s: string)
    requires EndsWith(s, ".git")
    ensures StripGitSuffixAsWritten(s) == StripGitSuffix(s)
  {
    assert s[|s| - 3..] == s[|s| - 4..][1..];
  }

  /** ... but the unescaped dot also cuts a repository whose name ends in
      "git" after another character: "octo/legit" becomes "octo/l". */
  lemma UnescapedDotCutsName()
    ensures StripGitSuffixAsWritten("octo/legit") == "octo/l"
    ensures StripGitSuffix("octo/legit") == "octo/legit"
  {
    assert "octo/legit"[7..] == "git";
    assert "octo/legit"[6..] != ".git";
  }

  /** The dot does not take a line terminator, so "git" after one is kept;
      and `$` matches before a final line terminator, so ".git" just before
      one is removed and the terminator kept. */
  lemma TerminatorBeforeGitIsKept(name: string, t: char)
    requires LineTerminator(t)
    ensures StripGitSuffixAsWritten(name + [t] + "git") == name + [t] + "git"
  {
    var s := name + [t] + "git";
    assert s[|s| - 4] == t && s[|s| - 1] == 't' && s[|s| - 2] == 'i';
  }

  lemma GitSuffixBeforeFinalTerminator(name: string, t: char)
    requires LineTerminator(t)
    ensures StripGitSuffixAsWritten(name + ".git" + [t]) == name + [t]
    ensures StripGitSuffixAsWritten(name + ".git\r\n") == name + "\r\n"
  {
    var s := name + ".git" + [t];
    assert s[|s| - 5] == '.' && s[|s| - 4..|s| - 1] == "git" && s[|s| - 2] == 't';
    assert s[..|s| - 5] == name;
    var s' := name + ".git\r\n";
    assert s'[|s'| - 6] == '.' && s'[|s'| - 5..|s'| - 2] == "git" && s'[|s'| - 3] == 't';
    assert s'[..|s'| - 6] == name && s'[|s'| - 2..] == "\r\n";
  }

  /** `Regex("^git@$hostname:")` matches at the start of `s`. The hostname
      is pasted into the pattern unescaped, so each of its dots matches any
      character but a line terminator. */
  predicate MatchesHostPrefix(s: string, hostname: string) {
    && |s| >= 5 + |hostname|
    && s[..4] == "git@"
    && s[4 + |hostname|] == ':'
    && forall i :: 0 <= i < |hostname| ==>
         (hostname[i] == '.' && !LineTerminator(s[4 + i])) || s[4 + i] == hostname[i]
  }

  /** The owner/repository text of a remote for a given hostname, before
      the suffix rule: for an "https" remote the URI path without its
      leading '/' (a URI without a path makes `.replace` throw); for an
      scp-style remote the text after "git@<hostname>:"; null for any other
      remote. */
  function RemotePath(hostname: string, remoteUrl: Option<string>): Outcome<Option<string>> {
    match remoteUrl
    case None => Ok(None)
    case Some(u) =>
      if StartsWith(u, "https") then
        match ParseUri(u).path
        case None => Err(RuntimeFailure)
        case Some(p) => Ok(Some(DropLeadingSlash(p)))
      else if StartsWith(u, "git@") then
        Ok(Some(if MatchesHostPrefix(u, hostname) then u[5 + |hostname|..] else u))
      else Ok(None)
  }

  /** `extractRepoNwo` as written: the remote's owner/repository text cut
      by the unescaped `.git$` rule. */
  function RepoNwo(hostname: string, remoteUrl: Option<string>): Outcome<Option<string>> {
    match RemotePath(hostname, remoteUrl)
    case Ok(Some(path)) => Ok(Some(StripGitSuffixAsWritten(path)))
    case other => other
  }

  /** `extractRepoNwo` as evidently intended: only a literal ".git" is cut. */
  function RepoNwoFixed(hostname: string, remoteUrl: Option<string>): Outcome<Option<string>> {
    match RemotePath(hostname, remoteUrl)
    case Ok(Some(path)) => Ok(Some(StripGitSuffix(path)))
    case other => other
  }

  /** The repository of "git@<host>:<path>" for the instance of <host> is
      <path>, cut by the suffix rule. */
  lemma RepoNwoOfScpPath(host: string, path: string)
    ensures RepoNwo(host, Some("git@" + host + ":" + path)) == Ok(Some(StripGitSuffixAsWritten(path)))
    ensures RepoNwoFixed(host, Some("git@" + host + ":" + path)) == Ok(Some(StripGitSuffix(path)))
  {
    ScpPrefix(host, path);
  }

  /** "git@<host>:<path>" is an scp-style remote whose prefix matches
      <host>, and <path> follows it. */
  lemma ScpPrefix(host: string, path: string)
    ensures var u := "git@" + host + ":" + path;
      !StartsWith(u, "https") && StartsWith(u, "git@")
      && MatchesHostPrefix(u, host) && u[5 + |host|..] == path
  {
    var u := "git@" + host + ":" + path;
    assert u[0] == 'g' && "https"[0] == 'h';
    assert u[..4] == "git@" && u[4 + |host|] == ':';
    assert forall i :: 0 <= i < |host| ==> u[4 + i] == host[i];
    assert u[5 + |host|..] == path;
  }

  /** A dot of the hostname takes any character of the remote but a line
      terminator: for the hostname "<a>.<b>", the remote
      "git@<a><ch><b>:<path>" has the path <path> exactly when <ch> is not a
      line terminator, and is otherwise left whole. */
  lemma {:induction false} HostDotMatchesNonTerminator(a: string, b: string, ch: char, path: string)
    ensures var u := "git@" + a + [ch] + b + ":" + path;
      RemotePath(a + "." + b, Some(u)) == Ok(Some(if LineTerminator(ch) then u else path))
  {
    var u := "git@" + a + [ch] + b + ":" + path;
    var h := a + "." + b;
    assert u[0] == 'g' && "https"[0] == 'h';
    assert u[..4] == "git@" && u[4 + |h|] == ':';
    assert u[4 + |a|] == ch && h[|a|] == '.';
    if !LineTerminator(ch) {
      assert forall i :: 0 <= i < |h| && i != |a| ==> u[4 + i] == h[i];
      assert MatchesHostPrefix(u, h);
      assert u[5 + |h|..] == path;
    }
  }

  /** Both remote forms of a repository name it: "https://<host>/<nwo>.git"
      and "git@<host>:<nwo>.git" give <nwo> for the instance of <host>,
      under the rule as written and the intended one alike. */
  lemma {:induction false} RepoNwoOfHttpsRemote(host: string, nwo: string)
    requires host != [] && forall c :: c in host ==> c !in {'/', '?', '#', '@', ':'}
    requires forall c :: c in nwo ==> c !in {'?', '#'}
    ensures RepoNwo(host, Some("https://" + host + "/" + nwo + ".git")) == Ok(Some(nwo))
    ensures RepoNwoFixed(host, Some("https://" + host + "/" + nwo + ".git")) == Ok(Some(nwo))
  {
    assert "https://" + host + "/" + (nwo + ".git") == "https://" + host + "/" + nwo + ".git";
    HttpsUri(host, nwo + ".git");
    RepoNwoOfHttpsUri(host, nwo + ".git");
    StripGitSuffixInverse(nwo);
    SuffixRulesAgreeOnDotGit(nwo + ".git");
  }

  lemma RepoNwoOfScpRemote(host: string, nwo: string)
    ensures RepoNwo(host, Some("git@" + host + ":" + nwo + ".git")) == Ok(Some(nwo))
    ensures RepoNwoFixed(host, Some("git@" + host + ":" + nwo + ".git")) == Ok(Some(nwo))
  {
    assert "git@" + host + ":" + (nwo + ".git") == "git@" + host + ":" + nwo + ".git";
    RepoNwoOfScpPath(host, nwo + ".git");
    StripGitSuffixInverse(nwo);
    SuffixRulesAgreeOnDotGit(nwo + ".git");
  }

  /** The unescaped dot as written: a name ending in another character
      followed by "git" loses those four characters, from either form of
      remote, while the intended rule keeps the name whole. */
  lemma {:induction false} RepoNwoCutsGitEnding(host: string, name: string, c: char)
    requires c != '.' && !LineTerminator(c)
    ensures RepoNwo(host, Some("git@" + host + ":" + (name + [c] + "git"))) == Ok(Some(name))
    ensures RepoNwoFixed(host, Some("git@" + host + ":" + (name + [c] + "git"))) == Ok(Some(name + [c] + "git"))
  {
    var path := name + [c] + "git";
    RepoNwoOfScpPath(host, path);
    CutGitEnding(name, c);
  }

  /** The two suffix rules on a name ending in a non-dot, non-terminator
      character followed by "git". */
  lemma CutGitEnding(name: string, c: char)
    requires c != '.' && !LineTerminator(c)
    ensures StripGitSuffixAsWritten(name + [c] + "git") == name
    ensures StripGitSuffix(name + [c] + "git") == name + [c] + "git"
  {
    var path := name + [c] + "git";
    assert path[|path| - 3..] == "git" && path[..|path| - 4] == name;
    assert path[|path| - 4..][0] == c;
  }

  lemma {:induction false} RepoNwoCutsGitEndingHttps(host: string, name: string, c: char)
    requires c != '.' && !LineTerminator(c)
    requires host != [] && forall ch :: ch in host ==> ch !in {'/', '?', '#', '@', ':'}
    requires forall ch :: ch in name + [c] ==> ch !in {'?', '#'}
    ensures RepoNwo(host, Some("https://" + host + "/" + (name + [c] + "git"))) == Ok(Some(name))
    ensures RepoNwoFixed(host, Some("https://" + host + "/" + (name + [c] + "git"))) == Ok(Some(name + [c] + "git"))
  {
    var path := name + [c] + "git";
    assert forall ch :: ch in path ==> ch !in {'?', '#'} by {
      forall ch | ch in path ensures ch !in {'?', '#'} {
        if ch !in name + [c] {
          assert ch in "git";
        }
      }
    }
    HttpsUri(host, path);
    RepoNwoOfHttpsUri(host, path);
    CutGitEnding(name, c);
  }

  /** The example: the remote "git@github.com:octo/legit" names "octo/l"
      as written and "octo/legit" as intended. */
  lemma RepoNwoOfLegit()
    ensures RepoNwo("github.com", Some("git@github.com:octo/legit")) == Ok(Some("octo/l"))
    ensures RepoNwoFixed("github.com", Some("git@github.com:octo/legit")) == Ok(Some("octo/legit"))
  {
    assert "git@github.com:octo/legit" == "git@" + "github.com" + ":" + ("octo/l" + ['e'] + "git");
    assert "octo/legit" == "octo/l" + ['e'] + "git";
    RepoNwoCutsGitEnding("github.com", "octo/l", 'e');
  }

  /** The intended rule names every repository whatever its name ends in:
      "git@<host>:<nwo>" and "git@<host>:<nwo>.git" both give <nwo> when
      <nwo> itself does not end in ".git". */
  lemma RepoNwoFixedKeepsName(host: string, nwo: string)
    requires !EndsWith(nwo, ".git")
    ensures RepoNwoFixed(host, Some("git@" + host + ":" + nwo)) == Ok(Some(nwo))
    ensures RepoNwoFixed(host, Some("git@" + host + ":" + nwo + ".git")) == Ok(Some(nwo))
  {
    RepoNwoOfScpPath(host, nwo);
    RepoNwoOfScpRemote(host, nwo);
    StripGitSuffixInverse(nwo);
  }

  /** A remote of any other scheme has no owner/repository name. */
  lemma RepoNwoOtherScheme(hostname: string, u: string)
    requires !StartsWith(u, "https") && !StartsWith(u, "git@")
    ensures RepoNwo(hostname, Some(u)) == Ok(None)
  {
  }

  /* ---------------------------------------------------------------------
     The instance
     --------------------------------------------------------------------- */

  /** A GitHub instance. Equality and the textual form cover the hostname
      and the API base only; the token is a separate mutable field. */
  class GitHubInstance {
    const hostname: string
    const apiBase: string
    var token: string

    /** Whether the IDE's own GitHub login is used: only for github.com. */
    predicate UseBuiltInAuth() {
      hostname == DotComHostname
    }

    /** `GitHubInstance(hostname)`, with the default API base. */
    constructor (hostname: string)
      ensures this.hostname == hostname && apiBase == DefaultApiBase(hostname)
      ensures token == ""
    {
      this.hostname := hostname;
      this.apiBase := DefaultApiBase(hostname);
      this.token := "";
    }

    /** `GitHubInstance(hostname, apiBase)`. */
    constructor WithApiBase(hostname: string, apiBase: string)
      ensures this.hostname == hostname && this.apiBase == apiBase
      ensures token == ""
    {
      this.hostname := hostname;
      this.apiBase := apiBase;
      this.token := "";
    }

    /** Callers assign the token. */
    method SetToken(t: string)
      modifies this
      ensures token == t
    {
      token := t;
    }

    /** Data-class equality: hostname and API base. */
    predicate Equals(other: GitHubInstance) {
      hostname == other.hostname && apiBase == other.apiBase
    }

    /** `extractRepoNwo(remoteUrl)` for this instance's hostname. */
    function ExtractRepoNwo(remoteUrl: Option<string>): Outcome<Option<string>> {
      RepoNwo(hostname, remoteUrl)
    }
  }

  /** The github.com singleton's state: its hostname and fixed API base. */
  method NewDotCom() returns (d: GitHubInstance)
    ensures fresh(d)
    ensures d.hostname == DotComHostname && d.apiBase == DotComApiBase && d.UseBuiltInAuth() && d.token == ""
  {
    d := new GitHubInstance.WithApiBase(DotComHostname, DotComApiBase);
  }

  /** Only github.com uses the built-in login, and the default API base of a
      self-hosted instance is under its own host. */
  lemma BuiltInAuthOnlyForDotCom(hostname: string)
    ensures hostname != DotComHostname ==> DefaultApiBase(hostname) != DotComApiBase
    ensures StartsWith(DefaultApiBase(hostname), "https://" + hostname + "/")
  {
    assert |DotComApiBase| == 22 && DotComApiBase[15] == 'h';
    if |hostname| == 7 {
      assert DefaultApiBase(hostname)[15] == '/';
    }
  }

  /** Data-class equality leaves the token out. Two instances with the
      default API base are equal exactly when their hostnames are, and none
      of them equals the github.com instance, not even one whose hostname is
      "github.com". */
  lemma DefaultBaseEquality(a: GitHubInstance, b: GitHubInstance)
    ensures a.apiBase == DefaultApiBase(a.hostname) && b.apiBase == DefaultApiBase(b.hostname) ==>
              (a.Equals(b) <==> a.hostname == b.hostname)
    ensures a.apiBase == DefaultApiBase(a.hostname) && b.apiBase == DotComApiBase ==> !a.Equals(b)
  {
    BuiltInAuthOnlyForDotCom(a.hostname);
    if a.hostname == DotComHostname {
      assert |DefaultApiBase(a.hostname)| == 25 && |DotComApiBase| == 22;
    }
  }

  /** `fromRemoteUrl(remoteUrl)`: the shared github.com instance for a
      github.com remote, a new instance with the default API base for any
      other host, and null when no host is found. */
  method FromRemoteUrl(remoteUrl: string, dotCom: GitHubInstance) returns (r: Option<GitHubInstance>)
    requires dotCom.hostname == DotComHostname
    ensures ExtractHostname(Some(remoteUrl)) == Some(DotComHostname) ==> r == Some(dotCom)
    ensures ExtractHostname(Some(remoteUrl)).None? || ExtractHostname(Some(remoteUrl)) == Some("") ==> r.None?
    ensures ExtractHostname(Some(remoteUrl)).Some? && ExtractHostname(Some(remoteUrl)).value !in {"", DotComHostname} ==>
              && r.Some? && fresh(r.value)
              && r.value.hostname == ExtractHostname(Some(remoteUrl)).value
              && r.value.apiBase == DefaultApiBase(r.value.hostname)
              && !r.value.UseBuiltInAuth() && r.value.token == ""
  {
    var hostname := ExtractHostname(Some(remoteUrl));
    if hostname == Some(dotCom.hostname) {
      return Some(dotCom);
    } else if hostname.Some? && hostname.value != "" {
      var inst := new GitHubInstance(hostname.value);
      return Some(inst);
    }
    return None;
  }
}
