/**
  GitHubAuthenticationService: which token a GitHub instance is queried
  with, and the token guard in front of the authentication probe. The
  confirmation dialog and the HTTP request are parameters.
 */
module GitHubAuthentication {
  import opened Options
  import opened GitHubInstances

  /** The button the user presses in the authentication dialog. */
  datatype DialogAnswer = OpenSettings | Cancel

  /** The outcome of the "<apiBase>/user" request: a status, or an
      IOException. */
  datatype ProbeResult = Responded(status: int) | IOFailure

  /** What a call to the git credential helper gives: a token, or an
      exception. */
  datatype CredentialResult = Found(token: Option<string>) | Threw

  /** The git credential helper: it returns null and never throws. */
  function TokenFromGitCredentials(): CredentialResult {
    Found(None)
  }

  /** The dialog asking the user to log in: both buttons give null. */
  function PromptForGitHubAuth(answer: DialogAnswer): Option<string> {
    match answer
    case OpenSettings => None
    case Cancel => None
  }

  /** The github.com token: the credential helper's answer, or the dialog's
      when the helper throws. */
  function GitHubDotComToken(answer: DialogAnswer): Option<string> {
    match TokenFromGitCredentials()
    case Found(t) => t
    case Threw => PromptForGitHubAuth(answer)
  }

  /** Neither the credential helper nor the dialog ever yields a token, so
      there is no github.com token, whatever the user answers. */
  lemma {:induction false} NoDotComToken(answer: DialogAnswer)
    ensures PromptForGitHubAuth(answer) == None
    ensures TokenFromGitCredentials() != Threw
    ensures GitHubDotComToken(answer) == None
  {
  }

  /** `getAuthenticatedToken(instance)`: the github.com token for the
      built-in login, otherwise the configured token unless it is empty. */
  function GetAuthenticatedToken(inst: GitHubInstance, answer: DialogAnswer): (r: Option<string>)
    reads inst
    ensures r.Some? ==> r.value != ""
    ensures !inst.UseBuiltInAuth() ==> (r.Some? <==> inst.token != "")
    ensures r.Some? ==> r == Some(inst.token)
  {
    if inst.UseBuiltInAuth() then GitHubDotComToken(answer)
    else if inst.token != "" then Some(inst.token)
    else None
  }

  /** A github.com instance never has a token, even one configured on it. */
  lemma DotComHasNoToken(inst: GitHubInstance, answer: DialogAnswer)
    requires inst.hostname == DotComHostname
    ensures GetAuthenticatedToken(inst, answer) == None
  {
    NoDotComToken(answer);
  }

  /** `isGitHubDotComAuthenticated()`: a non-empty github.com token exists. */
  predicate IsGitHubDotComAuthenticated(answer: DialogAnswer) {
    var t := GitHubDotComToken(answer);
    t.Some? && t.value != ""
  }

  /** github.com never counts as authenticated. */
  lemma DotComNeverAuthenticated(answer: DialogAnswer)
    ensures !IsGitHubDotComAuthenticated(answer)
  {
    NoDotComToken(answer);
  }

  /** The request the probe is made with: "<apiBase>/user", bearing the
      token. */
  function UserUrl(apiBase: string): (r: string)
    ensures |r| == |apiBase| + 5 && r[..|apiBase|] == apiBase
  {
    apiBase + "/user"
  }

  /** `testAuthentication(instance)`: false without a request when there is
      no non-empty token; otherwise true exactly when the request answers
      200, and false on an IOException. */
  function TestAuthentication(inst: GitHubInstance, answer: DialogAnswer,
                              probe: (string, string) -> ProbeResult): (r: bool)
    reads inst
    ensures r ==> GetAuthenticatedToken(inst, answer).Some?
    ensures r ==> probe(UserUrl(inst.apiBase), inst.token) == Responded(200)
  {
    var token := GetAuthenticatedToken(inst, answer);
    if token.None? || token.value == "" then false
    else
      match probe(UserUrl(inst.apiBase), token.value)
      case Responded(status) => status == 200
      case IOFailure => false
  }

  /** With a token the outcome is the probe's: 200 succeeds; any other
      status and an IOException fail. */
  lemma TestAuthenticationWithToken(inst: GitHubInstance, answer: DialogAnswer,
                                    probe: (string, string) -> ProbeResult)
    requires !inst.UseBuiltInAuth() && inst.token != ""
    ensures TestAuthentication(inst, answer, probe) <==> probe(UserUrl(inst.apiBase), inst.token) == Responded(200)
    ensures probe(UserUrl(inst.apiBase), inst.token) == IOFailure ==> !TestAuthentication(inst, answer, probe)
  {
  }

  /** Without a token the probe is never consulted: any two probes give the
      same, failing, answer. */
  lemma NoTokenNoRequest(inst: GitHubInstance, answer: DialogAnswer,
                         p: (string, string) -> ProbeResult, q: (string, string) -> ProbeResult)
    requires inst.UseBuiltInAuth() || inst.token == ""
    ensures !TestAuthentication(inst, answer, p)
    ensures TestAuthentication(inst, answer, p) == TestAuthentication(inst, answer, q)
  {
    NoDotComToken(answer);
  }

  /** The service's scenarios: a self-hosted instance with "test-token"
      gives that token, one without a token gives null, and github.com uses
      the built-in login while a self-hosted instance does not. */
  method TokenScenarios(answer: DialogAnswer)
    returns (withToken: Option<string>, withoutToken: Option<string>, dotComBuiltIn: bool, selfHostedBuiltIn: bool)
    ensures withToken == Some("test-token")
    ensures withoutToken == None
    ensures dotComBuiltIn && !selfHostedBuiltIn
  {
    var ghes := new GitHubInstance("github.private.example");
    ghes.SetToken("test-token");
    withToken := GetAuthenticatedToken(ghes, answer);
    var bare := new GitHubInstance("github.private.example");
    withoutToken := GetAuthenticatedToken(bare, answer);
    var dotCom := NewDotCom();
    dotComBuiltIn := dotCom.UseBuiltInAuth();
    selfHostedBuiltIn := bare.UseBuiltInAuth();
  }
}
