/**
  The decision logic of the SARIF viewer's tool window
  (toolWindow/SarifViewerWindowFactory.kt): which git ref is queried, the
  branch / pull-request candidates, the pull-request diff and the merge of
  several documents' buckets, the tree labels and their lookup, and the
  alert URL shown to the user. Swing, the IDE and the background worker are
  not part of this model.
 */
module ToolWindow {
  import opened Options
  import opened Exceptions
  import opened Text
  import Numbers
  import opened SarifSchema
  import opened Leaves
  import opened Views
  import opened BranchItems
  import opened Buckets
  import opened SarifService

  /* ---------------------------------------------------------------------
     Git refs
     --------------------------------------------------------------------- */

  const PullRefPrefix: string := "refs/pull/"
  const HeadsRefPrefix: string := "refs/heads/"

  function HeadsRef(branch: string): string {
    HeadsRefPrefix + branch
  }

  function PullMergeRef(n: int): string {
    PullRefPrefix + Numbers.ToDecimal(n) + "/merge"
  }

  predicate IsPullRef(ref: string) {
    StartsWith(ref, PullRefPrefix)
  }

  /** The ref a selected candidate stands for: the merge ref of its pull
      request, or the head branch when it is not one. */
  function RefFor(item: BranchItemComboBox): string {
    if item.prNumber != 0 then PullMergeRef(item.prNumber) else HeadsRef(item.head)
  }

  /** The ref of the first load: the current branch, with the literal
      fallback "refs/heads/main" pasted after the prefix a second time. */
  function InitialRef(currentBranch: Option<string>): string {
    HeadsRef(currentBranch.GetOr("refs/heads/main"))
  }

  /** A pull-request candidate selects "refs/pull/<n>/merge", from which the
      number reads back; any other candidate selects "refs/heads/<head>",
      which is not a pull ref. */
  lemma RefForSpec(item: BranchItemComboBox)
    ensures item.prNumber != 0 ==> IsPullRef(RefFor(item)) && EndsWith(RefFor(item), "/merge")
    ensures item.prNumber != 0 && Numbers.MinInt32 <= item.prNumber <= Numbers.MaxInt32 ==>
              Numbers.ParseInt(Before(RefFor(item)[|PullRefPrefix|..], '/')) == Some(item.prNumber)
    ensures item.prNumber == 0 ==> StartsWith(RefFor(item), HeadsRefPrefix) && !IsPullRef(RefFor(item))
  {
    var r := RefFor(item);
    if item.prNumber != 0 {
      var digits := Numbers.ToDecimal(item.prNumber);
      assert r == PullRefPrefix + (digits + "/merge");
      assert r[..|PullRefPrefix|] == PullRefPrefix;
      assert r[|PullRefPrefix|..] == digits + ['/'] + "merge";
      assert r[|r| - 6..] == "/merge";
      assert '/' !in digits by {
        forall i | 0 <= i < |digits| ensures digits[i] != '/' {
          assert Numbers.IsDigit(digits[i]) || digits[i] == '-';
        }
      }
      SplitAtFirst(digits, '/', "merge");
      if Numbers.MinInt32 <= item.prNumber <= Numbers.MaxInt32 {
        Numbers.ParseToDecimal(item.prNumber);
      }
    } else {
      assert r[..|HeadsRefPrefix|] == HeadsRefPrefix;
      assert r[5] == 'h' != PullRefPrefix[5];
    }
  }

  /** `sarifGitHubRef.split('/', limit = 3).last()`: the ref without its
      first two '/'-separated segments (fewer segments: the last one). */
  function BranchOfRef(ref: string): (b: string)
    ensures EndsWith(ref, b)
  {
    match After(ref, '/')
    case None => ref
    case Some(t) =>
      AfterIsSuffix(ref, '/');
      match After(t, '/')
      case None => t
      case Some(u) =>
        AfterIsSuffix(t, '/');
        EndsWithTrans(ref, t, u);
        u
  }

  /** Two '/'-free segments and a slash each are dropped from the ref. */
  lemma {:induction false} BranchAfterTwoSegments(a: string, b: string, rest: string)
    requires '/' !in a && '/' !in b
    ensures BranchOfRef(a + ['/'] + b + ['/'] + rest) == rest
  {
    assert a + ['/'] + b + ['/'] + rest == a + ['/'] + (b + ['/'] + rest);
    SplitAtFirst(a, '/', b + ['/'] + rest);
    SplitAtFirst(b, '/', rest);
  }

  /** The branch of a heads ref is the branch it was made from, even when
      the branch name has '/' in it. */
  lemma {:induction false} BranchOfHeadsRef(b: string)
    ensures BranchOfRef(HeadsRef(b)) == b
  {
    var refs, heads := "refs", "heads";
    assert '/' !in refs && '/' !in heads;
    assert HeadsRef(b) == refs + ['/'] + heads + ['/'] + b;
    BranchAfterTwoSegments(refs, heads, b);
  }

  /** The branch looked up for the pull requests on the first load is the
      current branch; without one it is "refs/heads/main", the fallback
      pasted after the prefix of the ref. */
  lemma BranchOfInitialRef(currentBranch: Option<string>)
    ensures BranchOfRef(InitialRef(currentBranch)) == currentBranch.GetOr("refs/heads/main")
  {
    BranchOfHeadsRef(currentBranch.GetOr("refs/heads/main"));
  }

  /** Without a current branch the ref carries the prefix twice. */
  lemma InitialRefWithoutBranch()
    ensures InitialRef(None) == "refs/heads/refs/heads/main"
  {
  }

  /* ---------------------------------------------------------------------
     The branch / pull-request candidates
     --------------------------------------------------------------------- */

  /** One open pull request as the viewer reads it from the JSON list. */
  datatype PullRequest = PullRequest(
    number: int,
    baseRef: Option<string>,
    headRef: Option<string>,
    title: Option<string>,
    headSha: Option<string>)

  /** `currentPr["title"].toString()`: a null title shows as "null". */
  function TitleText(title: Option<string>): string {
    title.GetOr("null")
  }

  /** The current branch's candidate, first in the list. */
  function FirstCandidate(currentBranch: Option<string>): BranchItemComboBox {
    BranchItemComboBox(0, currentBranch.GetOr("main"), "", "", "")
  }

  /** A pull request's candidate. Its `head` field receives the pull
      request's base ref and its `base` field the head ref. */
  function CandidateOf(pr: PullRequest): BranchItemComboBox {
    BranchItemComboBox(pr.number, pr.baseRef.GetOr(""), pr.headRef.GetOr(""), TitleText(pr.title), pr.headSha.GetOr(""))
  }

  function PrCandidates(prs: seq<PullRequest>): seq<BranchItemComboBox>
    decreases |prs|
  {
    if prs == [] then []
    else
      var n := |prs| - 1;
      PrCandidates(prs[..n]) + [CandidateOf(prs[n])]
  }

  lemma PrCandidatesStep(prs: seq<PullRequest>, i: int)
    requires 0 <= i < |prs|
    ensures PrCandidates(prs[..i + 1]) == PrCandidates(prs[..i]) + [CandidateOf(prs[i])]
  {
    assert prs[..i + 1][..i] == prs[..i];
  }

  /** The selector's items after `populateCombo`: the current branch, then
      one item per pull request (none for a null list). */
  function Candidates(currentBranch: Option<string>, prs: Option<seq<PullRequest>>): seq<BranchItemComboBox> {
    [FirstCandidate(currentBranch)] + match prs case None => [] case Some(ps) => PrCandidates(ps)
  }

  lemma {:induction false} PrCandidatesSpec(prs: seq<PullRequest>)
    ensures |PrCandidates(prs)| == |prs|
    ensures forall i :: 0 <= i < |prs| ==> PrCandidates(prs)[i] == CandidateOf(prs[i])
    decreases |prs|
  {
    if prs != [] {
      PrCandidatesSpec(prs[..|prs| - 1]);
    }
  }

  /** The list holds the current branch (or "main") as a non-pull-request
      item, then the pull requests in response order; each pull request's
      item shows "pr<n> (<title>)", keeps its head commit, and has the two
      refs swapped. */
  lemma CandidatesSpec(currentBranch: Option<string>, prs: seq<PullRequest>)
    ensures |Candidates(currentBranch, Some(prs))| == 1 + |prs|
    ensures Candidates(currentBranch, None) == [FirstCandidate(currentBranch)]
    ensures Candidates(currentBranch, Some(prs))[0].prNumber == 0
    ensures Candidates(currentBranch, Some(prs))[0].ToString() == currentBranch.GetOr("main")
    ensures forall i :: 0 <= i < |prs| ==>
              var c := Candidates(currentBranch, Some(prs))[i + 1];
              && c.prNumber == prs[i].number
              && c.head == prs[i].baseRef.GetOr("")
              && c.base == prs[i].headRef.GetOr("")
              && c.commit == prs[i].headSha.GetOr("")
              && c.prTitle == TitleText(prs[i].title)
  {
    PrCandidatesSpec(prs);
  }

  /** Selecting a pull request's item queries its merge ref and diffs it
      against the item's `head`, which holds the pull request's base branch;
      selecting the branch item queries the branch and does not diff. */
  lemma SelectionDiffsAgainstBase(pr: PullRequest, currentBranch: Option<string>)
    requires pr.number != 0
    ensures IsPullRef(RefFor(CandidateOf(pr))) && CandidateOf(pr).head == pr.baseRef.GetOr("")
    ensures RefFor(FirstCandidate(currentBranch)) == HeadsRef(currentBranch.GetOr("main"))
    ensures !IsPullRef(RefFor(FirstCandidate(currentBranch)))
  {
    RefForSpec(CandidateOf(pr));
    RefForSpec(FirstCandidate(currentBranch));
  }

  /* ---------------------------------------------------------------------
     Tree labels and their lookup
     --------------------------------------------------------------------- */

  /** A bucket's tree label, "<key> (<count>)". */
  function Label(key: string, count: nat): string {
    key + " (" + Numbers.ToDecimal(count) + ")"
  }

  /** `"$key"` of a rule-view key: a null key shows as "null". */
  function KeyText(k: Option<string>): string {
    k.GetOr("null")
  }

  /** The lookup key of a selected tree node: its label up to the first
      space, `split(" ").first()`. */
  function LookupKey(nodeText: string): string {
    Before(nodeText, ' ')
  }

  /** A label gives its key back exactly when the key has no space. */
  lemma LabelRoundTrip(key: string, count: nat)
    ensures LookupKey(Label(key, count)) == key <==> ' ' !in key
  {
    if ' ' !in key {
      assert Label(key, count) == key + [' '] + ("(" + Numbers.ToDecimal(count) + ")");
      SplitAtFirst(key, ' ', "(" + Numbers.ToDecimal(count) + ")");
    }
  }

  /** The bucket a lookup finds: `map[key]` on the grouping. A TreeMap with
      the integer comparator finds the entry whose key has the same sort
      value. */
  function LookupBucket(g: Grouping, nodeText: string): Option<seq<Leaf>> {
    var k := LookupKey(nodeText);
    match g
    case ByRule(m) => if Some(k) in m then Some(m[Some(k)]) else None
    case ByLocation(m) => if k in m then Some(m[k]) else None
    case ByAlertNumber(es) =>
      match AtRank(es, SortValue(k))
      case Some(e) => Some(e.1)
      case None => None
  }

  /** The details pane is shown when the lookup finds a non-empty bucket. */
  predicate ShowsDetails(g: Grouping, nodeText: string) {
    var b := LookupBucket(g, nodeText);
    b.Some? && b.value != []
  }

  /** When the details pane is shown, the leaf it shows comes from the
      bucket found for the node. */
  lemma ShowsDetailsSelects(g: Grouping, nodeText: string, address: string)
    ensures ShowsDetails(g, nodeText) ==>
              SelectLeaf(LookupBucket(g, nodeText).value, address) in LookupBucket(g, nodeText).value
  {
    if ShowsDetails(g, nodeText) {
      SelectLeafSpec(LookupBucket(g, nodeText).value, address);
    }
  }

  /** In the rule view every bucket the fill made is non-empty, so a node
      whose key has no space always shows the details pane. */
  lemma GroupedRuleShowsDetails(es: seq<(Option<string>, Leaf)>, key: string, count: nat)
    requires ' ' !in key && Some(key) in Group(es)
    ensures ShowsDetails(ByRule(Group(es)), Label(key, count))
  {
    GroupSelects(es);
    RuleLookup(Group(es), key, count);
  }

  /** A label is looked up by the first word of its key. */
  lemma {:induction false} LookupFirstWord(w: string, rest: string, count: nat)
    requires ' ' !in w
    ensures LookupKey(Label(w + [' '] + rest, count)) == w
  {
    var tail := rest + " (" + Numbers.ToDecimal(count) + ")";
    assert Label(w + [' '] + rest, count) == w + [' '] + tail;
    SplitAtFirst(w, ' ', tail);
  }

  /** `leaves.first { it.address == address }`, None when it throws. */
  function FirstWithAddress(leaves: seq<Leaf>, address: string): Option<Leaf>
    decreases |leaves|
  {
    if leaves == [] then None
    else if leaves[0].address == address then Some(leaves[0])
    else FirstWithAddress(leaves[1..], address)
  }

  /** The leaf the details pane shows for a selected node of a non-empty
      bucket: the first leaf with the node's address, or else the first
      leaf. */
  function SelectLeaf(leaves: seq<Leaf>, address: string): Leaf
    requires leaves != []
  {
    match FirstWithAddress(leaves, address)
    case Some(l) => l
    case None => leaves[0]
  }

  /** The search finds a leaf exactly when some leaf has the address, and
      then it is the first such leaf. */
  lemma {:induction false} FirstWithAddressSpec(leaves: seq<Leaf>, address: string)
    ensures FirstWithAddress(leaves, address).None? <==>
              forall i :: 0 <= i < |leaves| ==> leaves[i].address != address
    ensures FirstWithAddress(leaves, address).Some? ==>
              exists k :: 0 <= k < |leaves| && leaves[k] == FirstWithAddress(leaves, address).value &&
                leaves[k].address == address &&
                forall j :: 0 <= j < k ==> leaves[j].address != address
    decreases |leaves|
  {
    if leaves != [] && leaves[0].address != address {
      var rest := leaves[1..];
      FirstWithAddressSpec(rest, address);
      assert forall i :: 0 < i < |leaves| ==> leaves[i] == rest[i - 1];
      match FirstWithAddress(rest, address)
      case Some(l) =>
        var k :| 0 <= k < |rest| && rest[k] == l && rest[k].address == address &&
                 forall j :: 0 <= j < k ==> rest[j].address != address;
        assert leaves[k + 1] == l;
      case None =>
    }
  }

  /** The selected leaf belongs to the bucket; it has the node's address
      exactly when some leaf has it, and then no earlier leaf has it;
      otherwise it is the first leaf. */
  lemma SelectLeafSpec(leaves: seq<Leaf>, address: string)
    requires leaves != []
    ensures SelectLeaf(leaves, address) in leaves
    ensures SelectLeaf(leaves, address).address == address <==>
              exists i :: 0 <= i < |leaves| && leaves[i].address == address
    ensures SelectLeaf(leaves, address).address != address ==> SelectLeaf(leaves, address) == leaves[0]
    ensures SelectLeaf(leaves, address).address == address ==>
              exists k :: 0 <= k < |leaves| && leaves[k] == SelectLeaf(leaves, address) &&
                forall j :: 0 <= j < k ==> leaves[j].address != address
  {
    FirstWithAddressSpec(leaves, address);
  }

  /** In the hash-map views a key without a space is found under its label;
      a key with a space is looked up as its first word instead. */
  lemma HashLookup(m: map<string, seq<Leaf>>, key: string, count: nat)
    ensures ' ' !in key && key in m ==> LookupBucket(ByLocation(m), Label(key, count)) == Some(m[key])
    ensures ' ' in key ==> LookupKey(Label(key, count)) != key
    ensures ' ' in key ==>
              LookupBucket(ByLocation(m), Label(key, count)) ==
              (if Before(key, ' ') in m then Some(m[Before(key, ' ')]) else None)
  {
    LabelRoundTrip(key, count);
    if ' ' in key {
      var rest := After(key, ' ').value;
      LookupFirstWord(Before(key, ' '), rest, count);
    }
  }

  /** The rule view finds every bucket whose key has no space. */
  lemma RuleLookup(m: map<Option<string>, seq<Leaf>>, key: string, count: nat)
    requires ' ' !in key && Some(key) in m
    ensures LookupBucket(ByRule(m), Label(key, count)) == Some(m[Some(key)])
  {
    LabelRoundTrip(key, count);
  }

  /** In the alert-number view every entry whose key has no space is found
      under its label. */
  lemma AlertLookup(es: seq<Entry>, i: int, count: nat)
    requires RankSorted(es) && 0 <= i < |es| && ' ' !in es[i].0
    ensures LookupBucket(ByAlertNumber(es), Label(es[i].0, count)) == Some(es[i].1)
  {
    AtRankOfMember(es, i);
    LabelRoundTrip(es[i].0, count);
  }

  /** The "Missing alert number" bucket is found too, although its key has
      spaces: its first word "Missing" is no number and sorts as
      Integer.MIN_VALUE, like the whole key. */
  lemma MissingAlertLookup(es: seq<Entry>, i: int, count: nat)
    requires RankSorted(es) && 0 <= i < |es| && es[i].0 == MissingAlertNumber
    ensures LookupBucket(ByAlertNumber(es), Label(es[i].0, count)) == Some(es[i].1)
  {
    AtRankOfMember(es, i);
    MissingAlertNumberSortsFirst();
    var first, rest := "Missing", "alert number";
    assert ' ' !in first;
    assert MissingAlertNumber == first + [' '] + rest;
    LookupFirstWord(first, rest, count);
    Numbers.ParseRejectsText(first);
  }

  /* ---------------------------------------------------------------------
     The alert URL shown to the user
     --------------------------------------------------------------------- */

  /** The stored API URL with every "api.", "api/v3/" and "repos/" removed
      and "code-scanning/alerts" turned into "security/code-scanning", in
      that order. */
  function AlertWebUrl(apiUrl: string): string {
    var noApiHost := ReplaceAll(apiUrl, "api.", "");
    var noApiPath := ReplaceAll(noApiHost, "api/v3/", "");
    var noRepos := ReplaceAll(noApiPath, "repos/", "");
    ReplaceAll(noRepos, "code-scanning/alerts", "security/code-scanning")
  }

  /** A URL with none of the four patterns is shown as it is. */
  lemma AlertWebUrlKeepsPlainUrl(url: string)
    requires !Occurs(url, "api.") && !Occurs(url, "api/v3/") && !Occurs(url, "repos/")
    requires !Occurs(url, "code-scanning/alerts")
    ensures AlertWebUrl(url) == url
  {
    ReplaceAllAbsent(url, "api.", "");
    ReplaceAllAbsent(url, "api/v3/", "");
    ReplaceAllAbsent(url, "repos/", "");
    ReplaceAllAbsent(url, "code-scanning/alerts", "security/code-scanning");
  }

  /** "<apiBase>/repos/<owner>/<repo>/code-scanning/alerts/<number>": the
      API address of a code-scanning alert, as a leaf stores it. */
  function AlertApiUrl(apiBase: string, owner: string, repo: string, number: string): string {
    apiBase + "/" + "repos" + "/" + owner + "/" + repo + "/" + "code-scanning" + "/" + "alerts" + "/" + number
  }

  /** "<webBase>/<owner>/<repo>/security/code-scanning/<number>": the page
      of that alert. */
  function AlertPageUrl(webBase: string, owner: string, repo: string, number: string): string {
    webBase + "/" + owner + "/" + repo + "/" + "security" + "/" + "code-scanning" + "/" + number
  }

  /** The web address of an API base: "https://api.<host>" becomes
      "https://<host>", and a base ending in "/api/v3" loses that suffix. */
  function WebBase(apiBase: string): string {
    if StartsWith(apiBase, "https://api.") && '/' !in apiBase[12..] then "https://" + apiBase[12..]
    else if EndsWith(apiBase, "/api/v3") then apiBase[..|apiBase| - 7]
    else apiBase
  }

  /** github.com's API host maps to its web host. */
  lemma WebBaseOfApiHost(host: string)
    requires '/' !in host
    ensures WebBase("https://api." + host) == "https://" + host
  {
    var b := "https://api." + host;
    assert b[..12] == "https://api." && b[12..] == host;
  }

  /** A self-hosted instance's default API base maps to "https://<host>". */
  lemma WebBaseOfDefaultApiBase(host: string)
    ensures WebBase("https://" + host + "/api/v3") == "https://" + host
  {
    var b := "https://" + host + "/api/v3";
    var j := 8 + |host|;
    assert b[j] == '/';
    if |b| >= 12 && j >= 12 {
      assert b[12..][j - 12] == '/';
    } else if |b| >= 12 {
      assert b[..12][j] == '/';
    }
    assert b[|b| - 7..] == "/api/v3" && b[..|b| - 7] == "https://" + host;
  }

  /** The alert page read off its API address from the end, segment by
      segment: the number, "alerts", "code-scanning", the repository, the
      owner and "repos" before the API base. Anything else is left as it is. */
  function AlertWebUrlFixed(apiUrl: string): string {
    match SplitLast(apiUrl, '/')
    case None => apiUrl
    case Some((u1, number)) =>
      match SplitLast(u1, '/')
      case None => apiUrl
      case Some((u2, alerts)) =>
        match SplitLast(u2, '/')
        case None => apiUrl
        case Some((u3, codeScanning)) =>
          match SplitLast(u3, '/')
          case None => apiUrl
          case Some((u4, repo)) =>
            match SplitLast(u4, '/')
            case None => apiUrl
            case Some((u5, owner)) =>
              match SplitLast(u5, '/')
              case None => apiUrl
              case Some((apiBase, repos)) =>
                if repos == "repos" && codeScanning == "code-scanning" && alerts == "alerts"
                then AlertPageUrl(WebBase(apiBase), owner, repo, number)
                else apiUrl
  }

  /** Every alert's API address leads to that alert's page, whatever its
      repository is called. */
  lemma AlertWebUrlFixedRoundTrip(apiBase: string, owner: string, repo: string, number: string)
    requires '/' !in owner && '/' !in repo && '/' !in number
    ensures AlertWebUrlFixed(AlertApiUrl(apiBase, owner, repo, number))
         == AlertPageUrl(WebBase(apiBase), owner, repo, number)
  {
    var u5 := apiBase + "/" + "repos";
    var u4 := u5 + "/" + owner;
    var u3 := u4 + "/" + repo;
    var u2 := u3 + "/" + "code-scanning";
    var u1 := u2 + "/" + "alerts";
    SplitLastOf(u1, '/', number);
    SplitLastOf(u2, '/', "alerts");
    SplitLastOf(u3, '/', "code-scanning");
    SplitLastOf(u4, '/', repo);
    SplitLastOf(u5, '/', owner);
    SplitLastOf(apiBase, '/', "repos");
  }

  /** `s` has none of the characters in `chars`. */
  predicate Avoids(s: string, chars: string) {
    forall ch :: ch in s ==> ch !in chars
  }

  /** What the example needs of its parts: none of the characters the
      four patterns hinge on, and a host ending in a character
      "code-scanning/alerts" lacks. */
  predicate ReposEndingFits(host: string, owner: string, name: string, number: string) {
    && Avoids(host, "arv-/") && host != [] && host[|host| - 1] !in "code-scanning/alerts"
    && Avoids(owner, "arv-/c") && Avoids(name, "arv-/c") && Avoids(number, "pv-/")
  }

  /** An alert URL on host "api.<host>" for `owner`'s repository
      `name + "repos"`, cut into the pieces the rewrite acts on; `api`,
      `repos` and `alerts` are the parts each replacement rewrites. */
  function ReposEndingPieces(host: string, owner: string, name: string, number: string,
                             api: string, repos: string, alerts: string): seq<string> {
    ["https://", api, host, "/", repos, owner, "/", name, repos, alerts, "/", number]
  }

  lemma ReposEndingJoin(host: string, owner: string, name: string, number: string,
                        api: string, repos: string, alerts: string)
    ensures Join(ReposEndingPieces(host, owner, name, number, api, repos, alerts))
         == "https://" + (api + (host + ("/" + (repos + (owner + ("/" + (name + (repos + (alerts + ("/" + number))))))))))
  {
    Join12("https://", api, host, "/", repos, owner, "/", name, repos, alerts, "/", number);
  }

  /** The API URL's concatenation, regrouped to the right. */
  lemma ApiUrlRegroup(p1: string, p2: string, host: string, sl: string, rp: string,
                      owner: string, name: string, cs: string, al: string, number: string)
    ensures (p1 + p2) + host + sl + rp + sl + owner + sl + (name + rp) + sl + cs + sl + al + sl + number
         == p1 + (p2 + (host + (sl + ((rp + sl) + (owner + (sl + (name + ((rp + sl) + ((cs + sl + al) + (sl + number))))))))))
  {
  }

  /** Before the rewrite the pieces join up to the alert's API URL. */
  lemma ReposEndingApiUrl(host: string, owner: string, name: string, number: string)
    ensures Join(ReposEndingPieces(host, owner, name, number, "api.", "repos/", "code-scanning/alerts"))
         == AlertApiUrl("https://api." + host, owner, name + "repos", number)
  {
    ReposEndingJoin(host, owner, name, number, "api.", "repos/", "code-scanning/alerts");
    assert "https://" + "api." == "https://api.";
    assert "repos" + "/" == "repos/";
    assert "code-scanning" + "/" + "alerts" == "code-scanning/alerts";
    ApiUrlRegroup("https://", "api.", host, "/", "repos", owner, name, "code-scanning", "alerts", number);
  }

  /** The first replacement removes only the host's "api.". */
  lemma ReposEndingStepApiHost(host: string, owner: string, name: string, number: string)
    requires ReposEndingFits(host, owner, name, number)
    ensures ReplaceAll(Join(ReposEndingPieces(host, owner, name, number, "api.", "repos/", "code-scanning/alerts")), "api.", "")
         == Join(ReposEndingPieces(host, owner, name, number, "", "repos/", "code-scanning/alerts"))
  {
    ReplaceAllJoin(ReposEndingPieces(host, owner, name, number, "api.", "repos/", "code-scanning/alerts"),
                   ReposEndingPieces(host, owner, name, number, "", "repos/", "code-scanning/alerts"), "api.", "", 'p');
  }

  /** The second replacement finds no "api/v3/". */
  lemma ReposEndingStepApiPath(host: string, owner: string, name: string, number: string)
    requires ReposEndingFits(host, owner, name, number)
    ensures ReplaceAll(Join(ReposEndingPieces(host, owner, name, number, "", "repos/", "code-scanning/alerts")), "api/v3/", "")
         == Join(ReposEndingPieces(host, owner, name, number, "", "repos/", "code-scanning/alerts"))
  {
    var ps := ReposEndingPieces(host, owner, name, number, "", "repos/", "code-scanning/alerts");
    JoinLacks(ps, 'v');
    AbsentByChar(Join(ps), "api/v3/", 'v');
    ReplaceAllAbsent(Join(ps), "api/v3/", "");
  }

  /** The third replacement removes the "repos/" segment and the "repos"
      ending of the name with its slash. */
  lemma ReposEndingStepRepos(host: string, owner: string, name: string, number: string)
    requires ReposEndingFits(host, owner, name, number)
    ensures ReplaceAll(Join(ReposEndingPieces(host, owner, name, number, "", "repos/", "code-scanning/alerts")), "repos/", "")
         == Join(ReposEndingPieces(host, owner, name, number, "", "", "code-scanning/alerts"))
  {
    ReplaceAllJoin(ReposEndingPieces(host, owner, name, number, "", "repos/", "code-scanning/alerts"),
                   ReposEndingPieces(host, owner, name, number, "", "", "code-scanning/alerts"), "repos/", "", 'p');
  }

  /** The last replacement rewrites the one "code-scanning/alerts". */
  lemma ReposEndingStepAlerts(host: string, owner: string, name: string, number: string)
    requires ReposEndingFits(host, owner, name, number)
    ensures ReplaceAll(Join(ReposEndingPieces(host, owner, name, number, "", "", "code-scanning/alerts")),
                       "code-scanning/alerts", "security/code-scanning")
         == Join(ReposEndingPieces(host, owner, name, number, "", "", "security/code-scanning"))
  {
    ReplaceAllJoin(ReposEndingPieces(host, owner, name, number, "", "", "code-scanning/alerts"),
                   ReposEndingPieces(host, owner, name, number, "", "", "security/code-scanning"),
                   "code-scanning/alerts", "security/code-scanning", '-');
  }

  /** The four replacements, piece by piece. */
  lemma ReposEndingRewrite(host: string, owner: string, name: string, number: string)
    requires ReposEndingFits(host, owner, name, number)
    ensures AlertWebUrl(Join(ReposEndingPieces(host, owner, name, number, "api.", "repos/", "code-scanning/alerts")))
         == Join(ReposEndingPieces(host, owner, name, number, "", "", "security/code-scanning"))
  {
    ReposEndingStepApiHost(host, owner, name, number);
    ReposEndingStepApiPath(host, owner, name, number);
    ReposEndingStepRepos(host, owner, name, number);
    ReposEndingStepAlerts(host, owner, name, number);
  }

  /** The as-written rewrite on a github.com-style host: a repository whose
      name ends in "repos" loses that ending, and the page address runs the
      rest of the name into "security". */
  lemma AlertWebUrlDropsReposEnding(host: string, owner: string, name: string, number: string)
    requires ReposEndingFits(host, owner, name, number)
    ensures AlertWebUrl(AlertApiUrl("https://api." + host, owner, name + "repos", number))
         == "https://" + (host + ("/" + (owner + ("/" + (name + ("security/code-scanning" + ("/" + number)))))))
  {
    ReposEndingApiUrl(host, owner, name, number);
    ReposEndingRewrite(host, owner, name, number);
    ReposEndingJoin(host, owner, name, number, "", "", "security/code-scanning");
    var tail := "/" + (owner + ("/" + (name + ("security/code-scanning" + ("/" + number)))));
    assert "" + tail == tail;
    assert "" + (host + ("/" + ("" + tail))) == host + ("/" + tail);
  }

  /** On the same address the corrected reading keeps the name whole, so the
      two disagree. */
  lemma AlertWebUrlFixedKeepsReposEnding(host: string, owner: string, name: string, number: string)
    requires ReposEndingFits(host, owner, name, number)
    ensures AlertWebUrlFixed(AlertApiUrl("https://api." + host, owner, name + "repos", number))
         == AlertPageUrl("https://" + host, owner, name + "repos", number)
    ensures AlertWebUrl(AlertApiUrl("https://api." + host, owner, name + "repos", number))
         != AlertWebUrlFixed(AlertApiUrl("https://api." + host, owner, name + "repos", number))
  {
    AlertWebUrlDropsReposEnding(host, owner, name, number);
    assert '/' !in owner && '/' !in name + "repos" && '/' !in number && '/' !in host;
    AlertWebUrlFixedRoundTrip("https://api." + host, owner, name + "repos", number);
    WebBaseOfApiHost(host);
  }

  /** The example's parts meet the conditions above. */
  lemma MyreposFits()
    ensures ReposEndingFits("github.com", "hubot", "my", "1")
  {
  }

  /** The example: hubot's repository "myrepos" on github.com, alert 1. */
  lemma AlertWebUrlOfMyrepos()
    ensures AlertWebUrl(AlertApiUrl("https://api." + "github.com", "hubot", "my" + "repos", "1"))
         == "https://" + ("github.com" + ("/" + ("hubot" + ("/" + ("my" + ("security/code-scanning" + ("/" + "1")))))))
    ensures AlertWebUrlFixed(AlertApiUrl("https://api." + "github.com", "hubot", "my" + "repos", "1"))
         == AlertPageUrl("https://" + "github.com", "hubot", "my" + "repos", "1")
  {
    MyreposFits();
    AlertWebUrlDropsReposEnding("github.com", "hubot", "my", "1");
    AlertWebUrlFixedKeepsReposEnding("github.com", "hubot", "my", "1");
  }

  /* ---------------------------------------------------------------------
     The pull-request diff
     --------------------------------------------------------------------- */

  /** A base result matches a head result when the rule ids are equal and
      the "uri:startLine" texts of their first locations are equal; the
      message plays no part. */
  ghost predicate Matches(r: SarifResult, b: SarifResult) {
    && r.ruleId == b.ruleId
    && r.locations != [] && b.locations != []
    && AddressOf(r.locations[0]) == AddressOf(b.locations[0])
  }

  ghost predicate Matched(r: SarifResult, base: seq<SarifResult>) {
    exists j :: 0 <= j < |base| && Matches(r, base[j])
  }

  ghost predicate Located(rs: seq<SarifResult>) {
    forall i :: 0 <= i < |rs| ==> rs[i].locations != []
  }

  /** `mainResults.none { .. }` negated: the base results are tried in
      order, and the first with the same rule id whose address is read
      from a result without locations throws. */
  function HasMatch(r: SarifResult, base: seq<SarifResult>): Outcome<bool>
    decreases |base|
  {
    if base == [] then Ok(false)
    else if base[0].ruleId != r.ruleId then HasMatch(r, base[1..])
    else if r.locations == [] || base[0].locations == [] then Err(RuntimeFailure)
    else if AddressOf(r.locations[0]) == AddressOf(base[0].locations[0]) then Ok(true)
    else HasMatch(r, base[1..])
  }

  /** HasMatch answers whether a matching base result exists; it fails only
      on a pair of equal rule ids one of which has no location, so it never
      fails when all results are located. */
  lemma {:induction false} HasMatchSpec(r: SarifResult, base: seq<SarifResult>)
    ensures HasMatch(r, base).Ok? ==> (HasMatch(r, base).value <==> Matched(r, base))
    ensures HasMatch(r, base).Err? ==>
              && HasMatch(r, base).failure == RuntimeFailure
              && exists j :: 0 <= j < |base| && base[j].ruleId == r.ruleId && (r.locations == [] || base[j].locations == [])
    ensures r.locations != [] && Located(base) ==> HasMatch(r, base).Ok?
    decreases |base|
  {
    if base != [] {
      HasMatchSpec(r, base[1..]);
      if HasMatch(r, base).Ok? && !HasMatch(r, base).value {
        forall j | 0 <= j < |base| ensures !Matches(r, base[j]) {
          if j > 0 {
            assert base[j] == base[1..][j - 1];
          }
        }
      }
      if HasMatch(r, base).Ok? && HasMatch(r, base).value && !Matches(r, base[0]) {
        var j :| 0 <= j < |base[1..]| && Matches(r, base[1..][j]);
        assert Matches(r, base[j + 1]);
      }
      if HasMatch(r, base).Err? && (base[0].ruleId != r.ruleId || (r.locations != [] && base[0].locations != [])) {
        var j :| 0 <= j < |base[1..]| && base[1..][j].ruleId == r.ruleId && (r.locations == [] || base[1..][j].locations == []);
        assert base[j + 1] == base[1..][j];
      }
    }
  }

  /** Reference definition of the diff: the head results without a match
      in the base, in head order. */
  ghost function Unmatched(head: seq<SarifResult>, base: seq<SarifResult>): seq<SarifResult>
    decreases |head|
  {
    if head == [] then []
    else
      var n := |head| - 1;
      Unmatched(head[..n], base) + (if Matched(head[n], base) then [] else [head[n]])
  }

  /** The diff as the loop computes it, with its failure. */
  function NewResults(head: seq<SarifResult>, base: seq<SarifResult>): Outcome<seq<SarifResult>>
    decreases |head|
  {
    if head == [] then Ok([])
    else
      var n := |head| - 1;
      match NewResults(head[..n], base)
      case Err(f) => Err(f)
      case Ok(kept) =>
        match HasMatch(head[n], base)
        case Err(f) => Err(f)
        case Ok(m) => Ok(if m then kept else kept + [head[n]])
  }

  /** The diff keeps exactly the unmatched head results in head order, and
      succeeds whenever every head and base result has a location. */
  lemma {:induction false} NewResultsSpec(head: seq<SarifResult>, base: seq<SarifResult>)
    ensures NewResults(head, base).Ok? ==> NewResults(head, base).value == Unmatched(head, base)
    ensures Located(head) && Located(base) ==> NewResults(head, base).Ok?
    ensures NewResults(head, base).Err? ==> NewResults(head, base).failure == RuntimeFailure
    decreases |head|
  {
    if head != [] {
      var n := |head| - 1;
      assert Located(head) ==> Located(head[..n]) && head[n].locations != [];
      NewResultsSpec(head[..n], base);
      HasMatchSpec(head[n], base);
    }
  }

  /** A head result is shown iff it has no match in the base. */
  lemma {:induction false} UnmatchedMembers(head: seq<SarifResult>, base: seq<SarifResult>, r: SarifResult)
    ensures r in Unmatched(head, base) <==> r in head && !Matched(r, base)
    decreases |head|
  {
    if head != [] {
      var n := |head| - 1;
      assert head == head[..n] + [head[n]];
      UnmatchedMembers(head[..n], base, r);
    }
  }

  /** The message text of a result never decides whether it is shown. */
  lemma MatchIgnoresMessage(r: SarifResult, base: seq<SarifResult>, text: Option<string>)
    ensures Matched(r.(messageText := text), base) <==> Matched(r, base)
  {
    if Matched(r, base) {
      var j :| 0 <= j < |base| && Matches(r, base[j]);
      assert Matches(r.(messageText := text), base[j]);
    }
    if Matched(r.(messageText := text), base) {
      var j :| 0 <= j < |base| && Matches(r.(messageText := text), base[j]);
      assert Matches(r, base[j]);
    }
  }

  lemma {:induction false} NewResultsErrExtends(head: seq<SarifResult>, base: seq<SarifResult>, k: int)
    requires 0 <= k <= |head| && NewResults(head[..k], base).Err?
    ensures NewResults(head, base) == NewResults(head[..k], base)
    decreases |head| - k
  {
    if k < |head| {
      var n := |head| - 1;
      assert head[..n][..k] == head[..k];
      NewResultsErrExtends(head[..n], base, k);
    } else {
      assert head[..k] == head;
    }
  }

  /** The diff loop: each head result is kept unless the base has a match. */
  method DiffResults(head: seq<SarifResult>, base: seq<SarifResult>) returns (out: Outcome<seq<SarifResult>>)
    ensures out == NewResults(head, base)
  {
    var kept: seq<SarifResult> := [];
    for i := 0 to |head|
      invariant NewResults(head[..i], base) == Ok(kept)
    {
      assert head[..i + 1][..i] == head[..i];
      var m := HasMatch(head[i], base);
      if m.Err? {
        NewResultsErrExtends(head, base, i + 1);
        return Err(m.failure);
      }
      if !m.value {
        kept := kept + [head[i]];
      }
    }
    assert head[..|head|] == head;
    out := Ok(kept);
  }

  /* ---------------------------------------------------------------------
     Results of the first run, and the merge of several documents
     --------------------------------------------------------------------- */

  /** `it.runs?.get(0)?.results ?: emptyList()`: the results of the first
      run; an empty run list makes `get(0)` throw. */
  function RunZeroResults(doc: SarifLog): Outcome<seq<SarifResult>> {
    match doc.runs
    case None => Ok([])
    case Some(runs) => if runs == [] then Err(RuntimeFailure) else Ok(runs[0].results.GetOr([]))
  }

  /** `flatMap` of RunZeroResults over the documents, failing at the first
      document that fails. */
  function FirstRunResults(docs: seq<SarifLog>): Outcome<seq<SarifResult>>
    decreases |docs|
  {
    if docs == [] then Ok([])
    else
      match RunZeroResults(docs[0])
      case Err(f) => Err(f)
      case Ok(rs) =>
        match FirstRunResults(docs[1..])
        case Err(f) => Err(f)
        case Ok(more) => Ok(rs + more)
  }

  /** The first-run results fail exactly when some document has an empty
      run list. */
  lemma {:induction false} FirstRunResultsSpec(docs: seq<SarifLog>)
    ensures FirstRunResults(docs).Err? <==> exists i :: 0 <= i < |docs| && docs[i].runs == Some([])
    ensures FirstRunResults(docs).Err? ==> FirstRunResults(docs).failure == RuntimeFailure
    decreases |docs|
  {
    if docs != [] {
      FirstRunResultsSpec(docs[1..]);
      if exists i :: 0 <= i < |docs[1..]| && docs[1..][i].runs == Some([]) {
        var i :| 0 <= i < |docs[1..]| && docs[1..][i].runs == Some([]);
        assert docs[i + 1].runs == Some([]);
      }
      if exists i :: 0 <= i < |docs| && docs[i].runs == Some([]) {
        var i :| 0 <= i < |docs| && docs[i].runs == Some([]);
        if i > 0 {
          assert docs[1..][i - 1].runs == Some([]);
        }
      }
    }
  }

  /** `f` applied to every document in order; the first failure wins. */
  function ClassifyEach(docs: seq<SarifLog>, f: SarifLog -> Outcome<Grouping>): Outcome<seq<Grouping>>
    decreases |docs|
  {
    if docs == [] then Ok([])
    else
      var n := |docs| - 1;
      match ClassifyEach(docs[..n], f)
      case Err(e) => Err(e)
      case Ok(gs) =>
        match f(docs[n])
        case Err(e) => Err(e)
        case Ok(g) => Ok(gs + [g])
  }

  lemma {:induction false} ClassifyEachSpec(docs: seq<SarifLog>, f: SarifLog -> Outcome<Grouping>)
    ensures ClassifyEach(docs, f).Ok? ==>
              && |ClassifyEach(docs, f).value| == |docs|
              && forall i :: 0 <= i < |docs| ==> f(docs[i]) == Ok(ClassifyEach(docs, f).value[i])
    ensures ClassifyEach(docs, f).Err? <==> exists i :: 0 <= i < |docs| && f(docs[i]).Err?
    decreases |docs|
  {
    if docs != [] {
      var n := |docs| - 1;
      ClassifyEachSpec(docs[..n], f);
      if exists i :: 0 <= i < n && f(docs[..n][i]).Err? {
        var i :| 0 <= i < n && f(docs[..n][i]).Err?;
        assert f(docs[i]).Err?;
      }
      if exists i :: 0 <= i < |docs| && f(docs[i]).Err? {
        var i :| 0 <= i < |docs| && f(docs[i]).Err?;
        if i < n {
          assert f(docs[..n][i]).Err?;
        }
      }
    }
  }

  lemma {:induction false} ClassifyEachErrExtends(docs: seq<SarifLog>, f: SarifLog -> Outcome<Grouping>, k: int)
    requires 0 <= k <= |docs| && ClassifyEach(docs[..k], f).Err?
    ensures ClassifyEach(docs, f) == ClassifyEach(docs[..k], f)
    decreases |docs| - k
  {
    if k < |docs| {
      var n := |docs| - 1;
      assert docs[..n][..k] == docs[..k];
      ClassifyEachErrExtends(docs[..n], f, k);
    } else {
      assert docs[..k] == docs;
    }
  }

  /** `analyseSarif` under one view, as a function of the document. */
  function Classifier(view: View): SarifLog -> Outcome<Grouping> {
    d => Classify(d, view)
  }

  /** `analyseSarif` of every document under one view. */
  function ClassifyAll(docs: seq<SarifLog>, view: View): Outcome<seq<Grouping>> {
    ClassifyEach(docs, Classifier(view))
  }

  /** `acc.putAll(item)`: a hash map takes the later bucket of a key; the
      sorted alert map puts each entry under the integer comparator.
      Documents classified under one view always give groupings of the same
      kind, so the last case does not arise. */
  function MergeInto(acc: Grouping, g: Grouping): Grouping {
    match (acc, g)
    case (ByRule(a), ByRule(b)) => ByRule(a + b)
    case (ByLocation(a), ByLocation(b)) => ByLocation(a + b)
    case (ByAlertNumber(a), ByAlertNumber(b)) => ByAlertNumber(PutAllByRank(a, b))
    case _ => acc
  }

  /** `reduce { acc, item -> acc.apply { putAll(item) } }`. */
  function Merged(gs: seq<Grouping>): Grouping
    requires |gs| > 0
    decreases |gs|
  {
    if |gs| == 1 then gs[0]
    else
      var n := |gs| - 1;
      MergeInto(Merged(gs[..n]), gs[n])
  }

  /** Merging rule-view maps: a key is present when some document has it,
      and its bucket is that of the last document that has it. */
  lemma {:induction false} MergedRuleViews(gs: seq<Grouping>)
    requires |gs| > 0 && forall i :: 0 <= i < |gs| ==> gs[i].ByRule?
    ensures Merged(gs).ByRule?
    ensures forall k :: k in Merged(gs).rules <==> exists i :: 0 <= i < |gs| && k in gs[i].rules
    ensures forall k, i :: 0 <= i < |gs| && k in gs[i].rules && (forall j :: i < j < |gs| ==> k !in gs[j].rules) ==>
              Merged(gs).rules[k] == gs[i].rules[k]
    decreases |gs|
  {
    if |gs| > 1 {
      var n := |gs| - 1;
      MergedRuleViews(gs[..n]);
      forall k | k in Merged(gs).rules ensures exists i :: 0 <= i < |gs| && k in gs[i].rules {
        if k !in gs[n].rules {
          var i :| 0 <= i < n && k in gs[..n][i].rules;
          assert k in gs[i].rules;
        }
      }
      forall k, i | 0 <= i < |gs| && k in gs[i].rules && (forall j :: i < j < |gs| ==> k !in gs[j].rules)
        ensures Merged(gs).rules[k] == gs[i].rules[k]
      {
        if i < n {
          assert k in gs[..n][i].rules;
          assert forall j :: i < j < n ==> k !in gs[..n][j].rules;
        }
      }
      forall k | exists i :: 0 <= i < |gs| && k in gs[i].rules ensures k in Merged(gs).rules {
        var i :| 0 <= i < |gs| && k in gs[i].rules;
        if i < n {
          assert k in gs[..n][i].rules;
        }
      }
    }
  }

  /** Merging location-view maps: the same later-document-wins rule. */
  lemma {:induction false} MergedLocationViews(gs: seq<Grouping>)
    requires |gs| > 0 && forall i :: 0 <= i < |gs| ==> gs[i].ByLocation?
    ensures Merged(gs).ByLocation?
    ensures forall k :: k in Merged(gs).locations <==> exists i :: 0 <= i < |gs| && k in gs[i].locations
    ensures forall k, i :: 0 <= i < |gs| && k in gs[i].locations && (forall j :: i < j < |gs| ==> k !in gs[j].locations) ==>
              Merged(gs).locations[k] == gs[i].locations[k]
    decreases |gs|
  {
    if |gs| > 1 {
      var n := |gs| - 1;
      MergedLocationViews(gs[..n]);
      forall k | k in Merged(gs).locations ensures exists i :: 0 <= i < |gs| && k in gs[i].locations {
        if k !in gs[n].locations {
          var i :| 0 <= i < n && k in gs[..n][i].locations;
          assert k in gs[i].locations;
        }
      }
      forall k, i | 0 <= i < |gs| && k in gs[i].locations && (forall j :: i < j < |gs| ==> k !in gs[j].locations)
        ensures Merged(gs).locations[k] == gs[i].locations[k]
      {
        if i < n {
          assert k in gs[..n][i].locations;
          assert forall j :: i < j < n ==> k !in gs[..n][j].locations;
        }
      }
      forall k | exists i :: 0 <= i < |gs| && k in gs[i].locations ensures k in Merged(gs).locations {
        var i :| 0 <= i < |gs| && k in gs[i].locations;
        if i < n {
          assert k in gs[..n][i].locations;
        }
      }
    }
  }

  /** Putting a sorted entry list into a sorted one: at a sort value of
      `b` the bucket is `b`'s and the key the one `acc` had, if any;
      elsewhere `acc` is unchanged. */
  lemma PutAllSortedAt(acc: seq<Entry>, b: seq<Entry>, r: int)
    requires RankSorted(acc) && RankSorted(b)
    ensures r !in RanksOf(b) ==> AtRank(PutAllByRank(acc, b), r) == AtRank(acc, r)
    ensures r in RanksOf(b) ==>
              && AtRank(b, r).Some? && AtRank(PutAllByRank(acc, b), r).Some?
              && AtRank(PutAllByRank(acc, b), r).value.1 == AtRank(b, r).value.1
              && AtRank(PutAllByRank(acc, b), r).value.0 ==
                 (if AtRank(acc, r).Some? then AtRank(acc, r).value.0 else AtRank(b, r).value.0)
  {
    PutAllByRankSpec(acc, b);
    if r in RanksOf(b) {
      SortedRankUnique(b, r);
    }
  }

  /** The sort values of all the alert-number views in `gs`. */
  ghost function AllRanks(gs: seq<Grouping>): set<int>
    decreases |gs|
  {
    if gs == [] then {}
    else
      var n := |gs| - 1;
      AllRanks(gs[..n]) + (if gs[n].ByAlertNumber? then RanksOf(gs[n].alerts) else {})
  }

  lemma {:induction false} AllRanksHas(gs: seq<Grouping>, i: int, r: int)
    requires 0 <= i < |gs| && gs[i].ByAlertNumber? && r in RanksOf(gs[i].alerts)
    ensures r in AllRanks(gs)
    decreases |gs|
  {
    var n := |gs| - 1;
    if i < n {
      assert gs[..n][i] == gs[i];
      AllRanksHas(gs[..n], i, r);
    }
  }

  lemma {:induction false} AllRanksWitness(gs: seq<Grouping>, r: int) returns (i: int)
    requires r in AllRanks(gs)
    ensures 0 <= i < |gs| && gs[i].ByAlertNumber? && r in RanksOf(gs[i].alerts)
    decreases |gs|
  {
    var n := |gs| - 1;
    if gs[n].ByAlertNumber? && r in RanksOf(gs[n].alerts) {
      i := n;
    } else {
      i := AllRanksWitness(gs[..n], r);
      assert gs[..n][i] == gs[i];
    }
  }

  lemma {:induction false} AllRanksAbsent(gs: seq<Grouping>, r: int)
    requires forall i :: 0 <= i < |gs| && gs[i].ByAlertNumber? ==> r !in RanksOf(gs[i].alerts)
    ensures r !in AllRanks(gs)
    decreases |gs|
  {
    if gs != [] {
      var n := |gs| - 1;
      forall i | 0 <= i < n && gs[..n][i].ByAlertNumber? ensures r !in RanksOf(gs[..n][i].alerts) {
        assert gs[..n][i] == gs[i];
      }
      AllRanksAbsent(gs[..n], r);
    }
  }

  /** Merging sorted alert-number views keeps the integer order and holds
      the sort values of all the views. */
  lemma {:induction false} MergedAlertSorted(gs: seq<Grouping>)
    requires |gs| > 0
    requires forall i :: 0 <= i < |gs| ==> gs[i].ByAlertNumber? && RankSorted(gs[i].alerts)
    ensures Merged(gs).ByAlertNumber? && RankSorted(Merged(gs).alerts)
    ensures RanksOf(Merged(gs).alerts) == AllRanks(gs)
    decreases |gs|
  {
    if |gs| > 1 {
      var n := |gs| - 1;
      MergedAlertSorted(gs[..n]);
      var acc, b := Merged(gs[..n]).alerts, gs[n].alerts;
      PutAllByRankSorted(acc, b);
      assert Merged(gs).alerts == PutAllByRank(acc, b);
    } else {
      assert gs[..0] == [];
    }
  }

  /** A sort value is in the merge exactly when some view has it. */
  lemma MergedAlertRanks(gs: seq<Grouping>, r: int)
    requires |gs| > 0
    requires forall i :: 0 <= i < |gs| ==> gs[i].ByAlertNumber? && RankSorted(gs[i].alerts)
    ensures Merged(gs).ByAlertNumber? && RankSorted(Merged(gs).alerts)
    ensures r in RanksOf(Merged(gs).alerts) <==> exists i :: 0 <= i < |gs| && r in RanksOf(gs[i].alerts)
  {
    MergedAlertSorted(gs);
    if r in AllRanks(gs) {
      var i := AllRanksWitness(gs, r);
    }
    if exists i :: 0 <= i < |gs| && r in RanksOf(gs[i].alerts) {
      var i :| 0 <= i < |gs| && r in RanksOf(gs[i].alerts);
      AllRanksHas(gs, i, r);
    }
  }

  /** At each sort value the merged bucket is that of the last document
      having the value. */
  lemma {:induction false} MergedAlertBucket(gs: seq<Grouping>, r: int, i: int)
    requires |gs| > 0
    requires forall j :: 0 <= j < |gs| ==> gs[j].ByAlertNumber? && RankSorted(gs[j].alerts)
    requires 0 <= i < |gs| && r in RanksOf(gs[i].alerts)
    requires forall j :: i < j < |gs| ==> r !in RanksOf(gs[j].alerts)
    ensures Merged(gs).ByAlertNumber?
    ensures AtRank(gs[i].alerts, r).Some? && AtRank(Merged(gs).alerts, r).Some?
    ensures AtRank(Merged(gs).alerts, r).value.1 == AtRank(gs[i].alerts, r).value.1
    decreases |gs|
  {
    MergedAlertSorted(gs);
    if |gs| == 1 {
      AtRankPresent(gs[0].alerts, r);
    } else {
      var n := |gs| - 1;
      var prev := gs[..n];
      MergedAlertSorted(prev);
      var acc, b := Merged(prev).alerts, gs[n].alerts;
      assert Merged(gs).alerts == PutAllByRank(acc, b);
      PutAllSortedAt(acc, b, r);
      if i < n {
        MergedAlertBucket(prev, r, i);
        assert r !in RanksOf(b);
      }
    }
  }

  /** At each sort value the merged key is that of the first document
      having the value. */
  lemma {:induction false} MergedAlertKey(gs: seq<Grouping>, r: int, i: int)
    requires |gs| > 0
    requires forall j :: 0 <= j < |gs| ==> gs[j].ByAlertNumber? && RankSorted(gs[j].alerts)
    requires 0 <= i < |gs| && r in RanksOf(gs[i].alerts)
    requires forall j :: 0 <= j < i ==> r !in RanksOf(gs[j].alerts)
    ensures Merged(gs).ByAlertNumber?
    ensures AtRank(gs[i].alerts, r).Some? && AtRank(Merged(gs).alerts, r).Some?
    ensures AtRank(Merged(gs).alerts, r).value.0 == AtRank(gs[i].alerts, r).value.0
    decreases |gs|
  {
    if |gs| == 1 {
      AtRankPresent(gs[0].alerts, r);
    } else {
      var n := |gs| - 1;
      var prev := gs[..n];
      MergedAlertSorted(prev);
      var acc, b := Merged(prev).alerts, gs[n].alerts;
      assert Merged(gs).alerts == PutAllByRank(acc, b);
      PutAllSortedAt(acc, b, r);
      if i < n {
        MergedAlertKey(prev, r, i);
      } else {
        forall j | 0 <= j < n && prev[j].ByAlertNumber? ensures r !in RanksOf(prev[j].alerts) {
          assert prev[j] == gs[j];
        }
        AllRanksAbsent(prev, r);
        AtRankPresent(acc, r);
      }
    }
  }

  /** The reduce loop over the groupings of the documents. */
  method MergeGroupings(gs: seq<Grouping>) returns (m: Grouping)
    requires |gs| > 0
    ensures m == Merged(gs)
  {
    m := gs[0];
    assert gs[..1] == [gs[0]];
    for i := 1 to |gs|
      invariant m == Merged(gs[..i])
    {
      assert gs[..i + 1][..i] == gs[..i];
      m := MergeInto(m, gs[i]);
    }
    assert gs[..|gs|] == gs;
  }

  /* ---------------------------------------------------------------------
     extractSarif
     --------------------------------------------------------------------- */

  /** `extractSarif(github, repositoryFullName, base)` for the ref `ref` and
      the view `view`. `docsOf(b)` stands for the service's
      `getSarifFromGitHub(github, repositoryFullName, b)`. The first-run
      results are read before anything else, so a document with an empty
      run list fails even when no diff is made. No documents give an empty
      hash map; a pull ref with a base diffs against the base's documents
      and groups the rest by rule; otherwise the documents' groupings are
      merged. */
  function ExtractSarifSpec(ref: string, base: Option<string>, view: View,
                            docsOf: string -> Outcome<seq<SarifLog>>): Outcome<Grouping>
  {
    match docsOf(ref)
    case Err(f) => Err(f)
    case Ok(docs) =>
      match FirstRunResults(docs)
      case Err(f) => Err(f)
      case Ok(results) =>
        if docs == [] then Ok(ByRule(map[]))
        else if IsPullRef(ref) && base.Some? then
          match docsOf(base.value)
          case Err(f) => Err(f)
          case Ok(baseDocs) =>
            match FirstRunResults(baseDocs)
            case Err(f) => Err(f)
            case Ok(mainResults) =>
              match NewResults(results, mainResults)
              case Err(f) => Err(f)
              case Ok(kept) =>
                match AnalyseResultSpec(kept)
                case Err(f) => Err(f)
                case Ok(m) => Ok(ByRule(m))
        else
          match ClassifyAll(docs, view)
          case Err(f) => Err(f)
          case Ok(gs) =>
            ClassifyEachSpec(docs, Classifier(view));
            Ok(Merged(gs))
  }

  /** No documents for the ref: an empty map, whatever the view. */
  lemma NoDocumentsNoBuckets(ref: string, base: Option<string>, view: View,
                             docsOf: string -> Outcome<seq<SarifLog>>)
    requires docsOf(ref) == Ok([])
    ensures ExtractSarifSpec(ref, base, view, docsOf) == Ok(ByRule(map[]))
  {
  }

  /** Only a pull ref with a base is diffed: for any other ref the base
      plays no part. A diff is grouped by rule whatever the view, and a
      non-empty diff result is the rule grouping of the unmatched head
      results. */
  lemma DiffOnlyForPullRefs(ref: string, base: Option<string>, view: View, other: View,
                            docsOf: string -> Outcome<seq<SarifLog>>)
    ensures !IsPullRef(ref) ==> ExtractSarifSpec(ref, base, view, docsOf) == ExtractSarifSpec(ref, None, view, docsOf)
    ensures IsPullRef(ref) && base.Some? ==>
              ExtractSarifSpec(ref, base, view, docsOf) == ExtractSarifSpec(ref, base, other, docsOf)
    ensures IsPullRef(ref) && base.Some? && ExtractSarifSpec(ref, base, view, docsOf).Ok? ==>
              ExtractSarifSpec(ref, base, view, docsOf).value.ByRule?
  {
  }

  /** A successful diff shows exactly the unmatched head results, grouped
      as `analyseResult` groups them. */
  lemma DiffShowsUnmatched(ref: string, base: string, view: View,
                           docsOf: string -> Outcome<seq<SarifLog>>,
                           docs: seq<SarifLog>, baseDocs: seq<SarifLog>,
                           results: seq<SarifResult>, mainResults: seq<SarifResult>)
    requires IsPullRef(ref) && docs != []
    requires docsOf(ref) == Ok(docs) && docsOf(base) == Ok(baseDocs)
    requires FirstRunResults(docs) == Ok(results) && FirstRunResults(baseDocs) == Ok(mainResults)
    requires Located(results) && Located(mainResults)
    ensures ExtractSarifSpec(ref, Some(base), view, docsOf) ==
              match AnalyseResultSpec(Unmatched(results, mainResults))
              case Err(f) => Err(f)
              case Ok(m) => Ok(ByRule(m))
  {
    NewResultsSpec(results, mainResults);
  }

  /* ---------------------------------------------------------------------
     The tool window's state
     --------------------------------------------------------------------- */

  /** The fields of the tool window the handlers update: the ref being
      shown, the view, the flag that mutes the selector while it is
      rebuilt, and the selector's items. */
  class ToolWindowState {
    var sarifGitHubRef: string
    var currentView: View
    var disableComboBoxEvent: bool
    var comboItems: seq<BranchItemComboBox>

    constructor ()
      ensures sarifGitHubRef == "" && currentView == Rule && !disableComboBoxEvent
      ensures comboItems == [BranchItemComboBox(0, "main", "", "", "")]
    {
      sarifGitHubRef := "";
      currentView := Rule;
      disableComboBoxEvent := false;
      comboItems := [BranchItemComboBox(0, "main", "", "", "")];
    }

    /** On a load without a selected item the ref becomes the current
        branch's. */
    method InitRef(currentBranch: Option<string>, selectedCombo: Option<BranchItemComboBox>)
      modifies this
      ensures sarifGitHubRef == if selectedCombo.None? then InitialRef(currentBranch) else old(sarifGitHubRef)
      ensures currentView == old(currentView) && disableComboBoxEvent == old(disableComboBoxEvent)
      ensures comboItems == old(comboItems)
    {
      if selectedCombo.None? {
        sarifGitHubRef := InitialRef(currentBranch);
      }
    }

    /** The selector's change handler: while the selector is muted, or the
        IDE is indexing, or nothing is selected, the ref stays. */
    method OnComboChanged(isChange: bool, selected: Option<BranchItemComboBox>, indexing: bool)
      modifies this
      ensures isChange && selected.Some? && !disableComboBoxEvent && !indexing ==> sarifGitHubRef == RefFor(selected.value)
      ensures !(isChange && selected.Some? && !disableComboBoxEvent && !indexing) ==> sarifGitHubRef == old(sarifGitHubRef)
      ensures currentView == old(currentView) && disableComboBoxEvent == old(disableComboBoxEvent)
      ensures comboItems == old(comboItems)
    {
      if isChange && selected.Some? && !disableComboBoxEvent && !indexing {
        sarifGitHubRef := RefFor(selected.value);
      }
    }

    /** `populateCombo`: mute the selector, put the current branch first,
        look up the open pull requests of the ref's branch and add one item
        each, then unmute. A failed lookup leaves the selector muted with
        the branch item only. */
    method PopulateCombo(currentBranch: Option<string>, pullsOf: string -> Outcome<Option<seq<PullRequest>>>)
      returns (out: Outcome<()>)
      modifies this
      ensures sarifGitHubRef == old(sarifGitHubRef) && currentView == old(currentView)
      ensures out.Ok? <==> pullsOf(BranchOfRef(sarifGitHubRef)).Ok?
      ensures out.Ok? ==> comboItems == Candidates(currentBranch, pullsOf(BranchOfRef(sarifGitHubRef)).value)
      ensures out.Ok? ==> !disableComboBoxEvent
      ensures out.Err? ==> out.failure == pullsOf(BranchOfRef(sarifGitHubRef)).failure
      ensures out.Err? ==> comboItems == [FirstCandidate(currentBranch)] && disableComboBoxEvent
    {
      var pulls := pullsOf(BranchOfRef(sarifGitHubRef));
      var first := FirstCandidate(currentBranch);
      disableComboBoxEvent := true;
      comboItems := [first];
      if pulls.Err? {
        return Err(pulls.failure);
      }
      if pulls.value.Some? {
        AddPullRequestItems(pulls.value.value);
      }
      assert comboItems == Candidates(currentBranch, pulls.value);
      disableComboBoxEvent := false;
      out := Ok(());
    }

    /** The `forEach` of `populateCombo`: one item added per pull request,
        in list order. */
    method AddPullRequestItems(prs: seq<PullRequest>)
      modifies this
      ensures comboItems == old(comboItems) + PrCandidates(prs)
      ensures sarifGitHubRef == old(sarifGitHubRef) && currentView == old(currentView)
      ensures disableComboBoxEvent == old(disableComboBoxEvent)
    {
      for i := 0 to |prs|
        invariant comboItems == old(comboItems) + PrCandidates(prs[..i])
        invariant sarifGitHubRef == old(sarifGitHubRef) && currentView == old(currentView)
        invariant disableComboBoxEvent == old(disableComboBoxEvent)
      {
        PrCandidatesStep(prs, i);
        comboItems := comboItems + [CandidateOf(prs[i])];
      }
      assert prs[..|prs|] == prs;
    }

    /** `extractSarif`: the ref's documents, diffed or merged. */
    method ExtractSarif(base: Option<string>, docsOf: string -> Outcome<seq<SarifLog>>) returns (out: Outcome<Grouping>)
      ensures out == ExtractSarifSpec(sarifGitHubRef, base, currentView, docsOf)
    {
      var sarifs := docsOf(sarifGitHubRef);
      if sarifs.Err? {
        return Err(sarifs.failure);
      }
      var docs := sarifs.value;
      var results := FirstRunResults(docs);
      if results.Err? {
        return Err(results.failure);
      }
      if docs == [] {
        return Ok(ByRule(map[]));
      }
      if IsPullRef(sarifGitHubRef) && base.Some? {
        var main := docsOf(base.value);
        if main.Err? {
          return Err(main.failure);
        }
        var mainResults := FirstRunResults(main.value);
        if mainResults.Err? {
          return Err(mainResults.failure);
        }
        var kept := DiffResults(results.value, mainResults.value);
        if kept.Err? {
          return Err(kept.failure);
        }
        var m := AnalyseResult(kept.value);
        if m.Err? {
          return Err(m.failure);
        }
        return Ok(ByRule(m.value));
      }
      var gs: seq<Grouping> := [];
      for i := 0 to |docs|
        invariant ClassifyAll(docs[..i], currentView) == Ok(gs)
      {
        assert docs[..i + 1][..i] == docs[..i];
        var g := AnalyseSarif(docs[i], currentView);
        if g.Err? {
          ClassifyEachErrExtends(docs, Classifier(currentView), i + 1);
          return Err(g.failure);
        }
        gs := gs + [g.value];
      }
      assert docs[..|docs|] == docs;
      ClassifyEachSpec(docs, Classifier(currentView));
      var merged := MergeGroupings(gs);
      out := Ok(merged);
    }
  }

  /** After a failed pull-request lookup the selector stays muted: a later
      selection does not change the ref. */
  method MutedAfterFailedLookup(currentBranch: Option<string>, item: BranchItemComboBox, f: Failure)
    returns (before: string, after: string)
    ensures before == after
  {
    var w := new ToolWindowState();
    w.InitRef(currentBranch, None);
    var failing := (b: string) => Err(f);
    var out := w.PopulateCombo(currentBranch, failing);
    before := w.sarifGitHubRef;
    w.OnComboChanged(true, Some(item), false);
    after := w.sarifGitHubRef;
  }
}
