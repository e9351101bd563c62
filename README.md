# SARIF viewer — a Dafny model of its core

This project models the core of the SARIF viewer, an IntelliJ plugin. The plugin fetches the code-scanning analyses of a GitHub branch or pull request as SARIF documents. It groups their results into leaves under one of three views and shows them as a tree with a details pane.

The model covers these parts, one module each:

- **Exceptions** (`exceptions.dfy`): the viewer's error values, with their codes and messages. A call that may throw becomes an `Outcome`: either `Ok(value)` or `Err(failure)`. A failure is `Raised(error)` for a `SarifViewerException`, or `RuntimeFailure` for any other exception.
- **Options**, **Numbers**, **Text**: the Kotlin and JVM behaviour the core relies on.
  - Options models nullable values and `?:`.
  - Numbers models `Integer.toString` and `Integer.valueOf`.
  - Text models `substringBefore`, `substringAfter`, `split(..).first()`, `split(.., limit).last()` and `String.replace`.
- **SarifSchema** (`sarif_schema.dfy`): the already-parsed subset of a SARIF 2.1.0 document that the viewer reads.
- **Leaves**, **Views**, **BranchItems**: the value records `Leaf`, `View` and `BranchItemComboBox`, with their `toString`.
- **Buckets** (`buckets.dfy`): the three ways a view fills its buckets.
  - The hash-map fill, with a reference definition of each bucket.
  - The `TreeMap<String>` fill in natural key order.
  - The re-sort by `Comparator.comparingInt`. In it, keys with equal integer value collapse into one entry: it keeps the first key and the last bucket.
- **SarifService** (`sarif_service.dfy`):
  - `leaf(result)`;
  - the three views of `analyseSarif` and their loops, plus `analyseResult`;
  - the choice of analyses to fetch;
  - the HTTP status handling;
  - the request URLs.
- **GitHubInstances** (`github_instances.dfy`):
  - the host of a git remote, through a model of `java.net.URI` for the shapes a remote takes;
  - its owner/repository name;
  - the `GitHubInstance` class with its mutable token;
  - `fromRemoteUrl`.
- **GitHubAuthentication** (`auth_service.dfy`): the token choice and the authentication probe. The dialog and the HTTP request are parameters.
- **ToolWindow** (`tool_window.dfy`): the tool window's decision logic.
  - The git ref that is queried.
  - The branch and pull-request candidates of the selector.
  - The pull-request diff against the base branch.
  - The merge of several documents' groupings.
  - Tree labels, their lookup, and the choice of the leaf shown.
  - The alert URL rewrite as written, and a segment-wise reading of the alert address (`AlertWebUrlFixed`) that gives the intended page; see "## Findings".
  - The window's fields, as a class whose handlers update them.

Methods model the code that loops or updates fields. Each method is proved equal to a specification function, and the lemmas state what those functions promise.

Where the specification of the plugin and its code disagree, the model follows the code:

- The rule view fails with INVALID_SARIF on a result without a location. `leaf(result)` reads `locations[0]` before the key is computed, so no view can group such a result.
- A failing pull-request lookup is not a soft failure. It propagates out of `populateCombo`, and `disableComboBoxEvent` stays true, so later selections are ignored (`MutedAfterFailedLookup`).
- In the alert-number view, keys with the same integer value collapse. The collapsed entry keeps the first key and the last bucket.
- When documents are merged, a shared key gets the bucket of the last document. In the alert view it keeps the first document's key.
- A tree node is looked up by the first word of its label. The "Missing alert number" bucket is still found, because "Missing" also sorts as the least integer.
- `extractSarif` reads `runs?.get(0)` before deciding whether to diff. A document with an empty run list therefore fails even when no diff is made.
- `leaf(result)` passes `result.ruleId` to a non-null parameter, so a result without a rule id throws.
- The pull-request selector item gets the pull request's base branch as its `head` and its head branch as its `base`. This item's `head` is the base the diff compares against.

## Model

| member | source | states |
|---|---|---|
| Exceptions.SarifViewerError.Code | src/main/kotlin/com/github/adrienpessu/sarifviewer/exception/SarifViewerException.kt:3-10 | every declared error carries a code between 1 and 6 |
| Exceptions.FromCode | src/main/kotlin/com/github/adrienpessu/sarifviewer/exception/SarifViewerException.kt:5-10 | for each code 1 to 6 the declared error with exactly that code |
| Exceptions.CodeRoundTrip | src/main/kotlin/com/github/adrienpessu/sarifviewer/exception/SarifViewerException.kt:5-10 | FromCode inverts Code, so the six codes identify the six declared errors |
| Exceptions.MessagesDistinct | src/main/kotlin/com/github/adrienpessu/sarifviewer/exception/SarifViewerException.kt:5-10 | two different declared errors never share a message |
| Views.ViewsDistinct | src/main/kotlin/com/github/adrienpessu/sarifviewer/models/View.kt:10-13 | RULE, LOCATION and ALERT_NUMBER have pairwise distinct keys, and `views` lists exactly them in that order |
| Views.DefaultIsNoView | src/main/kotlin/com/github/adrienpessu/sarifviewer/models/View.kt:3-6 | the default `View()` is none of the three views |
| Leaves.Leaf.Icon | src/main/kotlin/com/github/adrienpessu/sarifviewer/models/Leaf.kt:18-23 | the icon is empty exactly for levels other than error, warning and note, and is always one of the four icon texts |
| Leaves.Leaf.ToString | src/main/kotlin/com/github/adrienpessu/sarifviewer/models/Leaf.kt:16-26 | the node text is the icon, a space, then the address, in that layout |
| Leaves.IconsDistinct | src/main/kotlin/com/github/adrienpessu/sarifviewer/models/Leaf.kt:19-21 | the three level icons are pairwise different |
| Leaves.UnknownLevelText | src/main/kotlin/com/github/adrienpessu/sarifviewer/models/Leaf.kt:22-25 | a leaf of any other level shows as a space followed by its address |
| Leaves.ToStringDependsOnLevelAndAddress | src/main/kotlin/com/github/adrienpessu/sarifviewer/models/Leaf.kt:16-26 | two leaves with the same level and address show the same text |
| BranchItems.ToStringIgnoresBaseAndCommit | src/main/kotlin/com/github/adrienpessu/sarifviewer/models/BranchItemComboBox.kt:3-16 | `base` and `commit` never affect the selector text |
| BranchItems.DefaultItemText | src/main/kotlin/com/github/adrienpessu/sarifviewer/models/BranchItemComboBox.kt:3-16 | the item built from every constructor default shows as the empty text |
| BranchItems.BranchText | src/main/kotlin/com/github/adrienpessu/sarifviewer/models/BranchItemComboBox.kt:11-12 | an item with prNumber 0 shows its head |
| BranchItems.PullRequestText | src/main/kotlin/com/github/adrienpessu/sarifviewer/models/BranchItemComboBox.kt:13-14 | a pull-request item shows "pr", its number, then its title in parentheses; number and title read back from the text |
| Numbers.ToDecimal | src/main/kotlin/com/github/adrienpessu/sarifviewer/services/SarifService.kt:136 | the text of an integer is non-empty decimal digits, with a leading '-' only for a negative number |
| Numbers.ParseInt | src/main/kotlin/com/github/adrienpessu/sarifviewer/services/SarifService.kt:117-123 | Integer.valueOf succeeds only on text starting with a digit or sign and only with a 32-bit value |
| Numbers.ParseToDecimal | src/main/kotlin/com/github/adrienpessu/sarifviewer/services/SarifService.kt:117-123 | Integer.valueOf reads back Integer.toString for every 32-bit integer |
| Numbers.ParseRejectsText | src/main/kotlin/com/github/adrienpessu/sarifviewer/services/SarifService.kt:118-122 | text starting with neither a digit nor a sign is a NumberFormatException |
| Text.Before | src/main/kotlin/com/github/adrienpessu/sarifviewer/toolWindow/SarifViewerWindowFactory.kt:447 | `split(" ").first()`: a prefix without the separator, ending just before the first separator when there is one |
| Text.After | src/main/kotlin/com/github/adrienpessu/sarifviewer/toolWindow/SarifViewerWindowFactory.kt:713 | the text after the first separator, absent exactly when there is none; before, separator and after rebuild the string |
| Text.ReplaceAllAbsent | src/main/kotlin/com/github/adrienpessu/sarifviewer/toolWindow/SarifViewerWindowFactory.kt:455-459 | `replace` of a pattern that does not occur returns the string unchanged |
| Text.ReplaceAllConcat | src/main/kotlin/com/github/adrienpessu/sarifviewer/toolWindow/SarifViewerWindowFactory.kt:455-459 | `replace` works piece by piece across a boundary no occurrence straddles |
| Text.ReplaceAllSkip | src/main/kotlin/com/github/adrienpessu/sarifviewer/toolWindow/SarifViewerWindowFactory.kt:455-459 | `replace` copies through a prefix that lacks the pattern's first character |
| Text.ReplaceAllHit | src/main/kotlin/com/github/adrienpessu/sarifviewer/toolWindow/SarifViewerWindowFactory.kt:455-459 | an occurrence at the very start is replaced and the search resumes after it |
| Text.ReplaceAllJoin | src/main/kotlin/com/github/adrienpessu/sarifviewer/toolWindow/SarifViewerWindowFactory.kt:455-459 | `replace` over text made of pieces is the piecewise rewrite, when each piece is a whole occurrence, lacks the pattern's first character, ends in a character outside the pattern, or no later piece holds the pattern's key character |
| Buckets.Insert | src/main/kotlin/com/github/adrienpessu/sarifviewer/services/SarifService.kt:43-47 | one fill step adds the key, appends the leaf to that key's bucket only, and leaves every other bucket as it was |
| Buckets.GroupStep | src/main/kotlin/com/github/adrienpessu/sarifviewer/services/SarifService.kt:40-48 | filing one more leaf is one fill step on the map so far |
| Buckets.Group | src/main/kotlin/com/github/adrienpessu/sarifviewer/services/SarifService.kt:40-48 | the hash-map fill of keyed leaves; characterised by GroupSelects, SelectMembers and GroupFilesEach |
| Buckets.GroupSelects | src/main/kotlin/com/github/adrienpessu/sarifviewer/services/SarifService.kt:40-48 | the keys are exactly those with a filed leaf, and each bucket is the reference selection: its key's leaves in input order |
| Buckets.SelectMembers | src/main/kotlin/com/github/adrienpessu/sarifviewer/services/SarifService.kt:40-48 | a leaf is in a key's bucket exactly when some entry files it under that key |
| Buckets.GroupFilesEach | src/main/kotlin/com/github/adrienpessu/sarifviewer/services/SarifService.kt:40-48 | every filed leaf lands in the bucket of its own key |
| Buckets.SelectAppend | src/main/kotlin/com/github/adrienpessu/sarifviewer/services/SarifService.kt:40-48 | a bucket of a concatenated input is the two inputs' buckets concatenated |
| Buckets.LexIrreflexive | src/main/kotlin/com/github/adrienpessu/sarifviewer/services/SarifService.kt:97 | String's natural order is irreflexive |
| Buckets.LexTransitive | src/main/kotlin/com/github/adrienpessu/sarifviewer/services/SarifService.kt:97 | String's natural order is transitive |
| Buckets.LexTotal | src/main/kotlin/com/github/adrienpessu/sarifviewer/services/SarifService.kt:97 | any two different strings are ordered one way |
| Buckets.LexAsymmetric | src/main/kotlin/com/github/adrienpessu/sarifviewer/services/SarifService.kt:97 | String's natural order is asymmetric |
| Buckets.LexPutSpec | src/main/kotlin/com/github/adrienpessu/sarifviewer/services/SarifService.kt:107-111 | a TreeMap<String> fill step keeps the keys sorted, adds the key and appends the leaf to its bucket only |
| Buckets.LexGroupStep | src/main/kotlin/com/github/adrienpessu/sarifviewer/services/SarifService.kt:99-112 | filing one more leaf into the TreeMap is one fill step |
| Buckets.LexGroup | src/main/kotlin/com/github/adrienpessu/sarifviewer/services/SarifService.kt:97-113 | the `TreeMap<String>` fill; characterised by LexGroupListsGroup |
| Buckets.LexGroupListsGroup | src/main/kotlin/com/github/adrienpessu/sarifviewer/services/SarifService.kt:97-113 | the TreeMap fill holds the same buckets as the hash-map fill, in natural key order |
| Buckets.SortValue | src/main/kotlin/com/github/adrienpessu/sarifviewer/services/SarifService.kt:117-123 | the sort value of a key is a 32-bit integer |
| Buckets.AtRankPresent | src/main/kotlin/com/github/adrienpessu/sarifviewer/services/SarifService.kt:117-123 | a lookup under the integer comparator finds an entry exactly when the sort value is present, and that entry has the sort value |
| Buckets.RankPutSpec | src/main/kotlin/com/github/adrienpessu/sarifviewer/services/SarifService.kt:117-123 | put under the integer comparator keeps the order, adds the key's sort value, keeps the key already stored at that sort value and replaces its bucket |
| Buckets.FirstKeyWithRank | src/main/kotlin/com/github/adrienpessu/sarifviewer/services/SarifService.kt:117-123 | a first key exists exactly for the sort values present, and has that sort value |
| Buckets.LastBucketWithRank | src/main/kotlin/com/github/adrienpessu/sarifviewer/services/SarifService.kt:117-123 | a last bucket exists exactly for the sort values present |
| Buckets.PutAllByRankSorted | src/main/kotlin/com/github/adrienpessu/sarifviewer/services/SarifService.kt:117-123 | putAll under the integer comparator keeps the order and adds the sort values of what is put |
| Buckets.PutAllByRankAt | src/main/kotlin/com/github/adrienpessu/sarifviewer/services/SarifService.kt:117-123 | after putAll each sort value holds the first key seen and the last bucket put there |
| Buckets.PutAllByRankSpec | src/main/kotlin/com/github/adrienpessu/sarifviewer/services/SarifService.kt:117-123 | putAll under the integer comparator as a whole: ordered, the union of sort values, first key and last bucket at each |
| Buckets.SortByRank | src/main/kotlin/com/github/adrienpessu/sarifviewer/services/SarifService.kt:117-123 | `toSortedMap(Comparator.comparingInt(..))`; characterised by SortByRankSpec |
| Buckets.SortByRankSpec | src/main/kotlin/com/github/adrienpessu/sarifviewer/services/SarifService.kt:117-123 | `toSortedMap(comparingInt)` sorts ascending by sort value, one entry per sort value, holding the first key and the last bucket |
| Buckets.SortedRankUnique | src/main/kotlin/com/github/adrienpessu/sarifviewer/services/SarifService.kt:117-123 | in the sorted map each sort value has one entry, both its first key and its last bucket |
| Buckets.AtRankOfMember | src/main/kotlin/com/github/adrienpessu/sarifviewer/services/SarifService.kt:117-123 | in the sorted map the lookup of an entry's own key finds that entry |
| Buckets.MinRankFirst | src/main/kotlin/com/github/adrienpessu/sarifviewer/services/SarifService.kt:120-122 | a key that is not a number sorts before every numeric key |
| Buckets.KeysHaveRanks | src/main/kotlin/com/github/adrienpessu/sarifviewer/services/SarifService.kt:117-123 | every key's sort value is among the map's sort values |
| Buckets.FirstKeyIsLeast | src/main/kotlin/com/github/adrienpessu/sarifviewer/services/SarifService.kt:97-123 | the key kept for a sort value is the naturally least key with it |
| Buckets.DistinctRanksKeepEntries | src/main/kotlin/com/github/adrienpessu/sarifviewer/services/SarifService.kt:117-123 | when no two keys share a sort value the re-sort keeps every entry |
| Buckets.OnlyEntryWithRank | src/main/kotlin/com/github/adrienpessu/sarifviewer/services/SarifService.kt:117-123 | an entry whose sort value is unique is both the first key and the last bucket for it |
| Buckets.EqualRanksCollapse | src/main/kotlin/com/github/adrienpessu/sarifviewer/services/SarifService.kt:117-123 | "07" and "7" share the sort value 7: the re-sort keeps the key "07" with the bucket of "7" |
| SarifService.AddressReadsBack | src/main/kotlin/com/github/adrienpessu/sarifviewer/services/SarifService.kt:136 | an address starts with the URI and a ':', and the text after its last ':' reads back as the start line, or fails for "null" |
| SarifService.StepAddresses | src/main/kotlin/com/github/adrienpessu/sarifviewer/services/SarifService.kt:137 | one address per thread-flow step, in step order |
| SarifService.Steps | src/main/kotlin/com/github/adrienpessu/sarifviewer/services/SarifService.kt:137-138 | the thread-flow addresses of a result; characterised by StepsSpec and StepAddresses |
| SarifService.StepsSpec | src/main/kotlin/com/github/adrienpessu/sarifviewer/services/SarifService.kt:137-138 | the steps fail exactly on an empty code-flow or thread-flow list; otherwise they are the first thread flow's addresses, or empty |
| SarifService.BuildLeaf | src/main/kotlin/com/github/adrienpessu/sarifviewer/services/SarifService.kt:132-149 | `leaf` throws exactly when the result has no location, no rule id, or its steps fail |
| SarifService.LeafOf | src/main/kotlin/com/github/adrienpessu/sarifviewer/services/SarifService.kt:134-147 | the `Leaf` that `leaf(result)` builds; characterised by LeafFields, LeafIconFollowsLevel and LeafWithoutAlertProperties |
| SarifService.LeafFields | src/main/kotlin/com/github/adrienpessu/sarifviewer/services/SarifService.kt:134-147 | where each of the eleven leaf fields comes from in the result |
| SarifService.LeafIconFollowsLevel | src/main/kotlin/com/github/adrienpessu/sarifviewer/services/SarifService.kt:143 | a leaf has no icon exactly when its result has no level or level none |
| SarifService.LeafWithoutAlertProperties | src/main/kotlin/com/github/adrienpessu/sarifviewer/services/SarifService.kt:145-146 | without the two GitHub properties the alert number and URL are empty |
| SarifService.RuleKey | src/main/kotlin/com/github/adrienpessu/sarifviewer/services/SarifService.kt:42 | the rule-view key; characterised by RuleKeyPrecedence |
| SarifService.RuleKeyPrecedence | src/main/kotlin/com/github/adrienpessu/sarifviewer/services/SarifService.kt:42 | the rule id wins over the correlation GUID, which wins over the message; the key is null only when all three are |
| SarifService.AlertKey | src/main/kotlin/com/github/adrienpessu/sarifviewer/services/SarifService.kt:102-106 | the alert-number key is the alert number when there is one, and exactly "Missing alert number" when it is empty; never empty |
| SarifService.MissingAlertNumberSortsFirst | src/main/kotlin/com/github/adrienpessu/sarifviewer/services/SarifService.kt:117-123 | "Missing alert number" has the least sort value |
| SarifService.AllResultsContains | src/main/kotlin/com/github/adrienpessu/sarifviewer/services/SarifService.kt:59-60 | every result of every run is visited |
| SarifService.FiledSpec | src/main/kotlin/com/github/adrienpessu/sarifviewer/services/SarifService.kt:40-48 | filing fails exactly when `leaf` throws on some result; otherwise one entry per result, in order, with its key and leaf |
| SarifService.FiledFails | src/main/kotlin/com/github/adrienpessu/sarifviewer/services/SarifService.kt:58-72 | one result whose `leaf` throws fails the whole fill |
| SarifService.AnalyseResult | src/main/kotlin/com/github/adrienpessu/sarifviewer/services/SarifService.kt:38-51 | the loop computes the rule-view grouping of the results, letting an exception through unwrapped |
| SarifService.FillHashMap | src/main/kotlin/com/github/adrienpessu/sarifviewer/services/SarifService.kt:57-69 | the loop fails exactly when some result's `leaf` throws; otherwise it yields the grouping of the filed results |
| SarifService.FillAlertTree | src/main/kotlin/com/github/adrienpessu/sarifviewer/services/SarifService.kt:97-113 | the loop fails exactly when some result's `leaf` throws; otherwise it yields the TreeMap<String> fill |
| SarifService.AnalyseSarif | src/main/kotlin/com/github/adrienpessu/sarifviewer/services/SarifService.kt:53-130 | the method computes the view's grouping or error |
| SarifService.Classify | src/main/kotlin/com/github/adrienpessu/sarifviewer/services/SarifService.kt:53-130 | `analyseSarif` on a document and a view; characterised by ClassifyErrors, RuleViewBuckets, LocationViewBuckets and AlertViewOrder |
| SarifService.ClassifyErrors | src/main/kotlin/com/github/adrienpessu/sarifviewer/services/SarifService.kt:53-130 | INVALID_VIEW exactly for a view other than the three; otherwise failure is INVALID_SARIF, exactly when runs is null or some result's `leaf` throws |
| SarifService.LocationlessFailsEveryView | src/main/kotlin/com/github/adrienpessu/sarifviewer/services/SarifService.kt:53-116 | one result without a location makes every view raise INVALID_SARIF |
| SarifService.RuleViewBuckets | src/main/kotlin/com/github/adrienpessu/sarifviewer/services/SarifService.kt:56-74 | the rule view is the grouping of all results by rule key, one entry per result |
| SarifService.LocationViewBuckets | src/main/kotlin/com/github/adrienpessu/sarifviewer/services/SarifService.kt:76-94 | the location view is the grouping of all results by the URI of their first location |
| SarifService.RuleViewIsAnalyseResult | src/main/kotlin/com/github/adrienpessu/sarifviewer/services/SarifService.kt:38-74 | `analyseResult` and the rule view agree, except that only the rule view wraps the failure as INVALID_SARIF |
| SarifService.AlertViewOrder | src/main/kotlin/com/github/adrienpessu/sarifviewer/services/SarifService.kt:96-124 | the alert view holds the TreeMap buckets re-sorted by integer value, with first key and last bucket per value, and "Missing alert number" first |
| SarifService.IdsOnCommit | src/main/kotlin/com/github/adrienpessu/sarifviewer/services/SarifService.kt:29 | an id is kept exactly when some analysis on that commit has it |
| SarifService.IdsOnCommitConcat | src/main/kotlin/com/github/adrienpessu/sarifviewer/services/SarifService.kt:29 | the filter keeps list order |
| SarifService.SelectAnalysisIds | src/main/kotlin/com/github/adrienpessu/sarifviewer/services/SarifService.kt:29 | the analyses to fetch; characterised by SelectAnalysisIdsSpec |
| SarifService.SelectAnalysisIdsSpec | src/main/kotlin/com/github/adrienpessu/sarifviewer/services/SarifService.kt:29 | the first analysis is always fetched first; the rest exactly when on its commit; no analyses give no ids |
| SarifService.StatusError | src/main/kotlin/com/github/adrienpessu/sarifviewer/services/SarifService.kt:203-221 | an error is raised exactly for statuses 401, 403, 404 and 422 |
| SarifService.StatusErrorRoundTrip | src/main/kotlin/com/github/adrienpessu/sarifviewer/services/SarifService.kt:203-221 | the status and the raised error determine each other |
| SarifService.Receive | src/main/kotlin/com/github/adrienpessu/sarifviewer/services/SarifService.kt:194-200 | the body is read exactly for statuses below 400; a named status raises its error, any other failing status an I/O failure |
| SarifService.AnalysesUrlTargetsRepository | src/main/kotlin/com/github/adrienpessu/sarifviewer/services/SarifService.kt:180 | the analyses request goes under the repository and ends with the branch as `ref` |
| SarifService.AnalysisUrlTargetsRepository | src/main/kotlin/com/github/adrienpessu/sarifviewer/services/SarifService.kt:224 | each analysis request goes under the repository and ends with the analysis id |
| SarifService.PullsUrlTargetsRepository | src/main/kotlin/com/github/adrienpessu/sarifviewer/services/SarifService.kt:152-153 | the pull-request query goes under the repository and names the owner and the branch as head |
| SarifService.GetSarifFromGitHub | src/main/kotlin/com/github/adrienpessu/sarifviewer/services/SarifService.kt:24-36 | list the analyses, then fetch each selected one; characterised by FetchEachSpec and NoAnalysesNoDocuments |
| SarifService.FetchEachSpec | src/main/kotlin/com/github/adrienpessu/sarifviewer/services/SarifService.kt:31-35 | on success the i-th document is the answer for the i-th id; a failure is the failure of some id |
| SarifService.NoAnalysesNoDocuments | src/main/kotlin/com/github/adrienpessu/sarifviewer/services/SarifService.kt:24-36 | a branch without analyses yields no documents and no error |
| GitHubInstances.ParseSimpleUrl | src/main/kotlin/com/github/adrienpessu/sarifviewer/utils/GitHubInstance.kt:28 | `URI` of "<scheme>://<host>/<path>" has that host and path |
| GitHubInstances.HttpsRemote | src/main/kotlin/com/github/adrienpessu/sarifviewer/utils/GitHubInstance.kt:27-28 | the hostname of "https://<host>/<path>" is <host> |
| GitHubInstances.ExtractHostname | src/main/kotlin/com/github/adrienpessu/sarifviewer/utils/GitHubInstance.kt:26-34 | `extractHostname`: the URI host of an "https" remote, the text between "git@" and the first ':' of an scp-style one, null otherwise; characterised by HttpsRemote, HostnameOfHttps and HostnameOfScpRemote |
| GitHubInstances.HostnameOfHttps | src/main/kotlin/com/github/adrienpessu/sarifviewer/utils/GitHubInstance.kt:27-28 | the hostname of an "https" remote is its URI host |
| GitHubInstances.RemotePath | src/main/kotlin/com/github/adrienpessu/sarifviewer/utils/GitHubInstance.kt:14-18 | the owner/repository text of a remote before the suffix rule: the "https" path without its leading '/' (throwing without a path), the text after "git@<hostname>:", or null |
| GitHubInstances.RepoNwo | src/main/kotlin/com/github/adrienpessu/sarifviewer/utils/GitHubInstance.kt:13-20 | `extractRepoNwo` as written, with the unescaped `.git$` rule; characterised by RepoNwoOfHttps, RepoNwoOfScpPath, RepoNwoOtherScheme and RepoNwoCutsGitEnding |
| GitHubInstances.RepoNwoFixed | src/main/kotlin/com/github/adrienpessu/sarifviewer/utils/GitHubInstance.kt:13-20 | `extractRepoNwo` with only a literal ".git" removed; characterised by RepoNwoFixedKeepsName |
| GitHubInstances.RepoNwoOfHttps | src/main/kotlin/com/github/adrienpessu/sarifviewer/utils/GitHubInstance.kt:14-15 | the repository of an "https" remote is its URI path without the leading '/', cut by the `.git$` rule as written (and by the literal ".git" rule in RepoNwoFixed); a URI without a path throws |
| GitHubInstances.RepoNwoOfScpPath | src/main/kotlin/com/github/adrienpessu/sarifviewer/utils/GitHubInstance.kt:16-17 | the repository of "git@<host>:<path>" for the instance of <host> is <path>, cut by the rule as written (and by the literal ".git" rule in RepoNwoFixed) |
| GitHubInstances.RepoNwoCutsGitEnding | src/main/kotlin/com/github/adrienpessu/sarifviewer/utils/GitHubInstance.kt:17 | as written, an scp-style remote whose name ends in a character other than '.' or a line terminator, followed by "git", loses those four characters; RepoNwoFixed keeps the name |
| GitHubInstances.RepoNwoCutsGitEndingHttps | src/main/kotlin/com/github/adrienpessu/sarifviewer/utils/GitHubInstance.kt:15 | the same cut for an "https" remote |
| GitHubInstances.RepoNwoOfLegit | src/main/kotlin/com/github/adrienpessu/sarifviewer/utils/GitHubInstance.kt:17 | "git@github.com:octo/legit" names "octo/l" as written and "octo/legit" as intended |
| GitHubInstances.RepoNwoFixedKeepsName | src/main/kotlin/com/github/adrienpessu/sarifviewer/utils/GitHubInstance.kt:13-20 | with the intended rule, "git@<host>:<nwo>" and "git@<host>:<nwo>.git" both name <nwo> for every <nwo> not itself ending in ".git" |
| GitHubInstances.HostnameOfScpRemote | src/main/kotlin/com/github/adrienpessu/sarifviewer/utils/GitHubInstance.kt:29-30 | the hostname of "git@<host>:<path>" is <host> |
| GitHubInstances.StripGitSuffixAsWritten | src/main/kotlin/com/github/adrienpessu/sarifviewer/utils/GitHubInstance.kt:15 | the regex as written removes the one match of a character other than a line terminator followed by "git", at the end or just before a final line terminator (which is kept); without a match the text is unchanged |
| GitHubInstances.CutGitEnding | src/main/kotlin/com/github/adrienpessu/sarifviewer/utils/GitHubInstance.kt:15 | a name ending in a character other than '.' or a line terminator, then "git", loses those four characters as written and is kept by the intended rule |
| GitHubInstances.TerminatorBeforeGitIsKept | src/main/kotlin/com/github/adrienpessu/sarifviewer/utils/GitHubInstance.kt:15 | the dot never takes a line terminator, so "git" after one stays |
| GitHubInstances.GitSuffixBeforeFinalTerminator | src/main/kotlin/com/github/adrienpessu/sarifviewer/utils/GitHubInstance.kt:15 | `$` also matches before a final line terminator ("\r\n" counting as one), so ".git" there is removed and the terminator kept |
| GitHubInstances.HostDotMatchesNonTerminator | src/main/kotlin/com/github/adrienpessu/sarifviewer/utils/GitHubInstance.kt:17 | a dot of the hostname in `^git@$hostname:` takes any character of the remote but a line terminator; the remote is otherwise left whole |
| GitHubInstances.StripGitSuffix | src/main/kotlin/com/github/adrienpessu/sarifviewer/utils/GitHubInstance.kt:15 | a trailing ".git" is removed; any other name is unchanged |
| GitHubInstances.StripGitSuffixInverse | src/main/kotlin/com/github/adrienpessu/sarifviewer/utils/GitHubInstance.kt:15 | stripping undoes appending ".git" |
| GitHubInstances.SuffixRulesAgreeOnDotGit | src/main/kotlin/com/github/adrienpessu/sarifviewer/utils/GitHubInstance.kt:15 | the rule as written and the intended one agree on names ending in ".git" |
| GitHubInstances.UnescapedDotCutsName | src/main/kotlin/com/github/adrienpessu/sarifviewer/utils/GitHubInstance.kt:15 | the rule as written turns "octo/legit" into "octo/l"; the intended one keeps it |
| GitHubInstances.RepoNwoOfHttpsRemote | src/test/kotlin/com/github/adrienpessu/sarifviewer/util/GithubInstanceTest.kt:40-44 | "https://<host>/<nwo>.git" names <nwo>, under the rule as written and the intended one alike |
| GitHubInstances.RepoNwoOfScpRemote | src/test/kotlin/com/github/adrienpessu/sarifviewer/util/GithubInstanceTest.kt:34-38 | "git@<host>:<nwo>.git" names <nwo> for the instance of <host>, under the rule as written and the intended one alike |
| GitHubInstances.RepoNwoOtherScheme | src/main/kotlin/com/github/adrienpessu/sarifviewer/utils/GitHubInstance.kt:13-20 | a remote of any other scheme has no repository name |
| GitHubInstances.GitHubInstance.ExtractRepoNwo | src/main/kotlin/com/github/adrienpessu/sarifviewer/utils/GitHubInstance.kt:13-20 | `extractRepoNwo` of an instance: RepoNwo, as written, for the instance's hostname |
| GitHubInstances.GitHubInstance.constructor | src/main/kotlin/com/github/adrienpessu/sarifviewer/utils/GitHubInstance.kt:6-8 | a new instance has the default API base "https://<host>/api/v3" and an empty token |
| GitHubInstances.GitHubInstance.WithApiBase | src/main/kotlin/com/github/adrienpessu/sarifviewer/utils/GitHubInstance.kt:6-8 | an instance with an explicit API base and an empty token |
| GitHubInstances.GitHubInstance.SetToken | src/main/kotlin/com/github/adrienpessu/sarifviewer/utils/GitHubInstance.kt:8 | the token is replaced |
| GitHubInstances.NewDotCom | src/main/kotlin/com/github/adrienpessu/sarifviewer/utils/GitHubInstance.kt:23 | the github.com instance uses "https://api.github.com" and the built-in login |
| GitHubInstances.BuiltInAuthOnlyForDotCom | src/main/kotlin/com/github/adrienpessu/sarifviewer/utils/GitHubInstance.kt:6-11 | a self-hosted default API base is under its own host and never the github.com one |
| GitHubInstances.DefaultBaseEquality | src/main/kotlin/com/github/adrienpessu/sarifviewer/utils/GitHubInstance.kt:6-8 | data-class equality ignores the token: two instances with the default API base are equal exactly when their hostnames are, and none equals the github.com instance, even one for "github.com" |
| GitHubInstances.FromRemoteUrl | src/main/kotlin/com/github/adrienpessu/sarifviewer/utils/GitHubInstance.kt:36-44 | the shared github.com instance for a github.com remote, a fresh self-hosted instance for another host, null without a host |
| GitHubAuthentication.NoDotComToken | src/main/kotlin/com/github/adrienpessu/sarifviewer/services/GitHubAuthenticationService.kt:30-66 | neither the credential helper nor the dialog ever yields a github.com token |
| GitHubAuthentication.GetAuthenticatedToken | src/main/kotlin/com/github/adrienpessu/sarifviewer/services/GitHubAuthenticationService.kt:14-28 | a self-hosted instance gets its token exactly when it is non-empty; a token is never empty |
| GitHubAuthentication.DotComHasNoToken | src/main/kotlin/com/github/adrienpessu/sarifviewer/services/GitHubAuthenticationService.kt:14-44 | github.com never gets a token |
| GitHubAuthentication.DotComNeverAuthenticated | src/main/kotlin/com/github/adrienpessu/sarifviewer/services/GitHubAuthenticationService.kt:68-71 | github.com never counts as authenticated |
| GitHubAuthentication.UserUrl | src/main/kotlin/com/github/adrienpessu/sarifviewer/services/GitHubAuthenticationService.kt:80 | the probe goes to "<apiBase>/user" |
| GitHubAuthentication.TestAuthentication | src/main/kotlin/com/github/adrienpessu/sarifviewer/services/GitHubAuthenticationService.kt:73-94 | success needs a token and a 200 answer to the probe |
| GitHubAuthentication.TestAuthenticationWithToken | src/main/kotlin/com/github/adrienpessu/sarifviewer/services/GitHubAuthenticationService.kt:79-93 | with a token, success exactly on a 200 answer; an I/O failure fails |
| GitHubAuthentication.NoTokenNoRequest | src/main/kotlin/com/github/adrienpessu/sarifviewer/services/GitHubAuthenticationService.kt:74-77 | without a token the probe is never consulted and the test fails |
| GitHubAuthentication.TokenScenarios | src/test/kotlin/com/github/adrienpessu/sarifviewer/services/GitHubAuthenticationServiceTest.kt:16-40 | the configured token is returned, a missing one is null, and only github.com uses the built-in login |
| ToolWindow.RefFor | src/main/kotlin/com/github/adrienpessu/sarifviewer/toolWindow/SarifViewerWindowFactory.kt:339-343 | the git ref of a selector item; characterised by RefForSpec |
| ToolWindow.RefForSpec | src/main/kotlin/com/github/adrienpessu/sarifviewer/toolWindow/SarifViewerWindowFactory.kt:339-343 | a pull-request item selects a pull merge ref whose number reads back; a branch item selects a heads ref |
| ToolWindow.BranchOfRef | src/main/kotlin/com/github/adrienpessu/sarifviewer/toolWindow/SarifViewerWindowFactory.kt:713 | `split('/', limit = 3).last()` is a suffix of the ref |
| ToolWindow.BranchAfterTwoSegments | src/main/kotlin/com/github/adrienpessu/sarifviewer/toolWindow/SarifViewerWindowFactory.kt:713 | the first two segments and their slashes are dropped |
| ToolWindow.BranchOfHeadsRef | src/main/kotlin/com/github/adrienpessu/sarifviewer/toolWindow/SarifViewerWindowFactory.kt:713 | the branch of "refs/heads/<b>" is <b>, slashes included |
| ToolWindow.BranchOfInitialRef | src/main/kotlin/com/github/adrienpessu/sarifviewer/toolWindow/SarifViewerWindowFactory.kt:190-192 | the branch looked up on the first load is the current branch, or "refs/heads/main" |
| ToolWindow.InitialRefWithoutBranch | src/main/kotlin/com/github/adrienpessu/sarifviewer/toolWindow/SarifViewerWindowFactory.kt:191 | without a current branch the ref is "refs/heads/refs/heads/main" |
| ToolWindow.PrCandidatesSpec | src/main/kotlin/com/github/adrienpessu/sarifviewer/toolWindow/SarifViewerWindowFactory.kt:715-726 | one item per pull request, in list order |
| ToolWindow.Candidates | src/main/kotlin/com/github/adrienpessu/sarifviewer/toolWindow/SarifViewerWindowFactory.kt:709-727 | the selector items: the current branch, then one item per pull request; characterised by CandidatesSpec |
| ToolWindow.CandidatesSpec | src/main/kotlin/com/github/adrienpessu/sarifviewer/toolWindow/SarifViewerWindowFactory.kt:709-727 | the current branch (or "main") comes first as a branch item, then one item per pull request with its number, swapped refs, title and head commit |
| ToolWindow.SelectionDiffsAgainstBase | src/main/kotlin/com/github/adrienpessu/sarifviewer/toolWindow/SarifViewerWindowFactory.kt:717-724 | a pull-request item selects a pull ref and carries the pull request's base branch; the branch item selects a heads ref |
| ToolWindow.LabelRoundTrip | src/main/kotlin/com/github/adrienpessu/sarifviewer/toolWindow/SarifViewerWindowFactory.kt:425 | a node label gives its key back exactly when the key has no space |
| ToolWindow.LookupFirstWord | src/main/kotlin/com/github/adrienpessu/sarifviewer/toolWindow/SarifViewerWindowFactory.kt:447 | a label is looked up by the first word of its key |
| ToolWindow.FirstWithAddressSpec | src/main/kotlin/com/github/adrienpessu/sarifviewer/toolWindow/SarifViewerWindowFactory.kt:449-450 | `first { address == .. }` finds a leaf exactly when one has the address, and it is the first such |
| ToolWindow.SelectLeaf | src/main/kotlin/com/github/adrienpessu/sarifviewer/toolWindow/SarifViewerWindowFactory.kt:448-452 | the leaf with the selected address, or the first leaf; characterised by SelectLeafSpec |
| ToolWindow.SelectLeafSpec | src/main/kotlin/com/github/adrienpessu/sarifviewer/toolWindow/SarifViewerWindowFactory.kt:447-453 | the shown leaf is in the bucket; it has the selected address exactly when some leaf has it, then the first such, otherwise the first leaf |
| ToolWindow.ShowsDetailsSelects | src/main/kotlin/com/github/adrienpessu/sarifviewer/toolWindow/SarifViewerWindowFactory.kt:447-453 | when the `!leaves.isNullOrEmpty()` guard passes, the leaf shown is one of the bucket found for the node |
| ToolWindow.GroupedRuleShowsDetails | src/main/kotlin/com/github/adrienpessu/sarifviewer/toolWindow/SarifViewerWindowFactory.kt:446-448 | in the rule view, every bucket the fill made is non-empty, so a node whose key has no space passes the guard |
| ToolWindow.LookupBucket | src/main/kotlin/com/github/adrienpessu/sarifviewer/toolWindow/SarifViewerWindowFactory.kt:446-447 | the bucket looked up by the first word of a node's label; characterised by HashLookup, RuleLookup, AlertLookup and MissingAlertLookup |
| ToolWindow.HashLookup | src/main/kotlin/com/github/adrienpessu/sarifviewer/toolWindow/SarifViewerWindowFactory.kt:447 | in the hash-map views a key without a space is found; a key with a space is looked up by another key |
| ToolWindow.RuleLookup | src/main/kotlin/com/github/adrienpessu/sarifviewer/toolWindow/SarifViewerWindowFactory.kt:447 | the rule view finds every bucket whose key has no space |
| ToolWindow.AlertLookup | src/main/kotlin/com/github/adrienpessu/sarifviewer/toolWindow/SarifViewerWindowFactory.kt:447 | the alert view finds every entry whose key has no space |
| ToolWindow.MissingAlertLookup | src/main/kotlin/com/github/adrienpessu/sarifviewer/toolWindow/SarifViewerWindowFactory.kt:447 | "Missing alert number" is looked up as "Missing" and found through the integer comparator |
| ToolWindow.AlertWebUrl | src/main/kotlin/com/github/adrienpessu/sarifviewer/toolWindow/SarifViewerWindowFactory.kt:455-459 | the four `replace` calls in source order; characterised by AlertWebUrlKeepsPlainUrl and AlertWebUrlDropsReposEnding |
| ToolWindow.AlertWebUrlKeepsPlainUrl | src/main/kotlin/com/github/adrienpessu/sarifviewer/toolWindow/SarifViewerWindowFactory.kt:455-459 | a URL without any of the four patterns is shown unchanged |
| ToolWindow.WebBaseOfApiHost | src/main/kotlin/com/github/adrienpessu/sarifviewer/utils/GitHubInstance.kt:23 | github.com's API base "https://api.<host>" maps back to its web address "https://<host>" |
| ToolWindow.WebBaseOfDefaultApiBase | src/main/kotlin/com/github/adrienpessu/sarifviewer/utils/GitHubInstance.kt:6 | a self-hosted instance's default API base "https://<host>/api/v3" maps back to "https://<host>" |
| ToolWindow.AlertWebUrlFixed | src/main/kotlin/com/github/adrienpessu/sarifviewer/toolWindow/SarifViewerWindowFactory.kt:455-459 | the alert page read off the API address segment by segment; characterised by AlertWebUrlFixedRoundTrip |
| ToolWindow.AlertWebUrlFixedRoundTrip | src/main/kotlin/com/github/adrienpessu/sarifviewer/toolWindow/SarifViewerWindowFactory.kt:455-459 | read off segment by segment, every alert's API address "<base>/repos/<owner>/<repo>/code-scanning/alerts/<n>" leads to "<web base>/<owner>/<repo>/security/code-scanning/<n>", whatever the names |
| ToolWindow.ReposEndingStepApiHost | src/main/kotlin/com/github/adrienpessu/sarifviewer/toolWindow/SarifViewerWindowFactory.kt:456 | on an address for a repository named "<name>repos", removing "api." touches only the host |
| ToolWindow.ReposEndingStepApiPath | src/main/kotlin/com/github/adrienpessu/sarifviewer/toolWindow/SarifViewerWindowFactory.kt:457 | on that address there is no "api/v3/" to remove |
| ToolWindow.ReposEndingStepRepos | src/main/kotlin/com/github/adrienpessu/sarifviewer/toolWindow/SarifViewerWindowFactory.kt:458 | removing "repos/" removes both the "repos/" segment and the name's "repos" ending with its slash |
| ToolWindow.ReposEndingStepAlerts | src/main/kotlin/com/github/adrienpessu/sarifviewer/toolWindow/SarifViewerWindowFactory.kt:459 | the one "code-scanning/alerts" becomes "security/code-scanning" |
| ToolWindow.ReposEndingRewrite | src/main/kotlin/com/github/adrienpessu/sarifviewer/toolWindow/SarifViewerWindowFactory.kt:455-459 | the four replacements in order, composed |
| ToolWindow.AlertWebUrlDropsReposEnding | src/main/kotlin/com/github/adrienpessu/sarifviewer/toolWindow/SarifViewerWindowFactory.kt:455-459 | as written, the page address for repository "<name>repos" is ".../<owner>/<name>security/code-scanning/<n>" |
| ToolWindow.AlertWebUrlFixedKeepsReposEnding | src/main/kotlin/com/github/adrienpessu/sarifviewer/toolWindow/SarifViewerWindowFactory.kt:455-459 | the segment-wise reading keeps "<name>repos" whole, so the two disagree on every such address |
| ToolWindow.AlertWebUrlOfMyrepos | src/main/kotlin/com/github/adrienpessu/sarifviewer/toolWindow/SarifViewerWindowFactory.kt:455-459 | hubot's "myrepos" alert 1 on github.com: as written ".../hubot/mysecurity/code-scanning/1", segment-wise ".../hubot/myrepos/security/code-scanning/1" |
| ToolWindow.HasMatch | src/main/kotlin/com/github/adrienpessu/sarifviewer/toolWindow/SarifViewerWindowFactory.kt:672-675 | the `none { }` search of the base results; characterised by HasMatchSpec |
| ToolWindow.HasMatchSpec | src/main/kotlin/com/github/adrienpessu/sarifviewer/toolWindow/SarifViewerWindowFactory.kt:672-675 | the base search answers whether a match exists; it fails only on a result without a location |
| ToolWindow.NewResults | src/main/kotlin/com/github/adrienpessu/sarifviewer/toolWindow/SarifViewerWindowFactory.kt:667-678 | the head results without a base match, or the first failure; characterised by NewResultsSpec, UnmatchedMembers and NewResultsErrExtends |
| ToolWindow.NewResultsSpec | src/main/kotlin/com/github/adrienpessu/sarifviewer/toolWindow/SarifViewerWindowFactory.kt:667-678 | the diff keeps exactly the unmatched head results in head order, succeeds when all are located, and fails only at runtime |
| ToolWindow.UnmatchedMembers | src/main/kotlin/com/github/adrienpessu/sarifviewer/toolWindow/SarifViewerWindowFactory.kt:671-678 | a head result is kept exactly when the base has no match for it |
| ToolWindow.MatchIgnoresMessage | src/main/kotlin/com/github/adrienpessu/sarifviewer/toolWindow/SarifViewerWindowFactory.kt:673-674 | the message text never decides whether a result is shown |
| ToolWindow.NewResultsErrExtends | src/main/kotlin/com/github/adrienpessu/sarifviewer/toolWindow/SarifViewerWindowFactory.kt:671-678 | a failure on a prefix of the head results is the failure of the whole diff |
| ToolWindow.DiffResults | src/main/kotlin/com/github/adrienpessu/sarifviewer/toolWindow/SarifViewerWindowFactory.kt:667-678 | the loop computes the diff |
| ToolWindow.FirstRunResultsSpec | src/main/kotlin/com/github/adrienpessu/sarifviewer/toolWindow/SarifViewerWindowFactory.kt:664 | reading the first run fails exactly when some document has an empty run list |
| ToolWindow.ClassifyEachSpec | src/main/kotlin/com/github/adrienpessu/sarifviewer/toolWindow/SarifViewerWindowFactory.kt:681 | on success one grouping per document, in order; a failure exactly when some document fails |
| ToolWindow.ClassifyEachErrExtends | src/main/kotlin/com/github/adrienpessu/sarifviewer/toolWindow/SarifViewerWindowFactory.kt:681 | a failure on a prefix of the documents is the failure of the whole list |
| ToolWindow.Merged | src/main/kotlin/com/github/adrienpessu/sarifviewer/toolWindow/SarifViewerWindowFactory.kt:681-682 | the `reduce { putAll }` of the documents' groupings; characterised by MergedRuleViews, MergedLocationViews, MergedAlertRanks, MergedAlertBucket and MergedAlertKey |
| ToolWindow.MergedRuleViews | src/main/kotlin/com/github/adrienpessu/sarifviewer/toolWindow/SarifViewerWindowFactory.kt:681-682 | merged rule views have every document's keys, each with the bucket of the last document having it |
| ToolWindow.MergedLocationViews | src/main/kotlin/com/github/adrienpessu/sarifviewer/toolWindow/SarifViewerWindowFactory.kt:681-682 | merged location views have every document's keys, each with the bucket of the last document having it |
| ToolWindow.PutAllSortedAt | src/main/kotlin/com/github/adrienpessu/sarifviewer/toolWindow/SarifViewerWindowFactory.kt:682 | putting one sorted alert view into another: new sort values bring their entry, shared ones keep the old key with the new bucket |
| ToolWindow.MergedAlertSorted | src/main/kotlin/com/github/adrienpessu/sarifviewer/toolWindow/SarifViewerWindowFactory.kt:681-682 | merged alert views stay sorted by integer value and hold every document's sort values |
| ToolWindow.MergedAlertRanks | src/main/kotlin/com/github/adrienpessu/sarifviewer/toolWindow/SarifViewerWindowFactory.kt:681-682 | a sort value is in the merge exactly when some document has it |
| ToolWindow.MergedAlertBucket | src/main/kotlin/com/github/adrienpessu/sarifviewer/toolWindow/SarifViewerWindowFactory.kt:681-682 | at each sort value the merged bucket is the last document's |
| ToolWindow.MergedAlertKey | src/main/kotlin/com/github/adrienpessu/sarifviewer/toolWindow/SarifViewerWindowFactory.kt:681-682 | at each sort value the merged key is the first document's |
| ToolWindow.MergeGroupings | src/main/kotlin/com/github/adrienpessu/sarifviewer/toolWindow/SarifViewerWindowFactory.kt:681-682 | the reduce loop computes the merge |
| ToolWindow.NoDocumentsNoBuckets | src/main/kotlin/com/github/adrienpessu/sarifviewer/toolWindow/SarifViewerWindowFactory.kt:662-686 | no documents for the ref give an empty map, whatever the view |
| ToolWindow.ExtractSarifSpec | src/main/kotlin/com/github/adrienpessu/sarifviewer/toolWindow/SarifViewerWindowFactory.kt:657-687 | `extractSarif`: fetch, optional pull-request diff, classify each document, merge; characterised by DiffOnlyForPullRefs and DiffShowsUnmatched |
| ToolWindow.DiffOnlyForPullRefs | src/main/kotlin/com/github/adrienpessu/sarifviewer/toolWindow/SarifViewerWindowFactory.kt:665-683 | only a pull ref with a base is diffed, and the diff is grouped by rule whatever the view |
| ToolWindow.DiffShowsUnmatched | src/main/kotlin/com/github/adrienpessu/sarifviewer/toolWindow/SarifViewerWindowFactory.kt:666-679 | a successful diff shows exactly the unmatched head results grouped by rule |
| ToolWindow.ToolWindowState.constructor | src/main/kotlin/com/github/adrienpessu/sarifviewer/toolWindow/SarifViewerWindowFactory.kt:107-117 | an empty ref, the rule view, an active selector holding one "main" item |
| ToolWindow.ToolWindowState.InitRef | src/main/kotlin/com/github/adrienpessu/sarifviewer/toolWindow/SarifViewerWindowFactory.kt:190-192 | a load without a selected item sets the ref from the current branch; nothing else changes |
| ToolWindow.ToolWindowState.OnComboChanged | src/main/kotlin/com/github/adrienpessu/sarifviewer/toolWindow/SarifViewerWindowFactory.kt:333-344 | an active change sets the ref of the selected item; otherwise nothing changes |
| ToolWindow.ToolWindowState.PopulateCombo | src/main/kotlin/com/github/adrienpessu/sarifviewer/toolWindow/SarifViewerWindowFactory.kt:704-729 | the items become the candidates and the selector is re-enabled; a failed lookup leaves one item and the selector muted |
| ToolWindow.ToolWindowState.AddPullRequestItems | src/main/kotlin/com/github/adrienpessu/sarifviewer/toolWindow/SarifViewerWindowFactory.kt:715-726 | the `forEach` appends one item per pull request, in list order, after the items already there, leaving the ref, the view and the mute flag as they were |
| ToolWindow.ToolWindowState.ExtractSarif | src/main/kotlin/com/github/adrienpessu/sarifviewer/toolWindow/SarifViewerWindowFactory.kt:657-687 | the ref's documents are fetched, diffed against the base or merged under the current view |
| ToolWindow.MutedAfterFailedLookup | src/main/kotlin/com/github/adrienpessu/sarifviewer/toolWindow/SarifViewerWindowFactory.kt:709-728 | after a failed pull-request lookup a later selection does not change the ref |

## Left out

- JSON parsing by Jackson, and the HTTP transport. A response is a status and an already-parsed body; `Receive` gives its meaning. Request headers are not modelled.
- `alsoIfNull { SarifSchema210() }` is not modelled. Its value is discarded, so it has no effect on what the code returns.
- `java.net.URI` is modelled only for the remote URLs the viewer sees: scheme, authority, path, query and fragment. Not modelled:
  - percent-decoding;
  - IPv6 literals;
  - registry-based authorities;
  - the URISyntaxException on malformed input.
- Numbers: `Integer.valueOf` is modelled on ASCII digits only. Other Unicode decimal digits are not accepted.
- Buckets.LexLess: String order is modelled as order on Dafny characters. It is not UTF-16 code-unit order for characters outside the Basic Multilingual Plane.
- A null `physicalLocation`, `region`, `artifactLocation`, `artifactLocation.uri` or `message` object (read as `result.message.text` in `SarifService.kt`) is not modelled: the schema types hold those as present values. The model does model a missing start line (shown as "null"), a missing message text, and a missing or empty location list.
- The ClassCastException that malformed pull-request JSON would raise is not modelled. A pull request is a record with optional fields.
- The details table and its rendering, opening files, and editor inlays are not modelled. Neither are notifications, logging, the loading indicator, settings and the settings listener, the local-file mode and file I/O, `emptyNode` and `refresh`.
- The view selector's handler (`SarifViewerWindowFactory.kt` lines 298-325) is not modelled beyond what `ExtractSarif` covers for the current view. It runs on a background worker.
- `loadDataAndUI` as a whole is not modelled. It chains the modelled steps with IDE services (the git repository and the settings state).
- Concurrency between the Swing thread and the background workers is not modelled.
- `Regex("^git@$hostname:")`: an unescaped '.' in the hostname is modelled as matching any character but a line terminator. Other regex metacharacters in a hostname are not modelled.
- Null elements of `runs` are not modelled. `run?.results` skips them (`SarifService.kt` lines 60 and 100), but the schema model has no null run.
- A null `ThreadFlowLocation.location` is not modelled. Reading it in `leaf` (`SarifService.kt` line 137) would throw; the schema model holds every step location as present.
- The URISyntaxException or IllegalArgumentException that `URI("${apiBase}/user").toURL()` raises for a malformed API base is not modelled (`GitHubAuthenticationService.kt` line 80). It escapes the IOException catch of `testAuthentication`, and the modelled probe has no outcome for it.
- ToolWindow.AlertWebUrlKeepsPlainUrl only states that a URL without any of the four patterns is left as it is. The effect of the four replacements on alert addresses is stated for repositories whose name ends in "repos" (ToolWindow.AlertWebUrlDropsReposEnding); other names that contain a pattern are not characterised.

## Findings

| source | as written | input that shows it | evidently intended | confidence | as-written member | corrected member |
|---|---|---|---|---|---|---|
| src/main/kotlin/com/github/adrienpessu/sarifviewer/utils/GitHubInstance.kt:15-17 | `replace(Regex(".git$"), "")` leaves the dot unescaped, so any character other than a line terminator, followed by "git" at the end, is cut | the remotes "git@github.com:octo/legit" and "https://github.com/octo/legit" name "octo/l" | only a literal ".git" suffix is removed, so the name is "octo/legit" | not executed | GitHubInstances.RepoNwoCutsGitEnding | GitHubInstances.RepoNwoFixedKeepsName |
| src/main/kotlin/com/github/adrienpessu/sarifviewer/toolWindow/SarifViewerWindowFactory.kt:455-459 | the web address is made by deleting every "api.", "api/v3/" and "repos/" anywhere in the API URL, so text inside the owner or repository name is deleted too | the alert "https://api.github.com/repos/hubot/myrepos/code-scanning/alerts/1" is shown as "https://github.com/hubot/mysecurity/code-scanning/1" | only the API host, the "/api/v3" base and the "repos" segment are dropped, giving "https://github.com/hubot/myrepos/security/code-scanning/1" | not executed | ToolWindow.AlertWebUrlDropsReposEnding | ToolWindow.AlertWebUrlFixedRoundTrip |
