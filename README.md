# Commit and release documentation service — a Dafny model

The service turns source-control events into written documentation. A GitHub
push webhook hands every pushed commit to the commit analyzer. The analyzer
fetches the commit's metadata and diff, asks a chat model to explain the
change, and stores the explanation in a storage bucket as a text artifact with
a six-line header (`{branch}/commits/{timestamp}_{repo}_{sha}.txt`). A GitLab
variant does the same, with two additions: it summarises the project README,
and it summarises the stored documentation of the last two commits that touched
each changed file. Two release analyzers (GitHub and GitLab) find the
previous release tag and list the commits in between. They collect those
commits' stored artifacts, have the model write release notes, and upload the
notes with metadata. Texts longer than 300 characters pass through a bounded
summariser first.

The model has one module per source file:
- `App`: the webhook in app.py.
- `GitHubAnalyzer`: github_analyzer.py.
- `GitLabAnalyzer`: gitlab_analyzer.py.
- `GitHubReleaseAnalyzer`: github_release_analyzer.py.
- `GitLabReleaseAnalyzer`: gitlab_release_analyzer.py.
- `Summarizer`: summarizer.py.
- `Utils`: utils.py.

Four shared modules sit underneath:
- `Common`: the error kinds of CustomException.py, results, provider responses, Python truthiness and an insertion-ordered dictionary.
- `Text`: `startswith`, `in`, `join`, slicing and `replace`.
- `Storage`: the blob listing, the key scheme and the artifact format, with its parser and a write handle.
- `Releases`: the sorted-listing walk that both release analyzers share.

Loops of the source are methods with loop invariants, proved equal to a
recursive specification function. Properties relating several calls are
lemmas about those functions. Requests to GitHub and GitLab are `HttpResponse`
parameters: a status and a decoded body, or a connection failure. The bucket
listing is a sequence of blobs. The chat models are function parameters that
answer `None` when the call raises. The clock is a timestamp string, and
whether a storage write succeeds is a boolean.

## Model

| member | source | states |
|---|---|---|
| App.StepOf | app.py:47-55 | a null id, or a null or empty message, crashes the handler; a message starting with the skip prefix is skipped; otherwise the commit's own id is analysed |
| App.Webhook | app.py:17-82 | the loop over the pushed commits returns exactly `WebhookSpec`, the response as a function of the request: 400 for any event but `push`, the first CommitNotFoundError as 404 and the first AnalyzerError as 400 (both naming the commit), other errors as 500, otherwise 200 with `commits_analyzed` equal to the number of results |
| App.ProcessAppend | app.py:45-74 | processing `a + b`: if `a` stopped, that answer stands and `b` is never looked at; otherwise `a`'s results come before `b`'s — an abort discards everything collected earlier |
| App.ResultsComeFromCommits | app.py:58-64 | every result names a commit of the batch that was analysed, carries a truthy outcome equal to what the analyzer returned for it, and there are at most as many results as commits |
| App.SkippedOnlyBatchAnalysesNothing | app.py:53-55 | a batch whose every message starts with the skip prefix ends with no results, whatever the analyzer would answer |
| App.MergeCommitsAreAnalysed | app.py:53 | the skip test as written (`"Merege"`) does not skip messages starting with `"Merg"`, so git's "Merge branch ..." commits are analysed |
| App.MeregeTestAnalysesMergeCommit | app.py:53-64 | as written, a push of "Merge branch x" then "fix bug" lists both commits, the merge first |
| App.IntendedTestSkipsMergeCommit | app.py:52-55 | with the intended `"Merge"` prefix the same push lists only the fix |
| App.BranchOfHeadsRef | app.py:35-36 | `refs/heads/<name>` gives branch `<name>` when the name does not itself contain `refs/heads/`; a missing ref gives the empty branch |
| App.FailedUploadAnswers400 | app.py:58-74 | when a commit the loop reaches is documented but cannot be uploaded (no bucket or a failed write), the request answers 400 naming that commit, whatever precedes or follows it |
| App.UnknownCommitAnswers404 | app.py:58-69 | when the commits API answers 404 for a commit the loop reaches, the request answers 404 naming that commit, whatever precedes or follows it |
| GitHubAnalyzer.GetCommitDetails | github_analyzer.py:80-104 | success exactly on a 200; 404 is CommitNotFoundError and nothing else is; every other failure is a bare exception |
| GitHubAnalyzer.GetCommitDiff | github_analyzer.py:108-124 | a 200 gives the diff text; any other status gives the non-empty error text `Error getting commit diff: ...` as if it were the diff; only a connection failure raises |
| GitHubAnalyzer.Explanation | github_analyzer.py:195-200 | the reply's `content` when present, otherwise `str(reply)` unless the reply has an attribute named `text:` |
| GitHubAnalyzer.TextBranchIsDead | github_analyzer.py:197-198 | no reply whose attributes are identifiers can take the `hasattr(response, "text:")` branch: the explanation is `content` or `str(reply)` |
| GitHubAnalyzer.GitHubHeader | github_analyzer.py:135-140 | one header value per label; the author line is `name <email>` |
| GitHubAnalyzer.UploadToGcs | github_analyzer.py:127-145 | the six writes produce exactly the six-line header, a blank line, the 80-star rule and the explanation; the returned path is `gs://bucket/blob` |
| GitHubAnalyzer.AnalyzeCommit | github_analyzer.py:148-232 | each outcome by cause: 404 is CommitNotFoundError and any other failed details request or a failed diff transport is a bare exception; a falsy commit gives None and a non-dict commit is returned unchanged; an empty diff, missing metadata, a raising model call or a None explanation give None; with a documentable commit and an explanation, an unset bucket or a failed write is AnalyzerError, and otherwise the commit is uploaded under `{branch}/commits/{timestamp}_{repo}_{sha}.txt` with the artifact built from the model's reply to the prompt of repo, sha, author, message and diff |
| GitHubAnalyzer.FailedDiffIsStillDocumented | github_analyzer.py:167-171 | when the diff request fails with a non-200 status, the commit is still documented (the error text is sent as the diff) |
| GitHubAnalyzer.UploadedArtifactReadsBack | github_analyzer.py:134-143 | the uploaded artifact parses back to exactly the six header values it was written with (repository, commit, branch, `author <email>`, date, message) and to the model's explanation as body, provided no header value spans lines |
| GitHubAnalyzer.UploadedCommitIsFoundLater | github_analyzer.py:226-228 | the uploaded artifact is the one a later bucket scan for that commit and repository returns |
| GitHubReleaseAnalyzer.GetPreviousReleaseTagGitHub | github_release_analyzer.py:54-73 | fails exactly when the listing is not a 200; otherwise the tag preceding the release in `created_at` order |
| GitHubReleaseAnalyzer.GetCommitsBetweenTags | github_release_analyzer.py:75-92 | with no previous tag, the recent-commits listing; otherwise the compare result's `commits`, empty when absent; failures are bare exceptions |
| GitHubReleaseAnalyzer.FindCommitDocumentation | github_release_analyzer.py:94-104 | the name of the first blob whose name contains both the sha and the repository name |
| GitHubReleaseAnalyzer.ReadGcsFile | github_release_analyzer.py:106-115 | None exactly when no blob has that name; otherwise the content of a blob of that name |
| GitHubReleaseAnalyzer.CollectCommitDocs | github_release_analyzer.py:27-36 | the loop collects one documentation entry per commit with a found artifact, in commit order |
| GitHubReleaseAnalyzer.CommitDocsAppend | github_release_analyzer.py:28-36 | the entries of two commit ranges are the entries of the first followed by those of the second |
| GitHubReleaseAnalyzer.CommitDocsAreFound | github_release_analyzer.py:31-36 | at most one entry per commit, and every entry holds the content of a blob whose name mentions one of the window's commits and the repository |
| GitHubReleaseAnalyzer.UndocumentedCommitAddsNothing | github_release_analyzer.py:31-32 | a commit with no matching blob contributes no entry |
| GitHubReleaseAnalyzer.GenerateNote | github_release_analyzer.py:117-172 | the note is the reply (`content` or `str`) to the prompt whose previous tag reads "initial release" when there is none; a failing model call raises |
| GitHubReleaseAnalyzer.GitHubReleaseMetadata | github_release_analyzer.py:182-188 | exactly the five keys in order, with `created_at` stored as given |
| GitHubReleaseAnalyzer.GenerateReleaseNote | github_release_analyzer.py:20-52 | a failed releases listing, a failed commit window, a failed model call or a failed write each fail the call, and when all succeed it succeeds; the note is generated from the preceding tag and the docs of the commits in between, uploaded under `{repo}/releases/{tag}/{timestamp}_release_note.md` with the five-key metadata, and its `gs://` path returned |
| GitLabAnalyzer.NewPathsExactly | gitlab_analyzer.py:37-40 | a path is listed exactly when it is some file diff's non-empty `new_path` |
| GitLabAnalyzer.NewPathsAppend | gitlab_analyzer.py:37-40 | the changed paths of two diff lists concatenate |
| GitLabAnalyzer.GetChangedFiles | gitlab_analyzer.py:23-44 | a 200 gives the non-empty new paths in order; anything else is a GitLab API error |
| GitLabAnalyzer.Without | gitlab_analyzer.py:62-67 | the current commit never appears and every kept id was listed |
| GitLabAnalyzer.WithoutAppend | gitlab_analyzer.py:62-67 | dropping the current commit distributes over concatenation |
| GitLabAnalyzer.Predecessors | gitlab_analyzer.py:46-76 | at most two ids, never the current commit, the first ones of the listing in order once the current commit is dropped; a failed request gives none |
| GitLabAnalyzer.GetPreviousCommitsForFile | gitlab_analyzer.py:46-76 | the loop with its `continue` and `break` returns exactly those predecessors |
| GitLabAnalyzer.FileToCommitsFacts | gitlab_analyzer.py:84-86 | the file-to-commits dictionary has a key for exactly the files walked (the first five changed ones), each mapped to its at most two predecessors |
| GitLabAnalyzer.ShasOfExactly | gitlab_analyzer.py:88-91 | a sha is in the unique set exactly when some file's commits contain it |
| GitLabAnalyzer.ShasOfBound | gitlab_analyzer.py:84-91 | at most two unique commits per file |
| GitLabAnalyzer.UniqueCommits | gitlab_analyzer.py:88-91 | the loop over the dictionary's values builds exactly that set |
| GitLabAnalyzer.FindCommitDocumentationInGcs | gitlab_analyzer.py:128-142 | the content of the first blob whose name contains the sha and the project name |
| GitLabAnalyzer.DocFor | gitlab_analyzer.py:96-97 | a document is kept only when non-empty |
| GitLabAnalyzer.FetchDocs | gitlab_analyzer.py:93-98 | every unique commit is queried once, in some order, and the map holds exactly the commits whose document was found |
| GitLabAnalyzer.LabelledDocsEmpty | gitlab_analyzer.py:103-108 | a file gets no documentation list exactly when none of its commits has a document |
| GitLabAnalyzer.FileDocs | gitlab_analyzer.py:102-106 | the inner loop labels each documented commit in order |
| GitLabAnalyzer.PreviousDocsOfEntries | gitlab_analyzer.py:100-113 | a file has a summary exactly when it is a key with at least one documented commit, and the summary is the summariser's output on the labelled documents joined with the `---` rule |
| GitLabAnalyzer.SummarizeFileDocs | gitlab_analyzer.py:100-113 | the loop over the dictionary builds exactly that result, failing when a summary call fails |
| GitLabAnalyzer.PreviousDocsFailureSticks | gitlab_analyzer.py:108-111 | once a summary call has failed, the whole lookup fails |
| GitLabAnalyzer.GetPreviousDocumentation | gitlab_analyzer.py:78-113 | the four steps give the specified result; at most ten distinct commits are queried, exactly the predecessors of the first five changed files |
| GitLabAnalyzer.PreviousDocsIff | gitlab_analyzer.py:78-113 | a file is summarised exactly when it is among the first five changed files and one of its two predecessors has stored documentation |
| GitLabAnalyzer.PreviousDocsValid | gitlab_analyzer.py:101-111 | the resulting dictionary lists each file once, with a value for each |
| GitLabAnalyzer.FormatPreviousDocumentationContext | gitlab_analyzer.py:115-126 | the loop builds the sentinel text or the heading followed by one section per file, in order |
| GitLabAnalyzer.ContextIsSentinelIffEmpty | gitlab_analyzer.py:117-126 | the context is the "No previous documentation" sentinel exactly when there are no summaries |
| GitLabAnalyzer.SectionsHaveEveryFile | gitlab_analyzer.py:122-124 | every summarised file's `### path` section appears in the context |
| GitLabAnalyzer.GetCommitDetails | gitlab_analyzer.py:209-225 | success exactly on a 200; 404 exactly gives CommitNotFoundError; everything else is a GitLab API error |
| GitLabAnalyzer.DiffTextConcat | gitlab_analyzer.py:241-245 | the flattened diff of two lists is the concatenation of their flattened diffs |
| GitLabAnalyzer.DiffTextEmptyIffNoFiles | gitlab_analyzer.py:240-248 | the flattened diff is empty exactly when the commit changed no file |
| GitLabAnalyzer.FlattenDiff | gitlab_analyzer.py:240-248 | the loop's four appends per file produce the flattened diff |
| GitLabAnalyzer.GetCommitDiff | gitlab_analyzer.py:227-254 | a 200 gives the flattened diff, 404 is CommitNotFoundError, anything else a GitLab API error |
| GitLabAnalyzer.GitLabHeader | gitlab_analyzer.py:266-271 | one header value per label, starting with `project_id/project_name` |
| GitLabAnalyzer.UploadToGcsGitLab | gitlab_analyzer.py:256-278 | the writes produce exactly the header, rule and explanation; the path is `gs://bucket/blob` |
| GitLabAnalyzer.ContentTextOrStr | gitlab_analyzer.py:328-333 | `content`, else `text`, else `str(reply)` |
| GitLabAnalyzer.AnalyzeGitLabCommit | gitlab_analyzer.py:280-370 | each outcome by cause: a 404 on details or diff is CommitNotFoundError; any other failed details, diff or files request is a GitLab API error; a falsy commit, an empty diff, a failed README summary, a failed previous-documentation summary or a failed model call is AnalyzerError; an unset bucket or a failed write is a storage error; when everything succeeds the artifact under the commit key holds the header and the model's reply to the prompt of project, sha, author, message, README summary, formatted previous documentation and flattened diff |
| GitLabReleaseAnalyzer.GetPreviousReleaseTagGitLab | gitlab_release_analyzer.py:101-125 | fails exactly when the listing is not a 200; otherwise the tag preceding the release in `released_at` order |
| GitLabReleaseAnalyzer.GetCommitsBetweenTagsGitLab | gitlab_release_analyzer.py:127-155 | recent commits with no previous tag, the compare result's `commits` otherwise; failures are GitLab API errors |
| GitLabReleaseAnalyzer.FindCommitDocumentation | gitlab_release_analyzer.py:157-173 | an unset bucket raises a storage error; otherwise the first matching blob name |
| GitLabReleaseAnalyzer.ReadGcsFile | gitlab_release_analyzer.py:175-190 | an unset bucket or empty name raises a storage error; a missing blob gives None; a found blob gives exactly its summary when the summary succeeds, and a storage error when it fails |
| GitLabReleaseAnalyzer.CollectCommitDocs | gitlab_release_analyzer.py:34-47 | the loop keeps one entry per commit whose lookup and read succeeded, skipping storage errors |
| GitLabReleaseAnalyzer.CommitDocsAppend | gitlab_release_analyzer.py:35-47 | the entries of two commit ranges concatenate |
| GitLabReleaseAnalyzer.CommitDocsBound | gitlab_release_analyzer.py:34-47 | at most one entry per commit; with no commit bucket there are none |
| GitLabReleaseAnalyzer.EntriesCarryDocuments | gitlab_release_analyzer.py:39-43 | every kept entry holds a document |
| GitLabReleaseAnalyzer.BuildPipelineContext | gitlab_release_analyzer.py:55-60 | the pipeline context is the pipeline line and branch line as specified |
| GitLabReleaseAnalyzer.PipelineShape | gitlab_release_analyzer.py:56-60 | a context built from an optional pipeline line and an optional branch line opens with the pipeline lead exactly when the pipeline line is present |
| GitLabReleaseAnalyzer.PipelineLineNeedsBoth | gitlab_release_analyzer.py:56-57 | the context starts with the pipeline line exactly when both `pipeline_id` and `pipeline_url` are truthy |
| GitLabReleaseAnalyzer.PipelineContextEmpty | gitlab_release_analyzer.py:55-60 | the context is empty exactly when neither line applies |
| GitLabReleaseAnalyzer.BranchLineEndsContext | gitlab_release_analyzer.py:59-60 | a truthy `default_branch` puts `"\nDefault branch: " + branch` at the very end of the context |
| GitLabReleaseAnalyzer.GenerateNoteGitLab | gitlab_release_analyzer.py:192-263 | a missing API key is AnalyzerError; with a key, the call succeeds exactly when the model answers, and the note is the reply to the prompt with "initial release" for a missing previous tag; a failing model call is AnalyzerError |
| GitLabReleaseAnalyzer.ReleaseMetadata | gitlab_release_analyzer.py:77-87 | exactly the nine metadata keys, in order |
| GitLabReleaseAnalyzer.CleanedExactly | gitlab_release_analyzer.py:285-288 | a key survives cleaning exactly when its value is not None, and its value becomes `str(value)` |
| GitLabReleaseAnalyzer.CleanMetadata | gitlab_release_analyzer.py:284-290 | the loop produces exactly the cleaned dictionary |
| GitLabReleaseAnalyzer.UploadToGcsRelease | gitlab_release_analyzer.py:265-295 | an unset bucket or failed write is a storage error; otherwise the `gs://` path, with the cleaned metadata and the notes |
| GitLabReleaseAnalyzer.GenerateGitLabReleaseNote | gitlab_release_analyzer.py:25-99 | each outcome by cause: a failed listing or commit window is a GitLab API error; a failed README summary, a missing API key or a failed model call is AnalyzerError; an unset bucket or a failed write is a storage error; when everything succeeds the notes are the reply to the prompt of project, tag, name, preceding tag, body, collected docs, README summary and pipeline context, uploaded under the release key with cleaned metadata |
| GitLabReleaseAnalyzer.TagRecord | gitlab_release_analyzer.py:336-364 | without a release, the record names the tag as release name and has no `released_at` |
| GitLabReleaseAnalyzer.ReleaseRecord | gitlab_release_analyzer.py:323-335 | with a release, the record has `released_at` and the given sha or else the release commit's id |
| GitLabReleaseAnalyzer.ProjectIdentity | gitlab_release_analyzer.py:305-317 | a given name and a given path are kept; when either is missing the result succeeds exactly when the project request answers 200, and is `project_name or body.name`, `project_path or body.path_with_namespace` |
| GitLabReleaseAnalyzer.FetchGitLabReleaseData | gitlab_release_analyzer.py:298-368 | succeeds exactly when the token is set, the project identity resolves, and the release answers 200, or 404 with the tag request answered; the record carries the resolved name and path and the tag; from a release: `name` (default the tag), `description` (default empty), `created_at`, `released_at` and `commit_sha or commit.id`; with no release and no tag details: the tag as name, empty description, `commit_timestamp or now`, the given sha; with tag details: the tag `message`, `commit.created_at or commit_timestamp` and `commit_sha or commit.id` |
| GitLabReleaseAnalyzer.ProjectLookupOnlyWhenNeeded | gitlab_release_analyzer.py:305-306 | with both names given, the project response plays no part |
| Releases.SortByKey | github_release_analyzer.py:65 | the sorted listing is a permutation of the input, ordered by the timestamp |
| Releases.InsertKeepsSorted | github_release_analyzer.py:65 | inserting a release into a listing sorted by timestamp keeps it sorted, and the new head is the inserted release or the old head |
| Releases.PreviousTag | github_release_analyzer.py:66-73 | the walk returns a tag exactly when the release is listed and not first, and that tag is the one just before it |
| Releases.PrecedingTagIsPredecessor | github_release_analyzer.py:65-73 | on the sorted listing the tag found is a different tag, no later than the release |
| Releases.EarliestHasNoPredecessor | github_release_analyzer.py:65-73 | the earliest release has no previous tag |
| Releases.PrecedingTagIsListed | github_release_analyzer.py:63-73 | the tag found belongs to a release of the listing |
| Releases.GetPreviousReleaseTag | gitlab_release_analyzer.py:106-122 | a non-200 listing raises; otherwise the walk over the listing sorted on the chosen timestamp |
| Releases.PreviousTagText | github_release_analyzer.py:165 | a missing or empty previous tag reads "initial release" |
| Releases.CommitWindow | gitlab_release_analyzer.py:130-152 | which request decides the outcome; the listing as returned without a previous tag, else the compare `commits`, or no commits when the key is absent |
| Releases.WindowUsesOneRequest | github_release_analyzer.py:78-92 | only the request chosen by the previous tag matters |
| Storage.FirstMatch | github_release_analyzer.py:100-104 | the first blob whose name contains the sha and the repository name, none before it matching; none when no blob matches |
| Storage.ReadBlob | github_release_analyzer.py:106-115 | a blob's content exactly when a blob of that name exists |
| Storage.FoundNameIsReadable | github_release_analyzer.py:31-33 | a name the scan found can be read back |
| Storage.CommitKeyMentions | github_analyzer.py:226 | a commit key contains its sha and repository name, so the scan matches it |
| Storage.UploadedCommitIsFound | gitlab_analyzer.py:136-140 | the scan returns an uploaded commit artifact when no earlier blob matches |
| Storage.HeaderLinesSnoc | github_analyzer.py:135-140 | writing one more header line appends `key: value\n` |
| Storage.SixLineArtifact | github_analyzer.py:135-143 | a six-line artifact is the six header lines, the blank line, the rule and the body, as written line by line |
| Storage.ParseLinesRoundTrip | github_analyzer.py:135-140 | header lines without newlines in their values parse back to those values |
| Storage.ArtifactRoundTrip | github_analyzer.py:134-143 | an artifact parses back to its header values and its body |
| Storage.BlobWriter.Write | github_analyzer.py:134-143 | each write appends to what the open blob holds |
| Summarizer.PromptFor | summarizer.py:53 | the readme and file-history instructions for those kinds, the documentation instruction for every other kind |
| Summarizer.ContentOrStr | summarizer.py:60-62 | the reply's `content`, else `str(reply)` |
| Summarizer.Summarize | summarizer.py:12-62 | empty or short text comes back unchanged with no model call; longer text gives the model's reply, and fails when the call fails |
| Summarizer.ShortTextNeedsNoModel | summarizer.py:14-15 | below 300 characters the model plays no part |
| Summarizer.ThresholdLengthIsSummarized | summarizer.py:14 | the bound is strict: 300 characters go to the model |
| Summarizer.UnknownKindFallsBack | summarizer.py:53 | an unknown content type gets the documentation instruction |
| Utils.SummarizeWithLlm | utils.py:14-62 | the same threshold and reply handling with utils.py's own instructions |
| Utils.GetRepositoryReadme | utils.py:66-84 | the loop over the four candidate names returns the first 200 answer with content, decoded; a transport failure raises; otherwise "No README found" |
| Utils.FirstHitWins | utils.py:72-82 | the first candidate that answers with content wins when all earlier ones answered without |
| Utils.MissMeansNoCandidateHit | utils.py:72-84 | the "No README found" answer comes exactly when every candidate answered and none had content |
| Text.RemoveAllAbsent | app.py:36 | `replace` leaves a string without the pattern unchanged |
| Text.RemoveAllDropsPrefix | app.py:36 | `replace` removes a leading occurrence and carries on after it |
| Text.Take | gitlab_analyzer.py:84 | `s[:n]` keeps the first `n` elements, or all of a shorter sequence |

## Left out

- Network, storage and model calls are not performed. Their outcomes are parameters: `HttpResponse` values, blob listings, model functions answering `None` on failure, a timestamp string and an upload-success flag.
- Logging (`print`), `async`/`await` (everything runs in order), environment loading and the `home` endpoint are not modelled.
- The wording of the prompt templates and the model settings in `setup_llm` and `setup_llm_gitlab` are not modelled. A prompt is a record of the variables it is filled with.
- Base64 and UTF-8 decoding of README contents is a `decode` parameter.
- `GitLabAPIError` is raised and caught throughout the GitLab modules, but no file defines it. Each `raise GitLabAPIError(...)` therefore raises `NameError`, and so does each `except GitLabAPIError` clause it reaches. The model uses the intended error kind, `GitLabApiError`, and `ErrorKind.IsDeclared` records that no file declares it.
- `get_repository_readme_gitlab` is imported by the GitLab modules but defined nowhere, so they fail at import time. The README text is a parameter of `GitLabAnalyzer.AnalyzeGitLabCommit` and `GitLabReleaseAnalyzer.GenerateGitLabReleaseNote`.
- Bucket names read from the environment are parameters. In github_release_analyzer.py and in the GitLab commit scan, the storage client raises for an unset bucket name. That failure is not modelled: there the bucket is a plain string, or the listing is given directly.
- Releases.SortByKey: the source's sort is stable; the model proves sortedness and permutation but not stability.
- Release timestamps are ISO-8601 strings in the source and integers in the same order here.
- Payload shapes are simplified: a pushed commit that is not a JSON object, and keys missing from API bodies beyond the ones modelled, are not represented.
- Storage.ArtifactRoundTrip: an artifact reads back only when no header value contains a newline, so a multi-line commit message does not read back.
- The order in which the GitLab lookup iterates the set of unique commits is Python's set order. The model leaves it unspecified, and `FetchDocs` proves its result for every order.
- In `get_commit_diff` (github_analyzer.py:116-122) the `except` around returning `response.text` cannot fire, so it is not modelled.
- The comment at app.py:52 says merge commits are skipped, but the test at app.py:53 is `startswith('Merege')` (see Findings). The loop does not go on past a failing commit: it aborts on the first CommitNotFoundError (404) or AnalyzerError (400) and lets other exceptions escape as a 500. `App.Webhook` keeps the code as written.
- The previous-documentation lookup of gitlab_analyzer.py is not best-effort: a summary call that raises during it fails the whole commit analysis, and `GitLabAnalyzer.AnalyzeGitLabCommit` answers AnalyzerError then.
- A `ref` or `commits` key present with the value null is treated like an absent key. In app.py:35-36 and 42-45 a null `ref` or `commits` raises a TypeError or AttributeError outside the `try`, so Flask answers 500; the model answers as for a missing key.

## Findings

| source | as written | input that shows it | evidently intended | confidence | as-written member | corrected member |
|---|---|---|---|---|---|---|
| app.py:53 | merge commits are skipped when the message starts with `"Merege"` | a push of "Merge branch x" (id a1) then "fix bug" (id b2): both are analysed and listed | skip git's merge commits, whose messages start with `"Merge"`, so only b2 is listed | high (the comment above says "Skipping the merge commits"); not executed | App.MeregeTestAnalysesMergeCommit | App.IntendedTestSkipsMergeCommit |
