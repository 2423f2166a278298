/**
 * app.py: the push webhook. A request whose event header is not "push" is
 * refused with 400. Otherwise every commit of the payload is logged, skipped
 * when its message starts with "Merege", or handed to the GitHub commit
 * analyzer; truthy outcomes are collected. The first CommitNotFoundError
 * answers 404 and the first AnalyzerError answers 400, both naming the commit
 * and dropping everything collected so far; any other exception escapes the
 * handler and the framework answers 500.
 */
module App {
  import opened Common
  import opened Text
  import opened Summarizer
  import opened GitHubAnalyzer

  /** One element of the payload's `commits`: its `id` and `message`, None when absent or null. */
  datatype PushCommit = PushCommit(id: Option<string>, message: Option<string>)

  /**
   * The parts of the push payload the handler reads: `repository.owner.name`,
   * `repository.name`, `ref` and `commits` (None when absent).
   */
  datatype PushPayload = PushPayload(owner: Option<string>, name: Option<string>,
                                     ref: Option<string>, commits: Option<seq<PushCommit>>)

  /** An element of `results`: `{"commit": sha, "file_path": result}`. */
  datatype ResultEntry = ResultEntry(commit: string, filePath: AnalyzeOutcome)

  /** The JSON body the handler answers with, and its status code. */
  datatype WebhookResponse =
    | EventNotSupported
    | CommitFailed(status: int, commit: string)
    | InternalError
    | Processed(commitsAnalyzed: int, results: seq<ResultEntry>, repoOwner: string, repoName: string)
  {
    function Status(): int {
      match this
      case EventNotSupported => 400
      case CommitFailed(status, _) => status
      case InternalError => 500
      case Processed(_, _, _, _) => 200
    }
  }

  /** `analyze_commit(repo_owner, repo_name, commit_sha, branch_name)` */
  type Analyzer = (string, string, string, string) -> Result<AnalyzeOutcome>

  const BranchPrefix: string := "refs/heads/"

  /** The prefix the skip test looks for, as written. */
  const MergeMarker: string := "Merege"

  /** The prefix the skip test is meant to look for: git's own "Merge branch ..." / "Merge pull request ...". */
  const IntendedMergeMarker: string := "Merge"

  /** `payload.get('ref', '').replace('refs/heads/', '')` */
  function BranchName(ref: Option<string>): string {
    RemoveAll(if ref.Some? then ref.value else "", BranchPrefix)
  }

  /** What happens to one commit before the analyzer is called. */
  datatype Step = Crash | Skip | Analyse(sha: string)

  /**
   * `commit_sha[:7]` raises on a null id, `commit_message.splitlines()[0]`
   * raises on a null or empty message; after that, a message starting with
   * `marker` is skipped.
   */
  function StepOf(marker: string, c: PushCommit): (s: Step)
    ensures s == Crash <==> c.id.None? || c.message.None? || c.message.value == ""
    ensures s == Skip <==> c.id.Some? && c.message.Some? && c.message.value != "" && IsPrefix(marker, c.message.value)
    ensures s.Analyse? ==> c.id == Some(s.sha)
  {
    if c.id.None? || c.message.None? || c.message.value == "" then Crash
    else if IsPrefix(marker, c.message.value) then Skip
    else Analyse(c.id.value)
  }

  /** How a batch of commits ends: all processed with these results, or with this response. */
  datatype Batch = Done(results: seq<ResultEntry>) | Stopped(response: WebhookResponse)

  /** Results collected before a batch are kept only when the batch runs to its end. */
  function Prepend(collected: seq<ResultEntry>, b: Batch): Batch {
    if b.Done? then Done(collected + b.results) else b
  }

  /** The commit loop, commit by commit from the front, skipping messages that start with `marker`. */
  function Process(marker: string, owner: string, repo: string, branch: string, commits: seq<PushCommit>, analyze: Analyzer): Batch
    decreases |commits|
  {
    if |commits| == 0 then Done([])
    else match StepOf(marker, commits[0])
      case Crash => Stopped(InternalError)
      case Skip => Process(marker, owner, repo, branch, commits[1..], analyze)
      case Analyse(sha) =>
        match analyze(owner, repo, sha, branch)
        case Err(e) =>
          if e == CommitNotFoundError then Stopped(CommitFailed(404, sha))
          else if e == AnalyzerError then Stopped(CommitFailed(400, sha))
          else Stopped(InternalError)
        case Ok(o) =>
          Prepend(if o.Truthy() then [ResultEntry(sha, o)] else [], Process(marker, owner, repo, branch, commits[1..], analyze))
  }

  /** The whole handler as a function of the request. */
  function WebhookSpec(event: Option<string>, payload: Option<PushPayload>, analyze: Analyzer): WebhookResponse {
    if event != Some("push") then EventNotSupported
    else if payload.None? || payload.value.owner.None? || payload.value.name.None? then InternalError
    else
      var p := payload.value;
      var commits := if p.commits.Some? then p.commits.value else [];
      match Process(MergeMarker, p.owner.value, p.name.value, BranchName(p.ref), commits, analyze)
      case Done(rs) => Processed(|rs|, rs, p.owner.value, p.name.value)
      case Stopped(resp) => resp
  }

  lemma PrependTwice(a: seq<ResultEntry>, b: seq<ResultEntry>, x: Batch)
    ensures Prepend(a, Prepend(b, x)) == Prepend(a + b, x)
  {
    if x.Done? {
      assert a + (b + x.results) == (a + b) + x.results;
    }
  }

  /**
   * `webhook()`: the event check, the payload fields, then the commit loop
   * with its early returns.
   */
  method Webhook(event: Option<string>, payload: Option<PushPayload>, analyze: Analyzer) returns (resp: WebhookResponse)
    ensures resp == WebhookSpec(event, payload, analyze)
    ensures event != Some("push") ==> resp.Status() == 400
    ensures resp.Processed? ==> resp.commitsAnalyzed == |resp.results|
  {
    if event != Some("push") {
      return EventNotSupported;
    }
    if payload.None? || payload.value.owner.None? || payload.value.name.None? {
      return InternalError;
    }
    var p := payload.value;
    var owner := p.owner.value;
    var repo := p.name.value;
    var ref := if p.ref.Some? then p.ref.value else "";
    var branch := RemoveAll(ref, BranchPrefix);
    var commits := if p.commits.Some? then p.commits.value else [];
    var results: seq<ResultEntry> := [];
    var i := 0;
    while i < |commits|
      invariant 0 <= i <= |commits|
      invariant Process(MergeMarker, owner, repo, branch, commits, analyze) == Prepend(results, Process(MergeMarker, owner, repo, branch, commits[i..], analyze))
    {
      assert commits[i..][1..] == commits[i + 1..];
      var commit := commits[i];
      if commit.id.None? || commit.message.None? || commit.message.value == "" {
        return InternalError;
      }
      var sha := commit.id.value;
      var message := commit.message.value;
      if IsPrefix(MergeMarker, message) {
        i := i + 1;
        continue;
      }
      var result := analyze(owner, repo, sha, branch);
      if result.Err? {
        if result.error == CommitNotFoundError {
          return CommitFailed(404, sha);
        }
        if result.error == AnalyzerError {
          return CommitFailed(400, sha);
        }
        return InternalError;
      }
      var added := if result.value.Truthy() then [ResultEntry(sha, result.value)] else [];
      PrependTwice(results, added, Process(MergeMarker, owner, repo, branch, commits[i + 1..], analyze));
      results := results + added;
      i := i + 1;
    }
    assert commits[i..] == [];
    return Processed(|results|, results, owner, repo);
  }

  /**
   * Processing two batches in a row: the first one's stop is final (later
   * commits are never looked at), otherwise its results come first.
   */
  lemma {:induction false} ProcessAppend(marker: string, owner: string, repo: string, branch: string,
                                         a: seq<PushCommit>, b: seq<PushCommit>, analyze: Analyzer)
    ensures Process(marker, owner, repo, branch, a + b, analyze) ==
              Prepend(if Process(marker, owner, repo, branch, a, analyze).Done? then Process(marker, owner, repo, branch, a, analyze).results else [],
                      if Process(marker, owner, repo, branch, a, analyze).Done? then Process(marker, owner, repo, branch, b, analyze)
                      else Process(marker, owner, repo, branch, a, analyze))
    decreases |a|
  {
    if |a| == 0 {
      assert a + b == b;
    } else {
      assert (a + b)[0] == a[0];
      assert (a + b)[1..] == a[1..] + b;
      ProcessAppend(marker, owner, repo, branch, a[1..], b, analyze);
      match StepOf(marker, a[0])
      case Crash =>
      case Skip =>
      case Analyse(sha) =>
        match analyze(owner, repo, sha, branch)
        case Err(e) =>
        case Ok(o) =>
          var added := if o.Truthy() then [ResultEntry(sha, o)] else [];
          var rest := Process(marker, owner, repo, branch, a[1..], analyze);
          if rest.Done? {
            PrependTwice(added, rest.results, Process(marker, owner, repo, branch, b, analyze));
          }
    }
  }

  /** Every result names an analysed commit of the batch and carries its truthy outcome, in commit order. */
  lemma {:induction false} ResultsComeFromCommits(marker: string, owner: string, repo: string, branch: string,
                                                  commits: seq<PushCommit>, analyze: Analyzer)
    ensures Process(marker, owner, repo, branch, commits, analyze).Done? ==>
              |Process(marker, owner, repo, branch, commits, analyze).results| <= |commits|
    ensures Process(marker, owner, repo, branch, commits, analyze).Done? ==>
              forall e :: e in Process(marker, owner, repo, branch, commits, analyze).results ==>
                e.filePath.Truthy() && analyze(owner, repo, e.commit, branch) == Ok(e.filePath) &&
                exists k :: 0 <= k < |commits| && StepOf(marker, commits[k]) == Analyse(e.commit)
    decreases |commits|
  {
    if |commits| > 0 {
      ResultsComeFromCommits(marker, owner, repo, branch, commits[1..], analyze);
      var rest := Process(marker, owner, repo, branch, commits[1..], analyze);
      if rest.Done? {
        forall e | e in rest.results
          ensures exists k :: 0 <= k < |commits| && StepOf(marker, commits[k]) == Analyse(e.commit)
        {
          var k :| 0 <= k < |commits[1..]| && StepOf(marker, commits[1..][k]) == Analyse(e.commit);
          assert commits[k + 1] == commits[1..][k];
        }
      }
    }
  }

  /**
   * A batch made only of skipped commits analyses nothing: whatever the
   * analyzer would do, the batch ends with no results.
   */
  lemma {:induction false} SkippedOnlyBatchAnalysesNothing(marker: string, owner: string, repo: string, branch: string,
                                                           commits: seq<PushCommit>, analyze: Analyzer)
    requires forall k :: 0 <= k < |commits| ==>
               (commits[k].id.Some? && commits[k].message.Some? && commits[k].message.value != "" &&
                IsPrefix(marker, commits[k].message.value))
    ensures Process(marker, owner, repo, branch, commits, analyze) == Done([])
    decreases |commits|
  {
    if |commits| > 0 {
      assert StepOf(marker, commits[0]) == Skip;
      SkippedOnlyBatchAnalysesNothing(marker, owner, repo, branch, commits[1..], analyze);
    }
  }

  /**
   * The skip test looks for the misspelling "Merege": a message starting
   * with "Merg" (as "Merge branch ..." and "Merge pull request ..." do) is
   * analysed like any other.
   */
  lemma MergeCommitsAreAnalysed(sha: string, message: string)
    requires IsPrefix("Merg", message)
    ensures StepOf(MergeMarker, PushCommit(Some(sha), Some(message))) == Analyse(sha)
  {
    assert message[3] == 'g';
    assert MergeMarker[3] == 'e';
  }

  /** A push of a merge commit followed by an ordinary one. */
  function MergeThenFix(): seq<PushCommit> {
    [PushCommit(Some("a1"), Some("Merge branch x")), PushCommit(Some("b2"), Some("fix bug"))]
  }

  /** As written, the merge commit of that push is analysed and listed ahead of the fix. */
  lemma MeregeTestAnalysesMergeCommit(owner: string, repo: string, branch: string, analyze: Analyzer,
                                      o1: AnalyzeOutcome, o2: AnalyzeOutcome)
    requires analyze(owner, repo, "a1", branch) == Ok(o1) && o1.Truthy()
    requires analyze(owner, repo, "b2", branch) == Ok(o2) && o2.Truthy()
    ensures Process(MergeMarker, owner, repo, branch, MergeThenFix(), analyze) ==
              Done([ResultEntry("a1", o1), ResultEntry("b2", o2)])
  {
    var cs := MergeThenFix();
    MergeCommitsAreAnalysed("a1", "Merge branch x");
    assert "fix bug"[0] != MergeMarker[0];
    assert StepOf(MergeMarker, cs[1]) == Analyse("b2");
    assert cs[1..][1..] == [];
  }

  /** With the intended prefix the merge commit is skipped and only the fix is listed. */
  lemma IntendedTestSkipsMergeCommit(owner: string, repo: string, branch: string, analyze: Analyzer, o2: AnalyzeOutcome)
    requires analyze(owner, repo, "b2", branch) == Ok(o2) && o2.Truthy()
    ensures Process(IntendedMergeMarker, owner, repo, branch, MergeThenFix(), analyze) == Done([ResultEntry("b2", o2)])
  {
    var cs := MergeThenFix();
    assert "Merge branch x"[..5] == IntendedMergeMarker;
    assert StepOf(IntendedMergeMarker, cs[0]) == Skip;
    assert "fix bug"[0] != IntendedMergeMarker[0];
    assert StepOf(IntendedMergeMarker, cs[1]) == Analyse("b2");
    assert cs[1..][1..] == [];
  }

  /** A pushed branch ref loses its "refs/heads/" prefix; a missing ref gives the empty branch. */
  lemma BranchOfHeadsRef(name: string)
    requires !Contains(name, BranchPrefix)
    ensures BranchName(Some(BranchPrefix + name)) == name
    ensures BranchName(None) == ""
  {
    RemoveAllDropsPrefix(BranchPrefix, name);
    RemoveAllAbsent(name, BranchPrefix);
  }

  /** Everything the GitHub analyzer reads for one commit, per commit id. */
  datatype GitHubWorld = GitHubWorld(details: string -> HttpResponse<CommitJson>, diff: string -> HttpResponse<string>,
                                     generate: CommitPrompt -> Option<Reply>, bucket: Option<string>,
                                     timestamp: string -> string, uploadOk: string -> bool)

  /** The `analyze_commit` the handler imports, run against `w`. */
  function AnalyzeIn(w: GitHubWorld): Analyzer {
    (owner, repo, sha, branch) =>
      AnalyzeCommit(owner, repo, sha, branch, w.details(sha), w.diff(sha), w.generate, w.bucket, w.timestamp(sha), w.uploadOk(sha))
  }

  /**
   * When the commits API answers 404 for a commit reached by the loop, the
   * request answers 404 naming it, whatever came before or after.
   */
  lemma UnknownCommitAnswers404(w: GitHubWorld, marker: string, owner: string, repo: string, branch: string,
                                before: seq<PushCommit>, c: PushCommit, after: seq<PushCommit>)
    requires Process(marker, owner, repo, branch, before, AnalyzeIn(w)).Done?
    requires StepOf(marker, c).Analyse? && w.details(StepOf(marker, c).sha).Response? && w.details(StepOf(marker, c).sha).status == 404
    ensures Process(marker, owner, repo, branch, before + [c] + after, AnalyzeIn(w)) == Stopped(CommitFailed(404, c.id.value))
  {
    var sha := StepOf(marker, c).sha;
    assert AnalyzeIn(w)(owner, repo, sha, branch) == Err(CommitNotFoundError);
    assert (before + [c] + after) == before + ([c] + after);
    ProcessAppend(marker, owner, repo, branch, before, [c] + after, AnalyzeIn(w));
    assert ([c] + after)[0] == c;
  }

  /**
   * When a commit reached by the loop is documented but its upload cannot
   * happen (no bucket, or the write fails), the analyzer raises
   * AnalyzerError and the request answers 400 naming that commit.
   */
  lemma FailedUploadAnswers400(w: GitHubWorld, marker: string, owner: string, repo: string, branch: string,
                               before: seq<PushCommit>, c: PushCommit, after: seq<PushCommit>)
    requires Process(marker, owner, repo, branch, before, AnalyzeIn(w)).Done?
    requires StepOf(marker, c).Analyse?
    requires var sha := StepOf(marker, c).sha;
             && Documentable(w.details(sha), w.diff(sha))
             && var reply := w.generate(PromptOf(repo, sha, w.details(sha), w.diff(sha)));
                reply.Some? && Explanation(reply.value).Some? && !(IsSet(w.bucket) && w.uploadOk(sha))
    ensures Process(marker, owner, repo, branch, before + [c] + after, AnalyzeIn(w)) == Stopped(CommitFailed(400, c.id.value))
  {
    var sha := StepOf(marker, c).sha;
    assert AnalyzeIn(w)(owner, repo, sha, branch) == Err(AnalyzerError);
    assert (before + [c] + after) == before + ([c] + after);
    ProcessAppend(marker, owner, repo, branch, before, [c] + after, AnalyzeIn(w));
    assert ([c] + after)[0] == c;
  }
}
