/**
 * github_analyzer.py: documentation for one GitHub commit. Unlike the
 * GitLab flow, most failures here end the analysis with no result rather
 * than an error; only a missing commit, a failed request and a missing or
 * failing bucket are raised.
 */
module GitHubAnalyzer {
  import opened Common
  import opened Text
  import opened Storage
  import opened Summarizer

  /**
   * The decoded commit-details body. A JSON object is reduced to whether it
   * is empty and to the four fields read from it (None when the key path
   * is missing); any other JSON value keeps its rendering and truthiness.
   */
  datatype CommitJson =
    | CommitObject(nonEmpty: bool, authorName: Option<string>, authorEmail: Option<string>,
                   date: Option<string>, message: Option<string>)
    | OtherJson(repr: string, truthy: bool)
  {
    predicate Truthy() {
      match this
      case CommitObject(nonEmpty, _, _, _, _) => nonEmpty
      case OtherJson(_, truthy) => truthy
    }

    predicate HasMetadata() {
      CommitObject? && authorName.Some? && authorEmail.Some? && date.Some? && message.Some?
    }
  }

  /** What `analyze_commit` returns: None, the uploaded path (with the blob written), or the non-object body unchanged. */
  datatype AnalyzeOutcome = NoResult | Uploaded(upload: Upload) | Unchanged(data: CommitJson)
  {
    /** Truthiness, as the webhook tests it. */
    predicate Truthy() {
      match this
      case NoResult => false
      case Uploaded(u) => u.path != ""
      case Unchanged(d) => d.Truthy()
    }
  }

  /** `get_commit_details`: 404 is CommitNotFoundError; any other failure propagates as a bare exception. */
  function GetCommitDetails(resp: HttpResponse<CommitJson>): (r: Result<CommitJson>)
    ensures r.Ok? <==> resp.IsOk()
    ensures r.Ok? ==> r.value == resp.body
    ensures r == Err(CommitNotFoundError) <==> resp.Response? && resp.status == 404
    ensures r.Err? ==> r.error in {CommitNotFoundError, GenericError}
  {
    match resp
    case ConnectionFailed => Err(GenericError)
    case Response(status, body) =>
      if status == 200 then Ok(body)
      else if status == 404 then Err(CommitNotFoundError)
      else Err(GenericError)
  }

  const DiffErrorLead: string := "Error getting commit diff: "

  /**
   * `get_commit_diff`: the diff text of a 200; for any other status, the
   * error message itself is returned as if it were the diff.
   */
  function GetCommitDiff(resp: HttpResponse<string>): (r: Result<string>)
    ensures r.Err? <==> resp.ConnectionFailed?
    ensures r.Err? ==> r.error == GenericError
    ensures resp.IsOk() ==> r == Ok(resp.body)
    ensures resp.Response? && resp.status != 200 ==> r.Ok? && IsPrefix(DiffErrorLead, r.value) && r.value != ""
  {
    match resp
    case ConnectionFailed => Err(GenericError)
    case Response(status, text) =>
      if status == 200 then Ok(text)
      else Ok(DiffErrorLead + IntToString(status) + " - " + text)
  }

  /**
   * The normalisation of the model's reply: `.content`; else, when the
   * reply has an attribute literally named "text:", its `.text` (None, the
   * AttributeError being swallowed, when it has no `.text`); else `str()`.
   */
  function Explanation(r: Reply): (e: Option<string>)
    ensures "content" in r.attrs ==> e == Some(r.attrs["content"])
    ensures "content" !in r.attrs && "text:" !in r.attrs ==> e == Some(r.repr)
  {
    if "content" in r.attrs then Some(r.attrs["content"])
    else if "text:" in r.attrs then (if "text" in r.attrs then Some(r.attrs["text"]) else None)
    else Some(r.repr)
  }

  /** Python attribute names never contain a colon. */
  predicate IdentifierNames(r: Reply) {
    forall k :: k in r.attrs ==> ':' !in k
  }

  /**
   * The "text:" branch can never be taken by a real reply: the result is
   * always `.content` or `str(response)`, never `.text`.
   */
  lemma TextBranchIsDead(r: Reply)
    requires IdentifierNames(r)
    ensures Explanation(r) == Some(ContentOrStr(r))
  {
    assert "text:"[4] == ':';
  }

  const GitHubLabels: seq<string> := ["Repository", "Commit", "Branch", "Author", "Date", "Message"]

  function GitHubHeader(owner: string, repo: string, sha: string, branch: string, authorName: string,
                        authorEmail: string, date: string, message: string): (v: seq<string>)
    ensures |v| == |GitHubLabels|
  {
    [owner + "/" + repo, sha, branch, authorName + " <" + authorEmail + ">", date, message]
  }

  /** `upload_to_gcs`: the text written to the blob and the returned path. */
  method UploadToGcs(owner: string, repo: string, sha: string, bucket: string, blobName: string, authorName: string,
                     authorEmail: string, date: string, message: string, explanation: string, branch: string)
    returns (path: string, written: string)
    ensures written == Artifact(GitHubLabels, GitHubHeader(owner, repo, sha, branch, authorName, authorEmail, date, message), explanation)
    ensures path == GsPath(bucket, blobName)
  {
    var f := new BlobWriter();
    f.Write(HeaderLine("Repository", owner + "/" + repo));
    f.Write(HeaderLine("Commit", sha));
    f.Write(HeaderLine("Branch", branch));
    f.Write(HeaderLine("Author", authorName + " <" + authorEmail + ">"));
    f.Write(HeaderLine("Date", date));
    f.Write(HeaderLine("Message", message));
    f.Write("\n\n");
    f.Write(Rule + "\n\n");
    f.Write(explanation);
    written := f.written;
    SixLineArtifact(GitHubLabels, GitHubHeader(owner, repo, sha, branch, authorName, authorEmail, date, message), explanation);
    path := GsPath(bucket, blobName);
  }

  /** The variables the documentation prompt is filled with. */
  datatype CommitPrompt = CommitPrompt(repoName: string, sha: string, author: string, message: string, diff: string)

  /** A truthy commit object with all four metadata fields, and a diff that is neither a failure nor empty. */
  predicate Documentable(details: HttpResponse<CommitJson>, diff: HttpResponse<string>) {
    && details.IsOk() && details.body.HasMetadata() && details.body.nonEmpty
    && GetCommitDiff(diff).Ok? && GetCommitDiff(diff).value != ""
  }

  /** The prompt `analyze_commit` fills for a documentable commit. */
  function PromptOf(repo: string, sha: string, details: HttpResponse<CommitJson>, diff: HttpResponse<string>): CommitPrompt
    requires Documentable(details, diff)
  {
    CommitPrompt(repo, sha, details.body.authorName.value, details.body.message.value, GetCommitDiff(diff).value)
  }

  /**
   * `analyze_commit`. `details` and `diff` are GitHub's answers, `generate`
   * the documentation model (None when the call raises), `bucket` the
   * configured bucket, `timestamp` the formatted current time and
   * `uploadOk` whether the storage write succeeds.
   */
  function AnalyzeCommit(owner: string, repo: string, sha: string, branch: string,
                         details: HttpResponse<CommitJson>, diff: HttpResponse<string>,
                         generate: CommitPrompt -> Option<Reply>, bucket: Option<string>,
                         timestamp: string, uploadOk: bool): (r: Result<AnalyzeOutcome>)
    ensures details.Response? && details.status == 404 ==> r == Err(CommitNotFoundError)
    ensures r.Err? ==> r.error in {CommitNotFoundError, GenericError, AnalyzerError}
    ensures details.IsOk() && !details.body.Truthy() ==> r == Ok(NoResult)
    ensures details.IsOk() && details.body.Truthy() && details.body.OtherJson? ==> r == Ok(Unchanged(details.body))
    ensures r.Ok? && r.value.Unchanged? ==> r.value.data.Truthy()
    ensures details.ConnectionFailed? || (details.status != 200 && details.status != 404) ==> r == Err(GenericError)
    ensures details.IsOk() && details.body.CommitObject? && details.body.nonEmpty && diff.ConnectionFailed? ==> r == Err(GenericError)
    ensures (details.IsOk() && details.body.CommitObject? && details.body.nonEmpty && GetCommitDiff(diff).Ok?
             && (GetCommitDiff(diff).value == "" || !details.body.HasMetadata())) ==> r == Ok(NoResult)
    ensures Documentable(details, diff) ==>
              var p := PromptOf(repo, sha, details, diff);
              && (generate(p).None? || Explanation(generate(p).value).None? ==> r == Ok(NoResult))
              && (generate(p).Some? && Explanation(generate(p).value).Some? && !(IsSet(bucket) && uploadOk) ==> r == Err(AnalyzerError))
              && (generate(p).Some? && Explanation(generate(p).value).Some? && IsSet(bucket) && uploadOk ==> r.Ok? && r.value.Uploaded?)
    ensures r.Ok? && r.value.Uploaded? ==>
              && details.IsOk() && details.body.HasMetadata() && IsSet(bucket) && uploadOk
              && r.value.upload.blob.name == CommitBlobKey(branch, timestamp, repo, sha)
              && r.value.upload.path == GsPath(bucket.value, r.value.upload.blob.name)
              && GetCommitDiff(diff).Ok?
              && var c := details.body;
                 var p := CommitPrompt(repo, sha, c.authorName.value, c.message.value, GetCommitDiff(diff).value);
                 && generate(p).Some? && Explanation(generate(p).value).Some?
                 && r.value.upload.blob.content
                    == Artifact(GitHubLabels,
                                GitHubHeader(owner, repo, sha, branch, c.authorName.value, c.authorEmail.value, c.date.value, c.message.value),
                                Explanation(generate(p).value).value)
  {
    match GetCommitDetails(details)
    case Err(e) => Err(e)
    case Ok(commitData) =>
      if !commitData.Truthy() then Ok(NoResult)
      else if commitData.OtherJson? then Ok(Unchanged(commitData))
      else match GetCommitDiff(diff)
        case Err(e) => Err(e)
        case Ok(commitDiff) =>
          if commitDiff == "" then Ok(NoResult)
          else if !commitData.HasMetadata() then Ok(NoResult)
          else
            var p := CommitPrompt(repo, sha, commitData.authorName.value, commitData.message.value, commitDiff);
            match generate(p)
            case None => Ok(NoResult)
            case Some(reply) =>
              match Explanation(reply)
              case None => Ok(NoResult)
              case Some(explanation) =>
                if !IsSet(bucket) then Err(AnalyzerError)
                else if !uploadOk then Err(AnalyzerError)
                else
                  var blobName := CommitBlobKey(branch, timestamp, repo, sha);
                  var content := Artifact(GitHubLabels,
                                          GitHubHeader(owner, repo, sha, branch, commitData.authorName.value,
                                                       commitData.authorEmail.value, commitData.date.value,
                                                       commitData.message.value),
                                          explanation);
                  Ok(Uploaded(Upload(GsPath(bucket.value, blobName), Blob(blobName, content))))
  }

  /**
   * A failed diff request does not stop the analysis: the error text is
   * documented as if it were the diff, and the result is uploaded.
   */
  lemma FailedDiffIsStillDocumented(owner: string, repo: string, sha: string, branch: string,
                                    details: HttpResponse<CommitJson>, status: int, text: string,
                                    generate: CommitPrompt -> Option<Reply>, bucket: Option<string>, timestamp: string)
    requires details.IsOk() && details.body.HasMetadata() && details.body.nonEmpty
    requires status != 200
    requires IsSet(bucket)
    requires forall p :: generate(p).Some? && "content" in generate(p).value.attrs
    ensures var r := AnalyzeCommit(owner, repo, sha, branch, details, Response(status, text), generate, bucket, timestamp, true);
            r.Ok? && r.value.Uploaded?
  {
    var d := GetCommitDiff(Response(status, text));
    assert d.value != "";
  }

  /**
   * The uploaded artifact reads back: its header gives the repository,
   * commit, branch, author, date and message, and the body follows
   * unchanged, provided no header value spans several lines.
   */
  lemma UploadedArtifactReadsBack(owner: string, repo: string, sha: string, branch: string,
                                  details: HttpResponse<CommitJson>, diff: HttpResponse<string>,
                                  generate: CommitPrompt -> Option<Reply>, bucket: Option<string>, timestamp: string)
    requires AnalyzeCommit(owner, repo, sha, branch, details, diff, generate, bucket, timestamp, true).Ok?
    requires AnalyzeCommit(owner, repo, sha, branch, details, diff, generate, bucket, timestamp, true).value.Uploaded?
    requires details.Response? && details.body.CommitObject?
    requires var c := details.body;
             var values := GitHubHeader(owner, repo, sha, branch, c.authorName.value, c.authorEmail.value, c.date.value, c.message.value);
             forall v :: v in values ==> '\n' !in v
    ensures var c := details.body;
            var u := AnalyzeCommit(owner, repo, sha, branch, details, diff, generate, bucket, timestamp, true).value.upload;
            var p := CommitPrompt(repo, sha, c.authorName.value, c.message.value, GetCommitDiff(diff).value);
            ParseArtifact(GitHubLabels, u.blob.content)
              == Some((GitHubHeader(owner, repo, sha, branch, c.authorName.value, c.authorEmail.value, c.date.value, c.message.value),
                       Explanation(generate(p).value).value))
  {
    var c := details.body;
    var values := GitHubHeader(owner, repo, sha, branch, c.authorName.value, c.authorEmail.value, c.date.value, c.message.value);
    var u := AnalyzeCommit(owner, repo, sha, branch, details, diff, generate, bucket, timestamp, true).value.upload;
    var p := CommitPrompt(repo, sha, c.authorName.value, c.message.value, GetCommitDiff(diff).value);
    var body := Explanation(generate(p).value).value;
    assert u.blob.content == Artifact(GitHubLabels, values, body);
    forall i | 0 <= i < |values| ensures '\n' !in values[i] {
      assert values[i] in values;
    }
    ArtifactRoundTrip(GitHubLabels, values, body);
  }

  /** The uploaded artifact is the one a later scan for the same commit and repository finds. */
  lemma UploadedCommitIsFoundLater(owner: string, repo: string, sha: string, branch: string,
                                   details: HttpResponse<CommitJson>, diff: HttpResponse<string>,
                                   generate: CommitPrompt -> Option<Reply>, bucket: Option<string>, timestamp: string,
                                   before: seq<Blob>)
    requires AnalyzeCommit(owner, repo, sha, branch, details, diff, generate, bucket, timestamp, true).Ok?
    requires AnalyzeCommit(owner, repo, sha, branch, details, diff, generate, bucket, timestamp, true).value.Uploaded?
    requires forall i :: 0 <= i < |before| ==> !Mentions(before[i].name, sha, repo)
    ensures var u := AnalyzeCommit(owner, repo, sha, branch, details, diff, generate, bucket, timestamp, true).value.upload;
            FirstMatchContent(before + [u.blob], sha, repo) == Some(u.blob.content)
  {
    var u := AnalyzeCommit(owner, repo, sha, branch, details, diff, generate, bucket, timestamp, true).value.upload;
    UploadedCommitIsFound(before, [], branch, timestamp, repo, sha, u.blob.content);
    assert before + [u.blob] + [] == before + [u.blob];
  }
}
