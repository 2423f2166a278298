/**
 * github_release_analyzer.py: release notes for a GitHub tag. Nothing here
 * is caught: a failed request or model call propagates as a bare exception.
 */
module GitHubReleaseAnalyzer {
  import opened Common
  import opened Text
  import opened Storage
  import opened Summarizer
  import opened Releases

  /** `get_previous_release_tag`: sorted on `created_at`; any non-200 answer raises. */
  method GetPreviousReleaseTagGitHub(resp: HttpResponse<seq<ReleaseJson>>, tag: string) returns (r: Result<Option<string>>)
    ensures r.Err? <==> !resp.IsOk()
    ensures r.Err? ==> r.error == GenericError
    ensures r.Ok? ==> r.value == PrecedingTag(SortByKey(Keyed(resp.body, CreatedAt)), tag)
  {
    r := GetPreviousReleaseTag(resp, tag, CreatedAt, GenericError);
  }

  /** `get_commits_between_tags`: the commit shas of the release window. */
  function GetCommitsBetweenTags(previousTag: Option<string>, listing: HttpResponse<seq<string>>,
                                 compare: HttpResponse<Option<seq<string>>>): (r: Result<seq<string>>)
    ensures previousTag.None? && listing.IsOk() ==> r == Ok(listing.body)
    ensures previousTag.Some? && compare.IsOk() ==> r == Ok(if compare.body.Some? then compare.body.value else [])
    ensures r.Err? ==> r.error == GenericError
  {
    CommitWindow(previousTag, listing, compare, GenericError)
  }

  /**
   * `find_commit_documentation`: the name of the first blob that mentions
   * the sha and the repository name. The owner takes no part in the match.
   */
  method FindCommitDocumentation(blobs: seq<Blob>, owner: string, repo: string, sha: string) returns (r: Option<string>)
    ensures r == FirstMatchName(blobs, sha, repo)
  {
    var i := 0;
    while i < |blobs|
      invariant 0 <= i <= |blobs|
      invariant forall j :: 0 <= j < i ==> !Mentions(blobs[j].name, sha, repo)
    {
      if Contains(blobs[i].name, sha) && Contains(blobs[i].name, repo) {
        return Some(blobs[i].name);
      }
      i := i + 1;
    }
    return None;
  }

  /** `read_gcs_file`: the blob's text, unsummarised; None when no blob has that name. */
  function ReadGcsFile(blobs: seq<Blob>, name: string): (r: Option<string>)
    ensures r.None? <==> forall i :: 0 <= i < |blobs| ==> blobs[i].name != name
    ensures r.Some? ==> exists i :: 0 <= i < |blobs| && blobs[i].name == name && blobs[i].content == r.value
  {
    ReadBlob(blobs, name)
  }

  /** What the loop appends for one commit: the file read for a found, non-empty name. */
  function DocEntry(blobs: seq<Blob>, repo: string, sha: string): Option<CommitDoc> {
    match FirstMatchName(blobs, sha, repo)
    case None => None
    case Some(path) => if path == "" then None else Some(CommitDoc(ReadGcsFile(blobs, path)))
  }

  function CommitDocsOf(blobs: seq<Blob>, repo: string, shas: seq<string>): seq<CommitDoc>
    decreases |shas|
  {
    if |shas| == 0 then []
    else
      var rest := CommitDocsOf(blobs, repo, shas[..|shas| - 1]);
      match DocEntry(blobs, repo, shas[|shas| - 1])
      case None => rest
      case Some(e) => rest + [e]
  }

  /** The commit_docs loop of `generate_release_note`. */
  method CollectCommitDocs(blobs: seq<Blob>, owner: string, repo: string, shas: seq<string>) returns (commitDocs: seq<CommitDoc>)
    ensures commitDocs == CommitDocsOf(blobs, repo, shas)
  {
    commitDocs := [];
    var i := 0;
    while i < |shas|
      invariant 0 <= i <= |shas|
      invariant commitDocs == CommitDocsOf(blobs, repo, shas[..i])
    {
      assert shas[..i + 1][..i] == shas[..i];
      var docPath := FindCommitDocumentation(blobs, owner, repo, shas[i]);
      if docPath.Some? && docPath.value != "" {
        var docContent := ReadGcsFile(blobs, docPath.value);
        commitDocs := commitDocs + [CommitDoc(docContent)];
      }
      i := i + 1;
    }
    assert shas[..i] == shas;
  }

  /** The entries keep commit order: the docs of a concatenation are the concatenation of the docs. */
  lemma {:induction false} CommitDocsAppend(blobs: seq<Blob>, repo: string, a: seq<string>, b: seq<string>)
    ensures CommitDocsOf(blobs, repo, a + b) == CommitDocsOf(blobs, repo, a) + CommitDocsOf(blobs, repo, b)
    decreases |b|
  {
    if |b| == 0 {
      assert a + b == a;
    } else {
      var init := b[..|b| - 1];
      var last := b[|b| - 1];
      assert (a + b)[..|a + b| - 1] == a + init;
      assert (a + b)[|a + b| - 1] == last;
      CommitDocsAppend(blobs, repo, a, init);
      var e := DocEntry(blobs, repo, last);
      assert CommitDocsOf(blobs, repo, b) == CommitDocsOf(blobs, repo, init) + (if e.Some? then [e.value] else []);
      assert CommitDocsOf(blobs, repo, a + b) == CommitDocsOf(blobs, repo, a + init) + (if e.Some? then [e.value] else []);
    }
  }

  /**
   * One entry per commit whose documentation was found, and each entry is
   * the content of a stored blob (the name found is always readable).
   */
  lemma {:induction false} CommitDocsAreFound(blobs: seq<Blob>, repo: string, shas: seq<string>)
    ensures |CommitDocsOf(blobs, repo, shas)| <= |shas|
    ensures forall e :: e in CommitDocsOf(blobs, repo, shas) ==>
              e.documentation.Some? &&
              exists k, i :: 0 <= k < |shas| && 0 <= i < |blobs| && Mentions(blobs[i].name, shas[k], repo)
                             && blobs[i].content == e.documentation.value
    decreases |shas|
  {
    if |shas| > 0 {
      var n := |shas| - 1;
      var sha := shas[n];
      var init := shas[..n];
      CommitDocsAreFound(blobs, repo, init);
      forall e | e in CommitDocsOf(blobs, repo, init)
        ensures exists k, i :: 0 <= k < |shas| && 0 <= i < |blobs| && Mentions(blobs[i].name, shas[k], repo)
                               && blobs[i].content == e.documentation.value
      {
        var k, i :| 0 <= k < |init| && 0 <= i < |blobs| && Mentions(blobs[i].name, init[k], repo)
                    && blobs[i].content == e.documentation.value;
        assert init[k] == shas[k];
      }
      if FirstMatchName(blobs, sha, repo).Some? {
        FoundNameIsReadable(blobs, sha, repo);
        var name := FirstMatchName(blobs, sha, repo).value;
        var j := FirstMatch(blobs, sha, repo).value;
        var i :| 0 <= i < |blobs| && blobs[i].name == name && blobs[i].content == ReadBlob(blobs, name).value;
        assert blobs[i].name == blobs[j].name;
        assert Mentions(blobs[i].name, shas[n], repo);
      }
    }
  }

  /** A commit with no stored documentation contributes nothing. */
  lemma UndocumentedCommitAddsNothing(blobs: seq<Blob>, repo: string, shas: seq<string>, sha: string)
    requires forall i :: 0 <= i < |blobs| ==> !Mentions(blobs[i].name, sha, repo)
    ensures CommitDocsOf(blobs, repo, shas + [sha]) == CommitDocsOf(blobs, repo, shas)
  {
    assert (shas + [sha])[..|shas|] == shas;
  }

  /** The variables the release-notes prompt is filled with. */
  datatype NotePrompt = NotePrompt(repoName: string, releaseTag: string, releaseName: string, previousTag: string,
                                   releaseBody: string, commitDocs: seq<CommitDoc>)

  /** `generate_note`: a failing model call propagates. */
  function GenerateNote(repoName: string, releaseTag: string, releaseName: string, previousTag: Option<string>,
                        releaseBody: string, commitDocs: seq<CommitDoc>, generate: NotePrompt -> Option<Reply>): (r: Result<string>)
    ensures r.Err? ==> r.error == GenericError
    ensures var p := NotePrompt(repoName, releaseTag, releaseName, PreviousTagText(previousTag), releaseBody, commitDocs);
            (r.Ok? <==> generate(p).Some?) && (r.Ok? ==> r.value == ContentOrStr(generate(p).value))
  {
    match generate(NotePrompt(repoName, releaseTag, releaseName, PreviousTagText(previousTag), releaseBody, commitDocs))
    case None => Err(GenericError)
    case Some(reply) => Ok(ContentOrStr(reply))
  }

  const GitHubMetadataKeys: seq<string> := ["repo_owner", "repo_name", "release_tag", "release_name", "created_at"]

  /** The `metadata` of `upload_to_gcs`: five keys, values as given (not passed through `str()`). */
  function GitHubReleaseMetadata(owner: string, repo: string, releaseTag: string, releaseName: string, createdAt: PyValue): (m: Dict<PyValue>)
    ensures m.keys == GitHubMetadataKeys
    ensures forall k :: k in m.values <==> k in GitHubMetadataKeys
    ensures "created_at" in m.values && m.values["created_at"] == createdAt
  {
    Dict(GitHubMetadataKeys,
         map["repo_owner" := PyStr(owner), "repo_name" := PyStr(repo), "release_tag" := PyStr(releaseTag),
             "release_name" := PyStr(releaseName), "created_at" := createdAt])
  }

  /** What the release upload records: the returned path, the blob name, its metadata and its text. */
  datatype GitHubReleaseUpload = GitHubReleaseUpload(path: string, blobName: string, metadata: Dict<PyValue>, notes: string)

  /**
   * `generate_release_note`. `releases`, `listing` and `compare` are the
   * hosting provider's answers, `commitBlobs` the commit bucket's listing,
   * `generate` the release-notes model, `timestamp` the formatted current
   * time, `uploadOk` whether the storage write succeeds.
   */
  method GenerateReleaseNote(owner: string, repo: string, releaseTag: string, releaseName: string, releaseBody: string,
                             createdAt: PyValue, releases: HttpResponse<seq<ReleaseJson>>, listing: HttpResponse<seq<string>>,
                             compare: HttpResponse<Option<seq<string>>>, commitBlobs: seq<Blob>,
                             generate: NotePrompt -> Option<Reply>, releaseBucket: string, timestamp: string, uploadOk: bool)
    returns (r: Result<GitHubReleaseUpload>)
    ensures !releases.IsOk() ==> r == Err(GenericError)
    ensures r.Err? ==> r.error == GenericError
    ensures r.Ok? ==> releases.IsOk() && uploadOk
    ensures r.Ok? ==>
              var previous := PrecedingTag(SortByKey(Keyed(releases.body, CreatedAt)), releaseTag);
              var blobName := ReleaseBlobKey(repo, releaseTag, timestamp);
              && GetCommitsBetweenTags(previous, listing, compare).Ok?
              && r.value.blobName == blobName
              && r.value.path == GsPath(releaseBucket, blobName)
              && r.value.metadata == GitHubReleaseMetadata(owner, repo, releaseTag, releaseName, createdAt)
              && var p := NotePrompt(repo, releaseTag, releaseName, PreviousTagText(previous), releaseBody,
                                     CommitDocsOf(commitBlobs, repo, GetCommitsBetweenTags(previous, listing, compare).value));
                 generate(p).Some? && r.value.notes == ContentOrStr(generate(p).value)
    ensures releases.IsOk() ==>
              var previous := PrecedingTag(SortByKey(Keyed(releases.body, CreatedAt)), releaseTag);
              var window := GetCommitsBetweenTags(previous, listing, compare);
              && (window.Err? ==> r == Err(GenericError))
              && (window.Ok? ==>
                    var p := NotePrompt(repo, releaseTag, releaseName, PreviousTagText(previous), releaseBody,
                                        CommitDocsOf(commitBlobs, repo, window.value));
                    && (generate(p).None? || !uploadOk ==> r == Err(GenericError))
                    && (generate(p).Some? && uploadOk ==> r.Ok?))
  {
    var previousTag := GetPreviousReleaseTagGitHub(releases, releaseTag);
    if previousTag.Err? {
      return Err(previousTag.error);
    }
    var commits := GetCommitsBetweenTags(previousTag.value, listing, compare);
    if commits.Err? {
      return Err(commits.error);
    }
    var commitDocs := CollectCommitDocs(commitBlobs, owner, repo, commits.value);
    var releaseNotes := GenerateNote(repo, releaseTag, releaseName, previousTag.value, releaseBody, commitDocs, generate);
    if releaseNotes.Err? {
      return Err(releaseNotes.error);
    }
    var blobName := ReleaseBlobKey(repo, releaseTag, timestamp);
    if !uploadOk {
      return Err(GenericError);
    }
    var metadata := GitHubReleaseMetadata(owner, repo, releaseTag, releaseName, createdAt);
    return Ok(GitHubReleaseUpload(GsPath(releaseBucket, blobName), blobName, metadata, releaseNotes.value));
  }
}
