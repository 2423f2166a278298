/**
 * gitlab_release_analyzer.py: release notes for a GitLab tag. The commits
 * between the previous release and this one are collected, the stored
 * documentation of each is summarised, and the notes are generated with the
 * project and pipeline context and uploaded with cleaned metadata.
 */
module GitLabReleaseAnalyzer {
  import opened Common
  import opened Text
  import opened Storage
  import opened Summarizer
  import opened Releases
  import Utils

  /** A JSON object as far as these functions read it. */
  type JsonObject = map<string, PyValue>

  /** `d.get(k)` */
  function Get(d: JsonObject, k: string): PyValue {
    if k in d then d[k] else PyNone
  }

  /** `d.get(k, default)` */
  function GetOr(d: JsonObject, k: string, default: PyValue): PyValue {
    if k in d then d[k] else default
  }

  /** `a or b` */
  function Or(a: PyValue, b: PyValue): PyValue {
    if a.Truthy() then a else b
  }

  // ---------------------------------------------------------------------
  // get_previous_release_tag_gitlab, get_commits_between_tags_gitlab
  // ---------------------------------------------------------------------

  /** `get_previous_release_tag_gitlab`: sorted on `released_at`; 404, other statuses and transport failures all raise GitLabAPIError. */
  method GetPreviousReleaseTagGitLab(resp: HttpResponse<seq<ReleaseJson>>, tag: string) returns (r: Result<Option<string>>)
    ensures r.Err? <==> !resp.IsOk()
    ensures r.Err? ==> r.error == GitLabApiError
    ensures r.Ok? ==> r.value == PrecedingTag(SortByKey(Keyed(resp.body, ReleasedAt)), tag)
  {
    r := GetPreviousReleaseTag(resp, tag, ReleasedAt, GitLabApiError);
  }

  /** `get_commits_between_tags_gitlab`: the commit ids of the release window. */
  function GetCommitsBetweenTagsGitLab(previousTag: Option<string>, listing: HttpResponse<seq<string>>,
                                       compare: HttpResponse<Option<seq<string>>>): (r: Result<seq<string>>)
    ensures previousTag.None? && listing.IsOk() ==> r == Ok(listing.body)
    ensures previousTag.Some? && compare.IsOk() ==> r == Ok(if compare.body.Some? then compare.body.value else [])
    ensures r.Err? ==> r.error == GitLabApiError
  {
    CommitWindow(previousTag, listing, compare, GitLabApiError)
  }

  // ---------------------------------------------------------------------
  // find_commit_documentation, read_gcs_file and the commit_docs loop
  // ---------------------------------------------------------------------

  /** `find_commit_documentation`: an unset bucket raises; otherwise the name of the first blob mentioning the sha and the project. */
  method FindCommitDocumentation(bucket: Option<string>, blobs: seq<Blob>, project: string, sha: string)
    returns (r: Result<Option<string>>)
    ensures !IsSet(bucket) ==> r == Err(GoogleCloudStorageError)
    ensures IsSet(bucket) ==> r == Ok(FirstMatchName(blobs, sha, project))
  {
    if !IsSet(bucket) {
      return Err(GoogleCloudStorageError);
    }
    var i := 0;
    while i < |blobs|
      invariant 0 <= i <= |blobs|
      invariant forall j :: 0 <= j < i ==> !Mentions(blobs[j].name, sha, project)
    {
      if Contains(blobs[i].name, sha) && Contains(blobs[i].name, project) {
        return Ok(Some(blobs[i].name));
      }
      i := i + 1;
    }
    return Ok(None);
  }

  /**
   * `read_gcs_file`: a missing bucket or blob name raises; an absent blob
   * reads as None; otherwise the blob's text summarised as documentation,
   * a failing summary being re-raised as a storage error.
   */
  function ReadGcsFile(bucket: Option<string>, blobs: seq<Blob>, name: string, llm: Llm): (r: Result<Option<string>>)
    ensures !IsSet(bucket) || name == "" ==> r == Err(GoogleCloudStorageError)
    ensures IsSet(bucket) && name != "" && ReadBlob(blobs, name).None? ==> r == Ok(None)
    ensures r.Ok? && r.value.Some? ==> ReadBlob(blobs, name).Some?
                                       && Utils.SummarizeWithLlm(ReadBlob(blobs, name).value, "documentation", llm) == r.value
    ensures IsSet(bucket) && name != "" && ReadBlob(blobs, name).Some? ==>
              var summary := Utils.SummarizeWithLlm(ReadBlob(blobs, name).value, "documentation", llm);
              && (summary.Some? ==> r == Ok(summary))
              && (summary.None? ==> r == Err(GoogleCloudStorageError))
    ensures r.Err? ==> r.error == GoogleCloudStorageError
  {
    if !IsSet(bucket) || name == "" then Err(GoogleCloudStorageError)
    else match ReadBlob(blobs, name)
      case None => Ok(None)
      case Some(text) =>
        match Utils.SummarizeWithLlm(text, "documentation", llm)
        case None => Err(GoogleCloudStorageError)
        case Some(summary) => Ok(Some(summary))
  }

  /**
   * What the loop appends for one commit: nothing when the lookup raised,
   * found nothing or the read raised; otherwise the read's result.
   */
  function DocEntry(bucket: Option<string>, blobs: seq<Blob>, project: string, llm: Llm, sha: string): Option<CommitDoc> {
    if !IsSet(bucket) then None
    else match FirstMatchName(blobs, sha, project)
      case None => None
      case Some(path) =>
        if path == "" then None
        else match ReadGcsFile(bucket, blobs, path, llm)
          case Err(_) => None
          case Ok(doc) => Some(CommitDoc(doc))
  }

  function CommitDocsOf(bucket: Option<string>, blobs: seq<Blob>, project: string, llm: Llm, shas: seq<string>): seq<CommitDoc>
    decreases |shas|
  {
    if |shas| == 0 then []
    else
      var rest := CommitDocsOf(bucket, blobs, project, llm, shas[..|shas| - 1]);
      match DocEntry(bucket, blobs, project, llm, shas[|shas| - 1])
      case None => rest
      case Some(e) => rest + [e]
  }

  /** The entries keep commit order: the docs of a concatenation are the concatenation of the docs. */
  lemma {:induction false} CommitDocsAppend(bucket: Option<string>, blobs: seq<Blob>, project: string, llm: Llm,
                                            a: seq<string>, b: seq<string>)
    ensures CommitDocsOf(bucket, blobs, project, llm, a + b)
            == CommitDocsOf(bucket, blobs, project, llm, a) + CommitDocsOf(bucket, blobs, project, llm, b)
    decreases |b|
  {
    if |b| == 0 {
      assert a + b == a;
    } else {
      var init := b[..|b| - 1];
      var last := b[|b| - 1];
      assert (a + b)[..|a + b| - 1] == a + init;
      assert (a + b)[|a + b| - 1] == last;
      CommitDocsAppend(bucket, blobs, project, llm, a, init);
      var e := DocEntry(bucket, blobs, project, llm, last);
      assert CommitDocsOf(bucket, blobs, project, llm, b)
             == CommitDocsOf(bucket, blobs, project, llm, init) + (if e.Some? then [e.value] else []);
      assert CommitDocsOf(bucket, blobs, project, llm, a + b)
             == CommitDocsOf(bucket, blobs, project, llm, a + init) + (if e.Some? then [e.value] else []);
    }
  }

  /** At most one entry per commit, and none at all when the commit bucket is unset. */
  lemma {:induction false} CommitDocsBound(bucket: Option<string>, blobs: seq<Blob>, project: string, llm: Llm, shas: seq<string>)
    ensures |CommitDocsOf(bucket, blobs, project, llm, shas)| <= |shas|
    ensures !IsSet(bucket) ==> CommitDocsOf(bucket, blobs, project, llm, shas) == []
    decreases |shas|
  {
    if |shas| > 0 {
      CommitDocsBound(bucket, blobs, project, llm, shas[..|shas| - 1]);
    }
  }

  /**
   * The listing and the read see the same bucket, so a name the lookup
   * returned is always readable: every entry carries a document, never None.
   */
  lemma {:induction false} EntriesCarryDocuments(bucket: Option<string>, blobs: seq<Blob>, project: string, llm: Llm, shas: seq<string>)
    ensures forall e :: e in CommitDocsOf(bucket, blobs, project, llm, shas) ==> e.documentation.Some?
    decreases |shas|
  {
    if |shas| > 0 {
      var sha := shas[|shas| - 1];
      EntriesCarryDocuments(bucket, blobs, project, llm, shas[..|shas| - 1]);
      if IsSet(bucket) && FirstMatchName(blobs, sha, project).Some? {
        FoundNameIsReadable(blobs, sha, project);
      }
    }
  }

  /** The commit_docs loop of `generate_gitlab_release_note`: a storage error skips that commit only. */
  method CollectCommitDocs(bucket: Option<string>, blobs: seq<Blob>, project: string, llm: Llm, shas: seq<string>)
    returns (commitDocs: seq<CommitDoc>)
    ensures commitDocs == CommitDocsOf(bucket, blobs, project, llm, shas)
  {
    commitDocs := [];
    var i := 0;
    while i < |shas|
      invariant 0 <= i <= |shas|
      invariant commitDocs == CommitDocsOf(bucket, blobs, project, llm, shas[..i])
    {
      assert shas[..i + 1][..i] == shas[..i];
      var sha := shas[i];
      var docPath := FindCommitDocumentation(bucket, blobs, project, sha);
      if docPath.Err? {
        i := i + 1;
        continue;
      }
      if docPath.value.Some? && docPath.value.value != "" {
        var docContent := ReadGcsFile(bucket, blobs, docPath.value.value, llm);
        if docContent.Err? {
          i := i + 1;
          continue;
        }
        commitDocs := commitDocs + [CommitDoc(docContent.value)];
      }
      i := i + 1;
    }
    assert shas[..i] == shas;
  }

  // ---------------------------------------------------------------------
  // Pipeline context
  // ---------------------------------------------------------------------

  const PipelineLead: string := "\nGenerated from pipeline #"
  const BranchLead: string := "\nDefault branch: "

  /** `{pipeline_id}: {pipeline_url}` */
  function PipelineRef(ctx: JsonObject): string {
    Str(Get(ctx, "pipeline_id")) + ": " + Str(Get(ctx, "pipeline_url"))
  }

  /** The pipeline context text for `context_data`. */
  function PipelineContext(ctx: JsonObject): string {
    (if Get(ctx, "pipeline_id").Truthy() && Get(ctx, "pipeline_url").Truthy()
     then PipelineLead + PipelineRef(ctx)
     else "")
    + (if Get(ctx, "default_branch").Truthy() then BranchLead + Str(Get(ctx, "default_branch")) else "")
  }

  /** The `pipeline_context` build: a pipeline line, then `+=` a default-branch line. */
  method BuildPipelineContext(ctx: JsonObject) returns (pipelineContext: string)
    ensures pipelineContext == PipelineContext(ctx)
  {
    pipelineContext := "";
    if Get(ctx, "pipeline_id").Truthy() && Get(ctx, "pipeline_url").Truthy() {
      pipelineContext := PipelineLead + PipelineRef(ctx);
    }
    if Get(ctx, "default_branch").Truthy() {
      pipelineContext := pipelineContext + BranchLead + Str(Get(ctx, "default_branch"));
    }
  }

  /** A string starts with whatever it is built from first. */
  lemma OpensWith(p: string, s: string)
    ensures IsPrefix(p, p + s)
  {
    assert (p + s)[..|p|] == p;
  }

  /** A string that differs from `p` at some position inside both does not start with `p`. */
  lemma DiffersAt(p: string, s: string, k: nat)
    requires k < |p| && k < |s| && p[k] != s[k]
    ensures !IsPrefix(p, s)
  {
    if |p| <= |s| {
      assert s[..|p|][k] != p[k];
    }
  }

  /**
   * The shape of the pipeline context: an optional pipeline line followed
   * by an optional branch line opens with the pipeline lead exactly when
   * the pipeline line is there.
   */
  lemma PipelineShape(both: bool, line: string, rest: string, branch: string)
    requires rest == "" || rest == BranchLead + branch
    ensures IsPrefix(PipelineLead, (if both then PipelineLead + line else "") + rest) <==> both
  {
    if both {
      assert PipelineLead + line + rest == PipelineLead + (line + rest);
      OpensWith(PipelineLead, line + rest);
    } else if rest != "" {
      assert "" + rest == rest;
      assert rest[1] == BranchLead[1];
      DiffersAt(PipelineLead, rest, 1);
    }
  }

  /** The text opens with a pipeline line exactly when both the pipeline id and its url are set. */
  lemma PipelineLineNeedsBoth(ctx: JsonObject)
    ensures IsPrefix(PipelineLead, PipelineContext(ctx)) <==>
              Get(ctx, "pipeline_id").Truthy() && Get(ctx, "pipeline_url").Truthy()
  {
    var both := Get(ctx, "pipeline_id").Truthy() && Get(ctx, "pipeline_url").Truthy();
    var branch := Str(Get(ctx, "default_branch"));
    var rest := if Get(ctx, "default_branch").Truthy() then BranchLead + branch else "";
    PipelineShape(both, PipelineRef(ctx), rest, branch);
  }

  /** The context is empty exactly when neither line applies. */
  /** A truthy `default_branch` puts its line at the very end of the context. */
  lemma BranchLineEndsContext(ctx: JsonObject)
    requires Get(ctx, "default_branch").Truthy()
    ensures var tail := BranchLead + Str(Get(ctx, "default_branch"));
            |tail| <= |PipelineContext(ctx)| && PipelineContext(ctx)[|PipelineContext(ctx)| - |tail|..] == tail
  {
    var tail := BranchLead + Str(Get(ctx, "default_branch"));
    var head := if Get(ctx, "pipeline_id").Truthy() && Get(ctx, "pipeline_url").Truthy() then PipelineLead + PipelineRef(ctx) else "";
    assert PipelineContext(ctx) == head + tail;
    assert (head + tail)[|head|..] == tail;
  }

  lemma PipelineContextEmpty(ctx: JsonObject)
    ensures PipelineContext(ctx) == "" <==>
              !(Get(ctx, "pipeline_id").Truthy() && Get(ctx, "pipeline_url").Truthy()) && !Get(ctx, "default_branch").Truthy()
  {
    if Get(ctx, "pipeline_id").Truthy() && Get(ctx, "pipeline_url").Truthy() {
      assert |PipelineContext(ctx)| >= |PipelineLead|;
    } else if Get(ctx, "default_branch").Truthy() {
      assert |PipelineContext(ctx)| >= |BranchLead|;
    }
  }

  // ---------------------------------------------------------------------
  // generate_note_gitlab
  // ---------------------------------------------------------------------

  /** The variables the release-notes prompt is filled with. */
  datatype ReleasePrompt = ReleasePrompt(projectName: string, releaseTag: string, releaseName: string, previousTag: string,
                                         releaseBody: string, commitDocs: seq<CommitDoc>, projectContext: string,
                                         pipelineContext: string)

  /**
   * `generate_note_gitlab`: a missing API key raises before anything is
   * generated; a failing model call is re-raised as AnalyzerError.
   */
  function GenerateNoteGitLab(apiKey: Option<string>, projectName: string, releaseTag: string, releaseName: string,
                              previousTag: Option<string>, releaseBody: string, commitDocs: seq<CommitDoc>,
                              projectContext: string, pipelineContext: string,
                              generate: ReleasePrompt -> Option<Reply>): (r: Result<string>)
    ensures !IsSet(apiKey) ==> r == Err(AnalyzerError)
    ensures r.Err? ==> r.error == AnalyzerError
    ensures r.Ok? ==> (IsSet(apiKey) &&
                       var p := ReleasePrompt(projectName, releaseTag, releaseName, PreviousTagText(previousTag), releaseBody,
                                              commitDocs, projectContext, pipelineContext);
                       generate(p).Some? && r.value == ContentOrStr(generate(p).value))
    ensures IsSet(apiKey) ==>
              var p := ReleasePrompt(projectName, releaseTag, releaseName, PreviousTagText(previousTag), releaseBody,
                                     commitDocs, projectContext, pipelineContext);
              (r.Ok? <==> generate(p).Some?)
  {
    if !IsSet(apiKey) then Err(AnalyzerError)
    else
      var p := ReleasePrompt(projectName, releaseTag, releaseName, PreviousTagText(previousTag), releaseBody,
                             commitDocs, projectContext, pipelineContext);
      match generate(p)
      case None => Err(AnalyzerError)
      case Some(reply) => Ok(ContentOrStr(reply))
  }

  // ---------------------------------------------------------------------
  // Metadata and upload_to_gcs_release
  // ---------------------------------------------------------------------

  const ReleaseMetadataKeys: seq<string> :=
    ["project_id", "project_name", "project_path", "release_tag", "release_name",
     "created_at", "pipeline_id", "pipeline_url", "commit_sha"]

  /** The `metadata` literal of `generate_gitlab_release_note`. */
  function ReleaseMetadata(projectId: PyValue, projectName: string, releaseTag: string, releaseName: string,
                           createdAt: PyValue, ctx: JsonObject): (m: Dict<PyValue>)
    ensures m.keys == ReleaseMetadataKeys
    ensures forall k :: k in m.values <==> k in m.keys
  {
    Dict(ReleaseMetadataKeys,
         map["project_id" := projectId,
             "project_name" := PyStr(projectName),
             "project_path" := GetOr(ctx, "project_path", PyStr("")),
             "release_tag" := PyStr(releaseTag),
             "release_name" := PyStr(releaseName),
             "created_at" := createdAt,
             "pipeline_id" := GetOr(ctx, "pipeline_id", PyStr("")),
             "pipeline_url" := GetOr(ctx, "pipeline_url", PyStr("")),
             "commit_sha" := GetOr(ctx, "commit_sha", PyStr(""))])
  }

  /** `clean_metadata` for the keys in `keys`: None values dropped, the rest passed through `str()`. */
  function Cleaned(keys: seq<string>, values: map<string, PyValue>): Dict<string>
    requires forall k :: k in keys ==> k in values
    decreases |keys|
  {
    if |keys| == 0 then EmptyDict()
    else
      var k := keys[|keys| - 1];
      var d := Cleaned(keys[..|keys| - 1], values);
      if values[k] != PyNone then d.Put(k, Str(values[k])) else d
  }

  /** A key survives cleaning exactly when its value is not None, and its value becomes `str(value)`. */
  lemma {:induction false} CleanedExactly(keys: seq<string>, values: map<string, PyValue>, k: string)
    requires forall k :: k in keys ==> k in values
    ensures Cleaned(keys, values).Valid()
    ensures k in Cleaned(keys, values).values <==> k in keys && values[k] != PyNone
    ensures k in Cleaned(keys, values).values ==> Cleaned(keys, values).values[k] == Str(values[k])
    decreases |keys|
  {
    if |keys| > 0 {
      var init := keys[..|keys| - 1];
      var last := keys[|keys| - 1];
      assert forall j :: j in init ==> j in keys;
      CleanedExactly(init, values, k);
      if values[last] != PyNone {
        PutValid(Cleaned(init, values), last, Str(values[last]));
      }
      assert forall j :: j in keys <==> j in init || j == last;
    }
  }

  /** The cleaning loop of `upload_to_gcs_release`. */
  method CleanMetadata(metadata: Dict<PyValue>) returns (clean: Dict<string>)
    requires forall k :: k in metadata.keys ==> k in metadata.values
    ensures clean == Cleaned(metadata.keys, metadata.values)
  {
    clean := EmptyDict();
    var i := 0;
    while i < |metadata.keys|
      invariant 0 <= i <= |metadata.keys|
      invariant clean == Cleaned(metadata.keys[..i], metadata.values)
    {
      assert metadata.keys[..i + 1][..i] == metadata.keys[..i];
      var key := metadata.keys[i];
      var value := metadata.values[key];
      if value != PyNone {
        clean := clean.Put(key, Str(value));
      }
      i := i + 1;
    }
    assert metadata.keys[..i] == metadata.keys;
  }

  /** What an upload of release notes records: the returned path, the blob name, its metadata and its text. */
  datatype ReleaseUpload = ReleaseUpload(path: string, blobName: string, metadata: Dict<string>, notes: string)

  /** `upload_to_gcs_release`; `uploadOk` says whether the storage write succeeds. */
  method UploadToGcsRelease(bucket: Option<string>, blobName: string, metadata: Dict<PyValue>, notes: string, uploadOk: bool)
    returns (r: Result<ReleaseUpload>)
    requires forall k :: k in metadata.keys ==> k in metadata.values
    ensures !IsSet(bucket) || !uploadOk ==> r == Err(GoogleCloudStorageError)
    ensures IsSet(bucket) && uploadOk ==>
              r == Ok(ReleaseUpload(GsPath(bucket.value, blobName), blobName, Cleaned(metadata.keys, metadata.values), notes))
  {
    if !IsSet(bucket) {
      return Err(GoogleCloudStorageError);
    }
    var clean := CleanMetadata(metadata);
    if !uploadOk {
      return Err(GoogleCloudStorageError);
    }
    return Ok(ReleaseUpload(GsPath(bucket.value, blobName), blobName, clean, notes));
  }

  // ---------------------------------------------------------------------
  // generate_gitlab_release_note
  // ---------------------------------------------------------------------

  /**
   * `generate_gitlab_release_note`. The hosting provider's answers are
   * `releases`, `listing` and `compare`; `commitBlobs` is the commit
   * bucket's listing, `readme` the README text, `llm` the summariser's
   * model, `generate` the release-notes model, `timestamp` the formatted
   * current time and `uploadOk` whether the storage write succeeds.
   */
  method GenerateGitLabReleaseNote(projectId: PyValue, projectName: string, releaseTag: string, releaseName: string,
                                   releaseBody: string, createdAt: PyValue, ctx: JsonObject,
                                   releases: HttpResponse<seq<ReleaseJson>>, listing: HttpResponse<seq<string>>,
                                   compare: HttpResponse<Option<seq<string>>>,
                                   commitBucket: Option<string>, commitBlobs: seq<Blob>, readme: string, llm: Llm,
                                   apiKey: Option<string>, generate: ReleasePrompt -> Option<Reply>,
                                   releaseBucket: Option<string>, timestamp: string, uploadOk: bool)
    returns (r: Result<ReleaseUpload>)
    ensures !releases.IsOk() ==> r == Err(GitLabApiError)
    ensures r.Err? ==> r.error in {GitLabApiError, GoogleCloudStorageError, AnalyzerError}
    ensures r.Ok? ==> releases.IsOk() && IsSet(apiKey) && IsSet(releaseBucket) && uploadOk
    ensures releases.IsOk() ==>
              var previous := PrecedingTag(SortByKey(Keyed(releases.body, ReleasedAt)), releaseTag);
              var window := GetCommitsBetweenTagsGitLab(previous, listing, compare);
              var summary := Utils.SummarizeWithLlm(readme, "readme", llm);
              && (window.Err? ==> r == Err(GitLabApiError))
              && (window.Ok? && summary.None? ==> r == Err(AnalyzerError))
              && (window.Ok? && summary.Some? ==>
                    var p := ReleasePrompt(projectName, releaseTag, releaseName, PreviousTagText(previous), releaseBody,
                                           CommitDocsOf(commitBucket, commitBlobs, projectName, llm, window.value),
                                           summary.value, PipelineContext(ctx));
                    var blobName := ReleaseBlobKey(projectName, releaseTag, timestamp);
                    var metadata := ReleaseMetadata(projectId, projectName, releaseTag, releaseName, createdAt, ctx);
                    && (!IsSet(apiKey) || generate(p).None? ==> r == Err(AnalyzerError))
                    && (IsSet(apiKey) && generate(p).Some? && !(IsSet(releaseBucket) && uploadOk) ==> r == Err(GoogleCloudStorageError))
                    && (IsSet(apiKey) && generate(p).Some? && IsSet(releaseBucket) && uploadOk ==>
                          r == Ok(ReleaseUpload(GsPath(releaseBucket.value, blobName), blobName,
                                                Cleaned(metadata.keys, metadata.values), ContentOrStr(generate(p).value)))))
  {
    var previousTag := GetPreviousReleaseTagGitLab(releases, releaseTag);
    if previousTag.Err? {
      return Err(previousTag.error);
    }
    var commits := GetCommitsBetweenTagsGitLab(previousTag.value, listing, compare);
    if commits.Err? {
      return Err(commits.error);
    }
    var commitDocs := CollectCommitDocs(commitBucket, commitBlobs, projectName, llm, commits.value);

    var projectContext := Utils.SummarizeWithLlm(readme, "readme", llm);
    if projectContext.None? {
      return Err(AnalyzerError);
    }
    var pipelineContext := BuildPipelineContext(ctx);

    var releaseNotes := GenerateNoteGitLab(apiKey, projectName, releaseTag, releaseName, previousTag.value, releaseBody,
                                           commitDocs, projectContext.value, pipelineContext, generate);
    if releaseNotes.Err? {
      return Err(releaseNotes.error);
    }
    ghost var p := ReleasePrompt(projectName, releaseTag, releaseName, PreviousTagText(previousTag.value), releaseBody,
                                 commitDocs, projectContext.value, pipelineContext);
    assert generate(p).Some? && releaseNotes.value == ContentOrStr(generate(p).value);

    var blobName := ReleaseBlobKey(projectName, releaseTag, timestamp);
    var metadata := ReleaseMetadata(projectId, projectName, releaseTag, releaseName, createdAt, ctx);
    r := UploadToGcsRelease(releaseBucket, blobName, metadata, releaseNotes.value, uploadOk);
  }

  // ---------------------------------------------------------------------
  // fetch_gitlab_release_data
  // ---------------------------------------------------------------------

  /** A release or tag object: its own fields, and those of its nested `commit` object (empty when absent). */
  datatype Details = Details(fields: JsonObject, commit: JsonObject)

  const RecordKeys: seq<string> :=
    ["project_id", "project_name", "project_path", "tag_name", "release_name", "description", "created_at", "commit_sha"]

  /**
   * The record returned when the tag has no release yet: the release's
   * fields without `released_at`.
   */
  function TagRecord(projectId: PyValue, name: PyValue, path: PyValue, tagName: string, description: PyValue,
                     createdAt: PyValue, sha: PyValue): (d: Dict<PyValue>)
    ensures forall k :: k in d.values <==> k in RecordKeys
    ensures "project_name" in d.values && "tag_name" in d.values && "release_name" in d.values && "commit_sha" in d.values
    ensures "released_at" !in d.values
    ensures d.values["tag_name"] == PyStr(tagName) && d.values["release_name"] == PyStr(tagName)
    ensures d.values["project_name"] == name && d.values["commit_sha"] == sha
  {
    Dict(RecordKeys,
         map["project_id" := projectId, "project_name" := name, "project_path" := path,
             "tag_name" := PyStr(tagName), "release_name" := PyStr(tagName), "description" := description,
             "created_at" := createdAt, "commit_sha" := sha])
  }

  /** The record built from a release object. */
  function ReleaseRecord(projectId: PyValue, name: PyValue, path: PyValue, tagName: string, release: Details,
                         commitSha: PyValue): (d: Dict<PyValue>)
    ensures forall k :: k in d.values <==> k in RecordKeys || k == "released_at"
    ensures "project_name" in d.values && "tag_name" in d.values && "release_name" in d.values
    ensures "released_at" in d.values && "commit_sha" in d.values
    ensures d.values["tag_name"] == PyStr(tagName) && d.values["project_name"] == name
    ensures d.values["commit_sha"] == Or(commitSha, Get(release.commit, "id"))
  {
    Dict(RecordKeys[..7] + ["released_at"] + RecordKeys[7..],
         map["project_id" := projectId, "project_name" := name, "project_path" := path,
             "tag_name" := PyStr(tagName),
             "release_name" := GetOr(release.fields, "name", PyStr(tagName)),
             "description" := GetOr(release.fields, "description", PyStr("")),
             "created_at" := Get(release.fields, "created_at"),
             "released_at" := Get(release.fields, "released_at"),
             "commit_sha" := Or(commitSha, Get(release.commit, "id"))])
  }

  /** Step 1 of `fetch_gitlab_release_data`: the project's name and path, fetched only when one is missing. */
  function ProjectIdentity(projectName: PyValue, projectPath: PyValue, projectResp: HttpResponse<JsonObject>): (r: Result<(PyValue, PyValue)>)
    ensures projectName.Truthy() && projectPath.Truthy() ==> r == Ok((projectName, projectPath))
    ensures r.Ok? && projectName.Truthy() ==> r.value.0 == projectName
    ensures r.Ok? && projectPath.Truthy() ==> r.value.1 == projectPath
    ensures !(projectName.Truthy() && projectPath.Truthy()) ==>
              (r.Ok? <==> projectResp.IsOk())
              && (r.Ok? ==> r.value == (Or(projectName, Get(projectResp.body, "name")),
                                        Or(projectPath, Get(projectResp.body, "path_with_namespace"))))
    ensures r.Err? ==> r.error == GitLabApiError && !projectResp.IsOk()
  {
    if projectName.Truthy() && projectPath.Truthy() then Ok((projectName, projectPath))
    else if !projectResp.IsOk() then Err(GitLabApiError)
    else Ok((Or(projectName, Get(projectResp.body, "name")), Or(projectPath, Get(projectResp.body, "path_with_namespace"))))
  }

  /**
   * `fetch_gitlab_release_data`. `projectResp` is consulted only when the
   * project name or path is missing, `tagResp` only when the release
   * answers 404; `now` is the current time in ISO form.
   */
  function FetchGitLabReleaseData(token: Option<string>, projectId: PyValue, tagName: string, projectName: PyValue,
                                  projectPath: PyValue, commitSha: PyValue, commitTimestamp: PyValue,
                                  projectResp: HttpResponse<JsonObject>, releaseResp: HttpResponse<Details>,
                                  tagResp: HttpResponse<Details>, now: string): (r: Result<Dict<PyValue>>)
    ensures !IsSet(token) ==> r == Err(GitLabApiError)
    ensures r.Err? ==> r.error == GitLabApiError
    ensures r.Ok? ==> && "tag_name" in r.value.values && "release_name" in r.value.values
                      && "project_name" in r.value.values && "commit_sha" in r.value.values
    ensures r.Ok? ==> r.value.values["tag_name"] == PyStr(tagName)
    ensures r.Ok? ==> ("released_at" in r.value.values <==> releaseResp.IsOk())
    ensures r.Ok? && commitSha.Truthy() ==> r.value.values["commit_sha"] == commitSha
    ensures r.Ok? && !releaseResp.IsOk() ==> r.value.values["release_name"] == PyStr(tagName)
    ensures r.Ok? && projectName.Truthy() ==> r.value.values["project_name"] == projectName
    ensures r.Ok? <==> && IsSet(token)
                       && ProjectIdentity(projectName, projectPath, projectResp).Ok?
                       && releaseResp.Response?
                       && (releaseResp.status == 200 || (releaseResp.status == 404 && tagResp.Response?))
    ensures r.Ok? ==> var identity := ProjectIdentity(projectName, projectPath, projectResp).value;
                      && "project_path" in r.value.values && "description" in r.value.values && "created_at" in r.value.values
                      && r.value.values["project_name"] == identity.0 && r.value.values["project_path"] == identity.1
    ensures r.Ok? && releaseResp.IsOk() ==>
              var release := releaseResp.body;
              && r.value.values["release_name"] == GetOr(release.fields, "name", PyStr(tagName))
              && r.value.values["description"] == GetOr(release.fields, "description", PyStr(""))
              && r.value.values["created_at"] == Get(release.fields, "created_at")
              && r.value.values["released_at"] == Get(release.fields, "released_at")
              && r.value.values["commit_sha"] == Or(commitSha, Get(release.commit, "id"))
    ensures r.Ok? && releaseResp.Response? && releaseResp.status == 404 && !tagResp.IsOk() ==>
              && r.value.values["description"] == PyStr("")
              && r.value.values["created_at"] == Or(commitTimestamp, PyStr(now))
              && r.value.values["commit_sha"] == commitSha
    ensures r.Ok? && releaseResp.Response? && releaseResp.status == 404 && tagResp.IsOk() ==>
              var tag := tagResp.body;
              && r.value.values["description"] == GetOr(tag.fields, "message", PyStr(""))
              && r.value.values["created_at"] == Or(Get(tag.commit, "created_at"), commitTimestamp)
              && r.value.values["commit_sha"] == Or(commitSha, Get(tag.commit, "id"))
  {
    if !IsSet(token) then Err(GitLabApiError)
    else match ProjectIdentity(projectName, projectPath, projectResp)
      case Err(e) => Err(e)
      case Ok((name, path)) =>
        match releaseResp
        case ConnectionFailed => Err(GitLabApiError)
        case Response(status, release) =>
          if status == 200 then Ok(ReleaseRecord(projectId, name, path, tagName, release, commitSha))
          else if status == 404 then
            match tagResp
            case ConnectionFailed => Err(GitLabApiError)
            case Response(tagStatus, tag) =>
              if tagStatus != 200 then
                Ok(TagRecord(projectId, name, path, tagName, PyStr(""), Or(commitTimestamp, PyStr(now)), commitSha))
              else
                Ok(TagRecord(projectId, name, path, tagName, GetOr(tag.fields, "message", PyStr("")),
                             Or(Get(tag.commit, "created_at"), commitTimestamp), Or(commitSha, Get(tag.commit, "id"))))
          else Err(GitLabApiError)
  }

  /** With the project's name and path both given, the project request plays no part. */
  lemma ProjectLookupOnlyWhenNeeded(token: Option<string>, projectId: PyValue, tagName: string, projectName: PyValue,
                                    projectPath: PyValue, commitSha: PyValue, commitTimestamp: PyValue,
                                    projectResp1: HttpResponse<JsonObject>, projectResp2: HttpResponse<JsonObject>,
                                    releaseResp: HttpResponse<Details>, tagResp: HttpResponse<Details>, now: string)
    requires projectName.Truthy() && projectPath.Truthy()
    ensures FetchGitLabReleaseData(token, projectId, tagName, projectName, projectPath, commitSha, commitTimestamp,
                                   projectResp1, releaseResp, tagResp, now)
         == FetchGitLabReleaseData(token, projectId, tagName, projectName, projectPath, commitSha, commitTimestamp,
                                   projectResp2, releaseResp, tagResp, now)
  {
  }
}
