/**
 * gitlab_analyzer.py: documentation for one GitLab commit. Besides the
 * commit's own metadata and diff, the model is given the documentation
 * already written for earlier commits that touched the same files: at most
 * five changed files, at most two earlier commits per file, each distinct
 * commit looked up in the bucket once, and the documents found re-attached
 * to every file that referenced them.
 */
module GitLabAnalyzer {
  import opened Common
  import opened Text
  import opened Storage
  import opened Summarizer
  import Utils

  /** One entry of GitLab's commit diff: `old_path`, `new_path` (None when absent) and `diff`. */
  datatype FileDiff = FileDiff(oldPath: Option<string>, newPath: Option<string>, diff: string)

  // ---------------------------------------------------------------------
  // get_changed_files_from_gitlab_commit
  // ---------------------------------------------------------------------

  /** The non-empty `new_path` values, in response order. */
  function NewPaths(diffs: seq<FileDiff>): seq<string>
    decreases |diffs|
  {
    if |diffs| == 0 then []
    else
      var rest := NewPaths(diffs[1..]);
      if diffs[0].newPath.Some? && diffs[0].newPath.value != "" then [diffs[0].newPath.value] + rest else rest
  }

  lemma {:induction false} NewPathsAppend(a: seq<FileDiff>, b: seq<FileDiff>)
    ensures NewPaths(a + b) == NewPaths(a) + NewPaths(b)
    decreases |a|
  {
    if |a| > 0 {
      assert (a + b)[1..] == a[1..] + b;
      NewPathsAppend(a[1..], b);
    } else {
      assert a + b == b;
    }
  }

  /** A path is listed exactly when some entry has it as a non-empty `new_path`. */
  lemma {:induction false} NewPathsExactly(diffs: seq<FileDiff>, p: string)
    ensures p in NewPaths(diffs) <==> p != "" && exists i :: 0 <= i < |diffs| && diffs[i].newPath == Some(p)
    decreases |diffs|
  {
    if |diffs| > 0 {
      NewPathsExactly(diffs[1..], p);
      if exists i :: 0 <= i < |diffs| && diffs[i].newPath == Some(p) {
        var i :| 0 <= i < |diffs| && diffs[i].newPath == Some(p);
        if i > 0 {
          assert diffs[1..][i - 1].newPath == Some(p);
        }
      }
      if exists i :: 0 <= i < |diffs[1..]| && diffs[1..][i].newPath == Some(p) {
        var i :| 0 <= i < |diffs[1..]| && diffs[1..][i].newPath == Some(p);
        assert diffs[i + 1].newPath == Some(p);
      }
    }
  }

  /** `get_changed_files_from_gitlab_commit`: any failure of the diff request is a GitLab API error. */
  method GetChangedFiles(resp: HttpResponse<seq<FileDiff>>) returns (r: Result<seq<string>>)
    ensures resp.IsOk() ==> r == Ok(NewPaths(resp.body))
    ensures !resp.IsOk() ==> r == Err(GitLabApiError)
  {
    if resp.ConnectionFailed? || resp.status != 200 {
      return Err(GitLabApiError);
    }
    var diffs := resp.body;
    var changed: seq<string> := [];
    var i := 0;
    while i < |diffs|
      invariant 0 <= i <= |diffs|
      invariant changed == NewPaths(diffs[..i])
    {
      NewPathsAppend(diffs[..i], [diffs[i]]);
      assert diffs[..i + 1] == diffs[..i] + [diffs[i]];
      var path := diffs[i].newPath;
      if path.Some? && path.value != "" {
        changed := changed + [path.value];
      }
      i := i + 1;
    }
    assert diffs[..|diffs|] == diffs;
    return Ok(changed);
  }

  // ---------------------------------------------------------------------
  // get_previous_commits_for_file_gitlab
  // ---------------------------------------------------------------------

  /** The ids other than `current`, in order. */
  function Without(ids: seq<string>, current: string): (r: seq<string>)
    ensures current !in r
    ensures forall x :: x in r ==> x in ids
    decreases |ids|
  {
    if |ids| == 0 then []
    else
      var rest := Without(ids[..|ids| - 1], current);
      if ids[|ids| - 1] == current then rest else rest + [ids[|ids| - 1]]
  }

  lemma {:induction false} WithoutAppend(a: seq<string>, b: seq<string>, current: string)
    ensures Without(a + b, current) == Without(a, current) + Without(b, current)
    decreases |b|
  {
    if |b| == 0 {
      assert a + b == a;
    } else {
      assert (a + b)[..|a + b| - 1] == a + b[..|b| - 1];
      WithoutAppend(a, b[..|b| - 1], current);
    }
  }

  /**
   * What the lookup for one file yields: on a 200 listing, the first two ids
   * other than the current commit, in listing order; otherwise nothing.
   */
  function Predecessors(resp: HttpResponse<seq<string>>, current: string): (r: seq<string>)
    ensures |r| <= 2 && current !in r
    ensures resp.IsOk() ==> |r| <= |Without(resp.body, current)| && r == Without(resp.body, current)[..|r|]
    ensures resp.IsOk() ==> forall x :: x in r ==> x in resp.body
    ensures !resp.IsOk() ==> r == []
  {
    if resp.IsOk() then Take(Without(resp.body, current), 2) else []
  }

  /** `get_previous_commits_for_file_gitlab`: an error status or a transport failure yields []. */
  method GetPreviousCommitsForFile(resp: HttpResponse<seq<string>>, current: string) returns (prev: seq<string>)
    ensures prev == Predecessors(resp, current)
  {
    if resp.ConnectionFailed? || resp.status != 200 {
      return [];
    }
    var ids := resp.body;
    prev := [];
    var i := 0;
    while i < |ids|
      invariant 0 <= i <= |ids|
      invariant prev == Without(ids[..i], current)
      invariant |prev| < 2
    {
      WithoutAppend(ids[..i], [ids[i]], current);
      assert ids[..i + 1] == ids[..i] + [ids[i]];
      if ids[i] == current {
        i := i + 1;
        continue;
      }
      prev := prev + [ids[i]];
      if |prev| >= 2 {
        WithoutAppend(ids[..i + 1], ids[i + 1..], current);
        assert ids[..i + 1] + ids[i + 1..] == ids;
        assert Take(Without(ids, current), 2) == prev;
        break;
      }
      i := i + 1;
    }
    if i == |ids| {
      assert ids[..i] == ids;
    }
  }

  // ---------------------------------------------------------------------
  // get_previous_documentation_for_files_gitlab
  // ---------------------------------------------------------------------

  /** Step 1: `file_to_commits` after the loop over `files`. */
  function FileToCommitsOf(files: seq<string>, history: string -> HttpResponse<seq<string>>, current: string): Dict<seq<string>>
    decreases |files|
  {
    if |files| == 0 then EmptyDict()
    else
      var f := files[|files| - 1];
      FileToCommitsOf(files[..|files| - 1], history, current).Put(f, Take(Predecessors(history(f), current), 2))
  }

  lemma {:induction false} FileToCommitsFacts(files: seq<string>, history: string -> HttpResponse<seq<string>>, current: string)
    ensures FileToCommitsOf(files, history, current).Valid()
    ensures |FileToCommitsOf(files, history, current).keys| <= |files|
    ensures forall f :: f in FileToCommitsOf(files, history, current).values <==> f in files
    ensures forall f :: f in FileToCommitsOf(files, history, current).values ==>
              FileToCommitsOf(files, history, current).values[f] == Predecessors(history(f), current)
    decreases |files|
  {
    if |files| > 0 {
      var init := files[..|files| - 1];
      FileToCommitsFacts(init, history, current);
      PutValid(FileToCommitsOf(init, history, current), files[|files| - 1], Take(Predecessors(history(files[|files| - 1]), current), 2));
      assert files == init + [files[|files| - 1]];
    }
  }

  /** Step 2: every sha referenced by the files in `keys`. */
  function ShasOf(keys: seq<string>, values: map<string, seq<string>>): set<string>
    requires forall k :: k in keys ==> k in values
    decreases |keys|
  {
    if |keys| == 0 then {}
    else ShasOf(keys[..|keys| - 1], values) + Elements(values[keys[|keys| - 1]])
  }

  lemma {:induction false} ShasOfExactly(keys: seq<string>, values: map<string, seq<string>>, s: string)
    requires forall k :: k in keys ==> k in values
    ensures s in ShasOf(keys, values) <==> exists k :: k in keys && s in values[k]
    decreases |keys|
  {
    if |keys| > 0 {
      var init := keys[..|keys| - 1];
      ShasOfExactly(init, values, s);
      assert forall k :: k in keys <==> k in init || k == keys[|keys| - 1];
    }
  }

  /** Two shas at most per file: never more distinct shas than twice the number of files. */
  lemma {:induction false} ShasOfBound(keys: seq<string>, values: map<string, seq<string>>)
    requires forall k :: k in keys ==> k in values && |values[k]| <= 2
    ensures |ShasOf(keys, values)| <= 2 * |keys|
    decreases |keys|
  {
    if |keys| > 0 {
      ShasOfBound(keys[..|keys| - 1], values);
      ElementsCard(values[keys[|keys| - 1]]);
    }
  }

  /** Step 2 as written: the union, over `file_to_commits.values()`, of each list's shas. */
  method UniqueCommits(ftc: Dict<seq<string>>) returns (unique: set<string>)
    requires ftc.Valid()
    ensures unique == ShasOf(ftc.keys, ftc.values)
  {
    unique := {};
    var i := 0;
    while i < |ftc.keys|
      invariant 0 <= i <= |ftc.keys|
      invariant unique == ShasOf(ftc.keys[..i], ftc.values)
    {
      assert ftc.keys[..i + 1][..i] == ftc.keys[..i];
      unique := unique + Elements(ftc.values[ftc.keys[i]]);
      i := i + 1;
    }
    assert ftc.keys[..i] == ftc.keys;
  }

  /** `find_commit_documentation_in_gcs`: the content of the first blob whose name mentions the sha and the project. */
  method FindCommitDocumentationInGcs(blobs: seq<Blob>, project: string, sha: string) returns (doc: Option<string>)
    ensures doc == FirstMatchContent(blobs, sha, project)
  {
    var i := 0;
    while i < |blobs|
      invariant 0 <= i <= |blobs|
      invariant forall j :: 0 <= j < i ==> !Mentions(blobs[j].name, sha, project)
    {
      if Contains(blobs[i].name, sha) && Contains(blobs[i].name, project) {
        return Some(blobs[i].content);
      }
      i := i + 1;
    }
    return None;
  }

  /** What step 3 keeps for a sha: a found document, when it is not empty (`if doc:`). */
  function DocFor(blobs: seq<Blob>, project: string, sha: string): (r: Option<string>)
    ensures r.Some? ==> r.value != ""
  {
    match FirstMatchContent(blobs, sha, project)
    case Some(d) => if d != "" then Some(d) else None
    case None => None
  }

  /** Step 3's `commit_to_docs` for the set `unique`. */
  function DocsFound(unique: set<string>, blobs: seq<Blob>, project: string): map<string, string> {
    map s | s in unique && DocFor(blobs, project, s).Some? :: DocFor(blobs, project, s).value
  }

  /**
   * Step 3: one storage scan per distinct sha, in the set's (unspecified)
   * iteration order. `queried` lists the shas scanned for, in order.
   */
  method FetchDocs(unique: set<string>, blobs: seq<Blob>, project: string) returns (docs: map<string, string>, queried: seq<string>)
    ensures NoDuplicates(queried) && Elements(queried) == unique
    ensures docs == DocsFound(unique, blobs, project)
  {
    var remaining := unique;
    docs := map[];
    queried := [];
    while remaining != {}
      invariant remaining <= unique
      invariant Elements(queried) == unique - remaining
      invariant NoDuplicates(queried)
      invariant forall s :: s in docs <==> s in queried && DocFor(blobs, project, s).Some?
      invariant forall s :: s in docs ==> docs[s] == DocFor(blobs, project, s).value
      decreases remaining
    {
      var sha :| sha in remaining;
      var doc := FindCommitDocumentationInGcs(blobs, project, sha);
      if doc.Some? && doc.value != "" {
        docs := docs[sha := doc.value];
      }
      assert Elements(queried + [sha]) == Elements(queried) + {sha};
      queried := queried + [sha];
      remaining := remaining - {sha};
    }
    assert forall s :: s in queried <==> s in Elements(queried);
    assert forall s :: s in docs <==> s in DocsFound(unique, blobs, project);
  }

  const DocRule: string := "\n\n---\n\n"

  /** `f"Documentation for commit {commit_sha[:7]}:\n{doc}"` */
  function DocLabel(sha: string, doc: string): string {
    "Documentation for commit " + Take(sha, 7) + ":\n" + doc
  }

  /** Step 4's `file_docs` for one file: a labelled piece per sha that has a document, in the file's order. */
  function LabelledDocs(commits: seq<string>, docs: map<string, string>): seq<string>
    decreases |commits|
  {
    if |commits| == 0 then []
    else
      var rest := LabelledDocs(commits[..|commits| - 1], docs);
      var s := commits[|commits| - 1];
      if s in docs then rest + [DocLabel(s, docs[s])] else rest
  }

  lemma {:induction false} LabelledDocsEmpty(commits: seq<string>, docs: map<string, string>)
    ensures LabelledDocs(commits, docs) == [] <==> forall s :: s in commits ==> s !in docs
    decreases |commits|
  {
    if |commits| > 0 {
      var init := commits[..|commits| - 1];
      LabelledDocsEmpty(init, docs);
      assert forall s :: s in commits <==> s in init || s == commits[|commits| - 1];
    }
  }

  method FileDocs(commits: seq<string>, docs: map<string, string>) returns (fileDocs: seq<string>)
    ensures fileDocs == LabelledDocs(commits, docs)
  {
    fileDocs := [];
    var i := 0;
    while i < |commits|
      invariant 0 <= i <= |commits|
      invariant fileDocs == LabelledDocs(commits[..i], docs)
    {
      assert commits[..i + 1][..i] == commits[..i];
      if commits[i] in docs {
        fileDocs := fileDocs + [DocLabel(commits[i], docs[commits[i]])];
      }
      i := i + 1;
    }
    assert commits[..i] == commits;
  }

  /**
   * Step 4 over the files in `keys`: files with at least one document get
   * the summary of their joined pieces; None once a summary call raises.
   */
  function PreviousDocsOf(keys: seq<string>, ftc: map<string, seq<string>>, docs: map<string, string>, llm: Llm): Option<Dict<string>>
    requires forall k :: k in keys ==> k in ftc
    decreases |keys|
  {
    if |keys| == 0 then Some(EmptyDict())
    else match PreviousDocsOf(keys[..|keys| - 1], ftc, docs, llm)
      case None => None
      case Some(d) =>
        var f := keys[|keys| - 1];
        var fileDocs := LabelledDocs(ftc[f], docs);
        if |fileDocs| == 0 then Some(d)
        else match Utils.SummarizeWithLlm(Join(DocRule, fileDocs), "documentation", llm)
          case None => None
          case Some(summary) => Some(d.Put(f, summary))
  }

  /** A file has an entry exactly when one of its shas has a document, and the entry is the summary of its pieces. */
  lemma {:induction false} PreviousDocsOfEntries(keys: seq<string>, ftc: map<string, seq<string>>,
                                                 docs: map<string, string>, llm: Llm, f: string)
    requires forall k :: k in keys ==> k in ftc
    requires PreviousDocsOf(keys, ftc, docs, llm).Some?
    ensures var d := PreviousDocsOf(keys, ftc, docs, llm).value;
            && (f in d.values <==> f in keys && LabelledDocs(ftc[f], docs) != [])
            && (f in d.values ==> Utils.SummarizeWithLlm(Join(DocRule, LabelledDocs(ftc[f], docs)), "documentation", llm)
                                  == Some(d.values[f]))
            && (forall k :: k in d.values <==> k in d.keys)
    decreases |keys|
  {
    if |keys| > 0 {
      var init := keys[..|keys| - 1];
      assert forall k :: k in init ==> k in keys;
      PreviousDocsOfEntries(init, ftc, docs, llm, f);
      assert forall k :: k in keys <==> k in init || k == keys[|keys| - 1];
    }
  }

  method SummarizeFileDocs(ftc: Dict<seq<string>>, docs: map<string, string>, llm: Llm) returns (r: Option<Dict<string>>)
    requires ftc.Valid()
    ensures r == PreviousDocsOf(ftc.keys, ftc.values, docs, llm)
  {
    var previousDocs := EmptyDict();
    var i := 0;
    while i < |ftc.keys|
      invariant 0 <= i <= |ftc.keys|
      invariant PreviousDocsOf(ftc.keys[..i], ftc.values, docs, llm) == Some(previousDocs)
    {
      PreviousDocsOfStep(ftc.keys, i, ftc.values, docs, llm);
      var f := ftc.keys[i];
      var fileDocs := FileDocs(ftc.values[f], docs);
      if fileDocs != [] {
        var combined := Join(DocRule, fileDocs);
        var summary := Utils.SummarizeWithLlm(combined, "documentation", llm);
        if summary.None? {
          PreviousDocsFailureSticks(ftc.keys, i + 1, ftc.values, docs, llm);
          return None;
        }
        previousDocs := previousDocs.Put(f, summary.value);
      }
      i := i + 1;
    }
    assert ftc.keys[..i] == ftc.keys;
    return Some(previousDocs);
  }

  /** One more file: the fold over `keys[..i + 1]` in terms of the fold over `keys[..i]`. */
  lemma PreviousDocsOfStep(keys: seq<string>, i: nat, ftc: map<string, seq<string>>, docs: map<string, string>, llm: Llm)
    requires forall k :: k in keys ==> k in ftc
    requires i < |keys|
    ensures forall k :: k in keys[..i] ==> k in ftc
    ensures PreviousDocsOf(keys[..i + 1], ftc, docs, llm)
            == match PreviousDocsOf(keys[..i], ftc, docs, llm)
               case None => None
               case Some(d) =>
                 var fileDocs := LabelledDocs(ftc[keys[i]], docs);
                 if |fileDocs| == 0 then Some(d)
                 else match Utils.SummarizeWithLlm(Join(DocRule, fileDocs), "documentation", llm)
                   case None => None
                   case Some(summary) => Some(d.Put(keys[i], summary))
  {
    assert keys[..i + 1][..i] == keys[..i];
  }

  /** Once a summary call has raised, so does the whole step. */
  lemma {:induction false} PreviousDocsFailureSticks(keys: seq<string>, n: nat, ftc: map<string, seq<string>>,
                                                     docs: map<string, string>, llm: Llm)
    requires forall k :: k in keys ==> k in ftc
    requires n <= |keys|
    requires PreviousDocsOf(keys[..n], ftc, docs, llm).None?
    ensures PreviousDocsOf(keys, ftc, docs, llm).None?
    decreases |keys| - n
  {
    if n < |keys| {
      assert keys[..n + 1][..n] == keys[..n];
      PreviousDocsFailureSticks(keys, n + 1, ftc, docs, llm);
    } else {
      assert keys[..n] == keys;
    }
  }

  /** The whole of `get_previous_documentation_for_files_gitlab`, as a function of its inputs. */
  function PreviousDocsSpec(project: string, changed: seq<string>, current: string,
                            history: string -> HttpResponse<seq<string>>, blobs: seq<Blob>, llm: Llm): Option<Dict<string>>
  {
    var ftc := FileToCommitsOf(Take(changed, 5), history, current);
    FileToCommitsFacts(Take(changed, 5), history, current);
    PreviousDocsOf(ftc.keys, ftc.values, DocsFound(ShasOf(ftc.keys, ftc.values), blobs, project), llm)
  }

  /**
   * `get_previous_documentation_for_files_gitlab`. `history(f)` is the
   * commits listing for file `f`; `queried` lists the shas the bucket was
   * scanned for. None when a summary call raised.
   */
  method GetPreviousDocumentation(project: string, changed: seq<string>, current: string,
                                  history: string -> HttpResponse<seq<string>>, blobs: seq<Blob>, llm: Llm)
    returns (r: Option<Dict<string>>, queried: seq<string>)
    ensures r == PreviousDocsSpec(project, changed, current, history, blobs, llm)
    ensures NoDuplicates(queried) && |queried| <= 10
    ensures forall s :: s in queried <==> exists f :: f in Take(changed, 5) && s in Predecessors(history(f), current)
  {
    var files := Take(changed, 5);
    var fileToCommits := EmptyDict();
    var i := 0;
    while i < |files|
      invariant 0 <= i <= |files|
      invariant fileToCommits == FileToCommitsOf(files[..i], history, current)
    {
      assert files[..i + 1][..i] == files[..i];
      var previous := GetPreviousCommitsForFile(history(files[i]), current);
      fileToCommits := fileToCommits.Put(files[i], Take(previous, 2));
      i := i + 1;
    }
    assert files[..i] == files;
    FileToCommitsFacts(files, history, current);
    var unique := UniqueCommits(fileToCommits);
    var commitToDocs;
    commitToDocs, queried := FetchDocs(unique, blobs, project);
    r := SummarizeFileDocs(fileToCommits, commitToDocs, llm);

    DistinctCard(queried);
    ShasOfBound(fileToCommits.keys, fileToCommits.values);
    forall s ensures s in queried <==> exists f :: f in files && s in Predecessors(history(f), current) {
      ShasOfExactly(fileToCommits.keys, fileToCommits.values, s);
      assert s in queried <==> s in Elements(queried);
    }
  }

  /**
   * A file gets an entry exactly when it is among the first five changed
   * files and one of its (at most two) earlier commits has a non-empty
   * document in the bucket.
   */
  lemma PreviousDocsIff(project: string, changed: seq<string>, current: string,
                        history: string -> HttpResponse<seq<string>>, blobs: seq<Blob>, llm: Llm, f: string)
    requires PreviousDocsSpec(project, changed, current, history, blobs, llm).Some?
    ensures f in PreviousDocsSpec(project, changed, current, history, blobs, llm).value.values <==>
              f in Take(changed, 5) && exists s :: s in Predecessors(history(f), current) && DocFor(blobs, project, s).Some?
  {
    var files := Take(changed, 5);
    var ftc := FileToCommitsOf(files, history, current);
    FileToCommitsFacts(files, history, current);
    var unique := ShasOf(ftc.keys, ftc.values);
    var docs := DocsFound(unique, blobs, project);
    PreviousDocsOfEntries(ftc.keys, ftc.values, docs, llm, f);
    if f in files {
      LabelledDocsEmpty(ftc.values[f], docs);
      forall s | s in ftc.values[f] ensures s in unique {
        ShasOfExactly(ftc.keys, ftc.values, s);
      }
    }
  }

  // ---------------------------------------------------------------------
  // format_previous_documentation_context_gitlab
  // ---------------------------------------------------------------------

  const NoPreviousDocs: string := "No previous documentation available for the changed files."
  const ContextHeader: string := "## Previous Documentation for Changed Files\n\n"

  function Section(path: string, summary: string): string {
    "### " + path + "\n\n" + summary + "\n\n"
  }

  function Sections(keys: seq<string>, values: map<string, string>): string
    requires forall k :: k in keys ==> k in values
    decreases |keys|
  {
    if |keys| == 0 then ""
    else Sections(keys[..|keys| - 1], values) + Section(keys[|keys| - 1], values[keys[|keys| - 1]])
  }

  function PreviousDocsContext(d: Dict<string>): string
    requires forall k :: k in d.keys ==> k in d.values
  {
    if d.IsEmpty() then NoPreviousDocs else ContextHeader + Sections(d.keys, d.values)
  }

  /** `format_previous_documentation_context_gitlab` */
  method FormatPreviousDocumentationContext(d: Dict<string>) returns (context: string)
    requires forall k :: k in d.keys ==> k in d.values
    ensures context == PreviousDocsContext(d)
  {
    if d.IsEmpty() {
      return NoPreviousDocs;
    }
    context := ContextHeader;
    var i := 0;
    while i < |d.keys|
      invariant 0 <= i <= |d.keys|
      invariant context == ContextHeader + Sections(d.keys[..i], d.values)
    {
      assert d.keys[..i + 1][..i] == d.keys[..i];
      context := context + "### " + d.keys[i] + "\n\n";
      context := context + d.values[d.keys[i]] + "\n\n";
      i := i + 1;
    }
    assert d.keys[..i] == d.keys;
  }

  /** The sentinel is produced for an empty map and only then. */
  lemma ContextIsSentinelIffEmpty(d: Dict<string>)
    requires forall k :: k in d.keys ==> k in d.values
    ensures PreviousDocsContext(d) == NoPreviousDocs <==> d.IsEmpty()
  {
    if !d.IsEmpty() {
      var n := |d.keys|;
      var last := Section(d.keys[n - 1], d.values[d.keys[n - 1]]);
      var text := ContextHeader + Sections(d.keys[..n - 1], d.values) + last;
      assert text == PreviousDocsContext(d);
      assert last[|last| - 1] == '\n';
      assert text[|text| - 1] == '\n';
      assert NoPreviousDocs[|NoPreviousDocs| - 1] == '.';
    }
  }

  /** Every file of the map has its own heading, followed by its summary, in the context. */
  lemma {:induction false} SectionsHaveEveryFile(keys: seq<string>, values: map<string, string>, i: nat)
    requires forall k :: k in keys ==> k in values
    requires i < |keys|
    ensures Contains(Sections(keys, values), Section(keys[i], values[keys[i]]))
    decreases |keys|
  {
    var init := keys[..|keys| - 1];
    var last := Section(keys[|keys| - 1], values[keys[|keys| - 1]]);
    if i == |keys| - 1 {
      ContainsInfix(Sections(init, values), last, "");
      assert Sections(init, values) + last + "" == Sections(keys, values);
    } else {
      SectionsHaveEveryFile(init, values, i);
      ContainsWidens("", Sections(init, values), last, Section(keys[i], values[keys[i]]));
      assert "" + Sections(init, values) + last == Sections(keys, values);
    }
  }

  // ---------------------------------------------------------------------
  // get_commit_details_gitlab, get_commit_diff_gitlab
  // ---------------------------------------------------------------------

  /**
   * `get_commit_details_gitlab`: the body of a 200 is reduced to its
   * truthiness, the only thing the caller inspects.
   */
  function GetCommitDetails(resp: HttpResponse<bool>): (r: Result<bool>)
    ensures resp.IsOk() <==> r.Ok?
    ensures resp.Response? && resp.status == 404 <==> r == Err(CommitNotFoundError)
    ensures r.Err? ==> r.error == CommitNotFoundError || r.error == GitLabApiError
  {
    match resp
    case ConnectionFailed => Err(GitLabApiError)
    case Response(status, body) =>
      if status == 200 then Ok(body)
      else if status == 404 then Err(CommitNotFoundError)
      else Err(GitLabApiError)
  }

  /** `f"{x}"` of a value that may be None. */
  function OrNone(p: Option<string>): string {
    match p
    case Some(v) => v
    case None => "None"
  }

  /** The four lines one diff entry contributes. */
  function FileDiffText(d: FileDiff): string {
    ("diff --git a/" + OrNone(d.oldPath) + " b/" + OrNone(d.newPath) + "\n")
    + ("--- a/" + OrNone(d.oldPath) + "\n")
    + ("+++ b/" + OrNone(d.newPath) + "\n")
    + (d.diff + "\n\n")
  }

  /** The diff entries flattened to unified-diff text, in order. */
  function DiffText(diffs: seq<FileDiff>): string
    decreases |diffs|
  {
    if |diffs| == 0 then "" else DiffText(diffs[..|diffs| - 1]) + FileDiffText(diffs[|diffs| - 1])
  }

  /** Flattening distributes over concatenation of diff lists. */
  lemma {:induction false} DiffTextConcat(a: seq<FileDiff>, b: seq<FileDiff>)
    ensures DiffText(a + b) == DiffText(a) + DiffText(b)
    decreases |b|
  {
    if |b| == 0 {
      assert a + b == a;
    } else {
      var init := b[..|b| - 1];
      var last := b[|b| - 1];
      assert (a + b)[..|a + b| - 1] == a + init;
      assert (a + b)[|a + b| - 1] == last;
      assert DiffText(a + b) == DiffText(a + init) + FileDiffText(last);
      DiffTextConcat(a, init);
      assert DiffText(b) == DiffText(init) + FileDiffText(last);
    }
  }

  /** The flattened diff is empty exactly when GitLab listed no file. */
  lemma DiffTextEmptyIffNoFiles(diffs: seq<FileDiff>)
    ensures DiffText(diffs) == "" <==> diffs == []
  {
    if diffs != [] {
      assert |FileDiffText(diffs[|diffs| - 1])| > 0;
    }
  }

  /** The text-flattening loop of `get_commit_diff_gitlab`. */
  method FlattenDiff(diffs: seq<FileDiff>) returns (text: string)
    ensures text == DiffText(diffs)
  {
    text := "";
    var i := 0;
    while i < |diffs|
      invariant 0 <= i <= |diffs|
      invariant text == DiffText(diffs[..i])
    {
      assert diffs[..i + 1][..i] == diffs[..i];
      var d := diffs[i];
      var before := text;
      var header := "diff --git a/" + OrNone(d.oldPath) + " b/" + OrNone(d.newPath) + "\n";
      var minus := "--- a/" + OrNone(d.oldPath) + "\n";
      var plus := "+++ b/" + OrNone(d.newPath) + "\n";
      var body := d.diff + "\n\n";
      text := text + header;
      text := text + minus;
      text := text + plus;
      text := text + body;
      AppendFour(before, header, minus, plus, body);
      i := i + 1;
    }
    assert diffs[..i] == diffs;
  }

  /** `get_commit_diff_gitlab` */
  method GetCommitDiff(resp: HttpResponse<seq<FileDiff>>) returns (r: Result<string>)
    ensures resp.IsOk() ==> r == Ok(DiffText(resp.body))
    ensures resp.Response? && resp.status == 404 ==> r == Err(CommitNotFoundError)
    ensures !resp.IsOk() && !(resp.Response? && resp.status == 404) ==> r == Err(GitLabApiError)
  {
    if resp.ConnectionFailed? {
      return Err(GitLabApiError);
    }
    if resp.status == 200 {
      var text := FlattenDiff(resp.body);
      return Ok(text);
    } else if resp.status == 404 {
      return Err(CommitNotFoundError);
    }
    return Err(GitLabApiError);
  }

  // ---------------------------------------------------------------------
  // upload_to_gcs_gitlab and analyze_gitlab_commit
  // ---------------------------------------------------------------------

  const GitLabLabels: seq<string> := ["Project", "Commit", "Branch", "Author", "Date", "Message"]

  function GitLabHeader(projectId: string, projectName: string, sha: string, branch: string,
                        author: string, date: string, message: string): (v: seq<string>)
    ensures |v| == |GitLabLabels|
  {
    [projectId + "/" + projectName, sha, branch, author, date, message]
  }

  /**
   * `upload_to_gcs_gitlab`: the text written to the blob and the returned
   * path. The writes themselves do not fail here (see `uploadOk` below).
   */
  method UploadToGcsGitLab(projectId: string, projectName: string, sha: string, bucket: string, blobName: string,
                           author: string, date: string, message: string, explanation: string, branch: string)
    returns (path: string, written: string)
    ensures written == Artifact(GitLabLabels, GitLabHeader(projectId, projectName, sha, branch, author, date, message), explanation)
    ensures path == GsPath(bucket, blobName)
  {
    var f := new BlobWriter();
    f.Write(HeaderLine("Project", projectId + "/" + projectName));
    f.Write(HeaderLine("Commit", sha));
    f.Write(HeaderLine("Branch", branch));
    f.Write(HeaderLine("Author", author));
    f.Write(HeaderLine("Date", date));
    f.Write(HeaderLine("Message", message));
    f.Write("\n\n");
    f.Write(Rule + "\n\n");
    f.Write(explanation);
    written := f.written;
    SixLineArtifact(GitLabLabels, GitLabHeader(projectId, projectName, sha, branch, author, date, message), explanation);
    path := GsPath(bucket, blobName);
  }

  /** The variables the documentation prompt is filled with. */
  datatype CommitPrompt = CommitPrompt(projectName: string, sha: string, author: string, message: string,
                                       projectContext: string, previousDocumentation: string, diff: string)

  /** `.content`, else `.text`, else `str(response)`. */
  function ContentTextOrStr(r: Reply): (t: string)
    ensures "content" in r.attrs ==> t == r.attrs["content"]
    ensures "content" !in r.attrs && "text" in r.attrs ==> t == r.attrs["text"]
    ensures "content" !in r.attrs && "text" !in r.attrs ==> t == r.repr
  {
    if "content" in r.attrs then r.attrs["content"]
    else if "text" in r.attrs then r.attrs["text"]
    else r.repr
  }

  /**
   * The previous-documentation text of the prompt: the formatted context of
   * what `get_previous_documentation_for_files_gitlab` returns; None when a
   * summary call raised.
   */
  function PreviousDocsText(project: string, changed: seq<string>, current: string,
                            history: string -> HttpResponse<seq<string>>, blobs: seq<Blob>, llm: Llm): (r: Option<string>)
    ensures r.None? <==> PreviousDocsSpec(project, changed, current, history, blobs, llm).None?
  {
    match PreviousDocsSpec(project, changed, current, history, blobs, llm)
    case None => None
    case Some(d) =>
      PreviousDocsValid(project, changed, current, history, blobs, llm);
      Some(PreviousDocsContext(d))
  }

  /** Details say the commit exists and the diff lists at least one file. */
  predicate DiffReady(details: HttpResponse<bool>, diffResp: HttpResponse<seq<FileDiff>>) {
    details.IsOk() && details.body && diffResp.IsOk() && diffResp.body != []
  }

  /** The README summary, the changed files and the previous-documentation lookup all succeed. */
  predicate ContextReady(projectName: string, sha: string, readme: string, filesResp: HttpResponse<seq<FileDiff>>,
                         history: string -> HttpResponse<seq<string>>, blobs: seq<Blob>, llm: Llm) {
    && Utils.SummarizeWithLlm(readme, "readme", llm).Some?
    && filesResp.IsOk()
    && PreviousDocsText(projectName, NewPaths(filesResp.body), sha, history, blobs, llm).Some?
  }

  /** The prompt `analyze_gitlab_commit` sends once every lookup has succeeded. */
  function PromptOf(projectName: string, sha: string, author: string, message: string,
                    diff: string, readme: string, filesResp: HttpResponse<seq<FileDiff>>,
                    history: string -> HttpResponse<seq<string>>, blobs: seq<Blob>, llm: Llm): CommitPrompt
    requires ContextReady(projectName, sha, readme, filesResp, history, blobs, llm)
  {
    CommitPrompt(projectName, sha, author, message,
                 Utils.SummarizeWithLlm(readme, "readme", llm).value,
                 PreviousDocsText(projectName, NewPaths(filesResp.body), sha, history, blobs, llm).value,
                 diff)
  }

  /**
   * `analyze_gitlab_commit`. The hosting provider's answers are parameters:
   * `details` (its body reduced to truthiness), `diffResp` and `filesResp`
   * (the same diff endpoint, requested twice), `history` (per-file commit
   * listings); `readme` is the README text, `blobs` the commit bucket's
   * listing, `llm` the summariser's model, `generate` the documentation
   * model, `timestamp` the formatted current time and `uploadOk` whether
   * the blob write succeeds.
   */
  method AnalyzeGitLabCommit(projectId: string, projectName: string, sha: string, branch: string, author: string,
                             message: string, commitTimestamp: string,
                             details: HttpResponse<bool>, diffResp: HttpResponse<seq<FileDiff>>, readme: string,
                             filesResp: HttpResponse<seq<FileDiff>>, history: string -> HttpResponse<seq<string>>,
                             blobs: seq<Blob>, llm: Llm, generate: CommitPrompt -> Option<Reply>,
                             bucketName: Option<string>, timestamp: string, uploadOk: bool)
    returns (r: Result<Upload>)
    ensures details.Response? && details.status == 404 ==> r == Err(CommitNotFoundError)
    ensures !details.IsOk() && !(details.Response? && details.status == 404) ==> r == Err(GitLabApiError)
    ensures details.IsOk() && !details.body ==> r == Err(AnalyzerError)
    ensures details.IsOk() && details.body && diffResp.Response? && diffResp.status == 404 ==> r == Err(CommitNotFoundError)
    ensures details.IsOk() && details.body && diffResp.IsOk() && diffResp.body == [] ==> r == Err(AnalyzerError)
    ensures r.Err? ==> r.error in {CommitNotFoundError, GitLabApiError, GoogleCloudStorageError, AnalyzerError}
    ensures r.Ok? ==> IsSet(bucketName) && uploadOk && details.IsOk() && diffResp.IsOk() && filesResp.IsOk()
    ensures (details.IsOk() && details.body && !diffResp.IsOk() && !(diffResp.Response? && diffResp.status == 404))
            ==> r == Err(GitLabApiError)
    ensures DiffReady(details, diffResp) && Utils.SummarizeWithLlm(readme, "readme", llm).None? ==> r == Err(AnalyzerError)
    ensures (DiffReady(details, diffResp) && Utils.SummarizeWithLlm(readme, "readme", llm).Some? && !filesResp.IsOk())
            ==> r == Err(GitLabApiError)
    ensures (DiffReady(details, diffResp) && Utils.SummarizeWithLlm(readme, "readme", llm).Some? && filesResp.IsOk()
             && PreviousDocsText(projectName, NewPaths(filesResp.body), sha, history, blobs, llm).None?)
            ==> r == Err(AnalyzerError)
    ensures r.Ok? ==> DiffReady(details, diffResp) && ContextReady(projectName, sha, readme, filesResp, history, blobs, llm)
    ensures DiffReady(details, diffResp) && ContextReady(projectName, sha, readme, filesResp, history, blobs, llm) ==>
              var p := PromptOf(projectName, sha, author, message, DiffText(diffResp.body), readme, filesResp, history, blobs, llm);
              var blobName := CommitBlobKey(branch, timestamp, projectName, sha);
              && (generate(p).None? ==> r == Err(AnalyzerError))
              && (generate(p).Some? && !(IsSet(bucketName) && uploadOk) ==> r == Err(GoogleCloudStorageError))
              && (generate(p).Some? && IsSet(bucketName) && uploadOk ==>
                    r == Ok(Upload(GsPath(bucketName.value, blobName),
                                   Blob(blobName, Artifact(GitLabLabels,
                                                           GitLabHeader(projectId, projectName, sha, branch, author, commitTimestamp, message),
                                                           ContentTextOrStr(generate(p).value))))))
  {
    var commitData := GetCommitDetails(details);
    if commitData.Err? {
      return Err(commitData.error);
    }
    if !commitData.value {
      return Err(AnalyzerError);
    }
    var commitDiff := GetCommitDiff(diffResp);
    if commitDiff.Err? {
      return Err(commitDiff.error);
    }
    if commitDiff.value == "" {
      return Err(AnalyzerError);
    }
    DiffTextEmptyIffNoFiles(diffResp.body);

    var projectContext := Utils.SummarizeWithLlm(readme, "readme", llm);
    if projectContext.None? {
      return Err(AnalyzerError);
    }
    var changedFiles := GetChangedFiles(filesResp);
    if changedFiles.Err? {
      return Err(changedFiles.error);
    }
    var previousDocs, _ := GetPreviousDocumentation(projectName, changedFiles.value, sha, history, blobs, llm);
    if previousDocs.None? {
      return Err(AnalyzerError);
    }
    assert previousDocs.value.Valid() by {
      PreviousDocsValid(projectName, changedFiles.value, sha, history, blobs, llm);
    }
    var previousDocsContext := FormatPreviousDocumentationContext(previousDocs.value);

    var prompt := CommitPrompt(projectName, sha, author, message, projectContext.value, previousDocsContext, commitDiff.value);
    var response := generate(prompt);
    if response.None? {
      return Err(AnalyzerError);
    }
    var explanation := ContentTextOrStr(response.value);

    if IsSet(bucketName) {
      var blobName := CommitBlobKey(branch, timestamp, projectName, sha);
      if !uploadOk {
        return Err(GoogleCloudStorageError);
      }
      var gcsPath, written := UploadToGcsGitLab(projectId, projectName, sha, bucketName.value, blobName,
                                                author, commitTimestamp, message, explanation, branch);
      return Ok(Upload(gcsPath, Blob(blobName, written)));
    } else {
      return Err(GoogleCloudStorageError);
    }
  }

  /** The map step 4 builds is a well-formed dictionary. */
  lemma PreviousDocsValid(project: string, changed: seq<string>, current: string,
                          history: string -> HttpResponse<seq<string>>, blobs: seq<Blob>, llm: Llm)
    requires PreviousDocsSpec(project, changed, current, history, blobs, llm).Some?
    ensures PreviousDocsSpec(project, changed, current, history, blobs, llm).value.Valid()
  {
    var ftc := FileToCommitsOf(Take(changed, 5), history, current);
    FileToCommitsFacts(Take(changed, 5), history, current);
    var docs := DocsFound(ShasOf(ftc.keys, ftc.values), blobs, project);
    PreviousDocsOfValid(ftc.keys, ftc.values, docs, llm);
  }

  lemma {:induction false} PreviousDocsOfValid(keys: seq<string>, ftc: map<string, seq<string>>, docs: map<string, string>, llm: Llm)
    requires forall k :: k in keys ==> k in ftc
    requires PreviousDocsOf(keys, ftc, docs, llm).Some?
    ensures PreviousDocsOf(keys, ftc, docs, llm).value.Valid()
    decreases |keys|
  {
    if |keys| > 0 {
      var init := keys[..|keys| - 1];
      assert forall k :: k in init ==> k in keys;
      PreviousDocsOfValid(init, ftc, docs, llm);
      var d := PreviousDocsOf(init, ftc, docs, llm).value;
      var f := keys[|keys| - 1];
      var fileDocs := LabelledDocs(ftc[f], docs);
      if |fileDocs| > 0 {
        PutValid(d, f, Utils.SummarizeWithLlm(Join(DocRule, fileDocs), "documentation", llm).value);
      }
    }
  }
}
