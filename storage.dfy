/**
 * The blob store as the service sees it: a bucket is the listing of its
 * blobs in listing order, each with a name and a text content. This module
 * holds what every component shares about it: the substring scan that finds
 * a commit's documentation, reading a blob by name, the key formats, the
 * `gs://` path, and the text of a commit documentation artifact with a
 * parser that reads it back.
 */
module Storage {
  import opened Common
  import opened Text

  datatype Blob = Blob(name: string, content: string)

  /** What a successful upload produced: the returned path and the blob written. */
  datatype Upload = Upload(path: string, blob: Blob)

  /** The scan's test: the name contains both the commit sha and the repository or project name. */
  predicate Mentions(name: string, sha: string, project: string) {
    Contains(name, sha) && Contains(name, project)
  }

  /** Position of the first blob, in listing order, that the scan accepts. */
  function FirstMatch(blobs: seq<Blob>, sha: string, project: string): (r: Option<nat>)
    ensures r.Some? ==> r.value < |blobs| && Mentions(blobs[r.value].name, sha, project)
    ensures r.Some? ==> forall j :: 0 <= j < r.value ==> !Mentions(blobs[j].name, sha, project)
    ensures r.None? ==> forall j :: 0 <= j < |blobs| ==> !Mentions(blobs[j].name, sha, project)
    decreases |blobs|
  {
    if |blobs| == 0 then None
    else if Mentions(blobs[0].name, sha, project) then Some(0)
    else match FirstMatch(blobs[1..], sha, project)
      case None => None
      case Some(i) => Some(i + 1)
  }

  /** Name of the first accepted blob (the release analyzers' lookup). */
  function FirstMatchName(blobs: seq<Blob>, sha: string, project: string): Option<string> {
    match FirstMatch(blobs, sha, project)
    case None => None
    case Some(i) => Some(blobs[i].name)
  }

  /** Content of the first accepted blob (the commit analyzer's lookup). */
  function FirstMatchContent(blobs: seq<Blob>, sha: string, project: string): Option<string> {
    match FirstMatch(blobs, sha, project)
    case None => None
    case Some(i) => Some(blobs[i].content)
  }

  /** `bucket.blob(name)` read back: None when no blob has that name. */
  function ReadBlob(blobs: seq<Blob>, name: string): (r: Option<string>)
    ensures r.Some? <==> exists i :: 0 <= i < |blobs| && blobs[i].name == name
    ensures r.Some? ==> exists i :: 0 <= i < |blobs| && blobs[i].name == name && blobs[i].content == r.value
    decreases |blobs|
  {
    if |blobs| == 0 then None
    else if blobs[0].name == name then Some(blobs[0].content)
    else ReadBlob(blobs[1..], name)
  }

  /** A name the scan returned always names a blob that can be read. */
  lemma {:induction false} FoundNameIsReadable(blobs: seq<Blob>, sha: string, project: string)
    requires FirstMatchName(blobs, sha, project).Some?
    ensures ReadBlob(blobs, FirstMatchName(blobs, sha, project).value).Some?
  {
    var i := FirstMatch(blobs, sha, project).value;
    assert blobs[i].name == FirstMatchName(blobs, sha, project).value;
  }

  /** `{branch}/commits/{timestamp}_{repo}_{sha}.txt` */
  function CommitBlobKey(branch: string, timestamp: string, repo: string, sha: string): string {
    branch + "/commits/" + timestamp + "_" + repo + "_" + sha + ".txt"
  }

  /** `{repo}/releases/{tag}/{timestamp}_release_note.md` */
  function ReleaseBlobKey(repo: string, tag: string, timestamp: string): string {
    repo + "/releases/" + tag + "/" + timestamp + "_release_note.md"
  }

  /** `gs://{bucket}/{blob}` */
  function GsPath(bucket: string, blob: string): (r: string)
    ensures IsPrefix("gs://", r) && |r| > |blob|
  {
    "gs://" + bucket + "/" + blob
  }

  /** A commit key is found again by the scan for its own sha and repository. */
  lemma CommitKeyMentions(branch: string, timestamp: string, repo: string, sha: string)
    ensures Mentions(CommitBlobKey(branch, timestamp, repo, sha), sha, repo)
  {
    var key := CommitBlobKey(branch, timestamp, repo, sha);
    ContainsInfix(branch + "/commits/" + timestamp + "_" + repo + "_", sha, ".txt");
    assert key == (branch + "/commits/" + timestamp + "_" + repo + "_") + sha + ".txt";
    ContainsInfix(branch + "/commits/" + timestamp + "_", repo, "_" + sha + ".txt");
    assert key == (branch + "/commits/" + timestamp + "_") + repo + ("_" + sha + ".txt");
  }

  /**
   * Once a commit artifact is in the listing, the scan for that commit
   * finds a blob, at the artifact's position or before it.
   */
  lemma {:induction false} UploadedCommitIsFound(before: seq<Blob>, after: seq<Blob>, branch: string,
                                                 timestamp: string, repo: string, sha: string, content: string)
    ensures var blobs := before + [Blob(CommitBlobKey(branch, timestamp, repo, sha), content)] + after;
            FirstMatch(blobs, sha, repo).Some? && FirstMatch(blobs, sha, repo).value <= |before|
  {
    var blobs := before + [Blob(CommitBlobKey(branch, timestamp, repo, sha), content)] + after;
    CommitKeyMentions(branch, timestamp, repo, sha);
    assert blobs[|before|].name == CommitBlobKey(branch, timestamp, repo, sha);
  }

  // ---------------------------------------------------------------------
  // Commit documentation artifact: six "Label: value" lines, a blank-line
  // pair, a rule of 80 stars followed by a blank line, then the body.
  // ---------------------------------------------------------------------

  const Rule: string := Repeat('*', 80)
  const Separator: string := "\n\n" + Rule + "\n\n"

  /** `f"{key}: {value}\n"` */
  function HeaderLine(key: string, value: string): string {
    key + ": " + value + "\n"
  }

  function HeaderLines(labels: seq<string>, values: seq<string>): string
    requires |labels| == |values|
    decreases |labels|
  {
    if |labels| == 0 then ""
    else HeaderLine(labels[0], values[0]) + HeaderLines(labels[1..], values[1..])
  }

  lemma {:induction false} HeaderLinesSnoc(labels: seq<string>, values: seq<string>, key: string, value: string)
    requires |labels| == |values|
    ensures HeaderLines(labels + [key], values + [value]) == HeaderLines(labels, values) + HeaderLine(key, value)
    decreases |labels|
  {
    if |labels| == 0 {
      assert labels + [key] == [key];
      assert values + [value] == [value];
    } else {
      assert (labels + [key])[1..] == labels[1..] + [key];
      assert (values + [value])[1..] == values[1..] + [value];
      HeaderLinesSnoc(labels[1..], values[1..], key, value);
    }
  }

  /**
   * The nine writes of an upload, in order: six header lines, a blank-line
   * pair, the rule line, then the body, give the artifact.
   */
  lemma SixLineArtifact(labels: seq<string>, values: seq<string>, body: string)
    requires |labels| == 6 && |values| == 6
    ensures Artifact(labels, values, body)
            == "" + HeaderLine(labels[0], values[0]) + HeaderLine(labels[1], values[1]) + HeaderLine(labels[2], values[2])
               + HeaderLine(labels[3], values[3]) + HeaderLine(labels[4], values[4]) + HeaderLine(labels[5], values[5])
               + "\n\n" + (Rule + "\n\n") + body
  {
    assert labels[..0] == [] && values[..0] == [];
    HeaderLinesGrow(labels, values, 0);
    HeaderLinesGrow(labels, values, 1);
    HeaderLinesGrow(labels, values, 2);
    HeaderLinesGrow(labels, values, 3);
    HeaderLinesGrow(labels, values, 4);
    HeaderLinesGrow(labels, values, 5);
    assert labels[..6] == labels && values[..6] == values;
    var h := HeaderLines(labels, values);
    assert h + Separator + body == h + "\n\n" + (Rule + "\n\n") + body;
  }

  lemma HeaderLinesGrow(labels: seq<string>, values: seq<string>, k: nat)
    requires |labels| == |values| && k < |labels|
    ensures HeaderLines(labels[..k + 1], values[..k + 1]) == HeaderLines(labels[..k], values[..k]) + HeaderLine(labels[k], values[k])
  {
    HeaderLinesSnoc(labels[..k], values[..k], labels[k], values[k]);
    assert labels[..k + 1] == labels[..k] + [labels[k]];
    assert values[..k + 1] == values[..k] + [values[k]];
  }

  function Artifact(labels: seq<string>, values: seq<string>, body: string): string
    requires |labels| == |values|
  {
    HeaderLines(labels, values) + Separator + body
  }

  /** Position of the first line break. */
  function LineEnd(s: string): (r: Option<nat>)
    ensures r.Some? ==> r.value < |s| && s[r.value] == '\n' && '\n' !in s[..r.value]
    ensures r.None? ==> '\n' !in s
    decreases |s|
  {
    if |s| == 0 then None
    else if s[0] == '\n' then Some(0)
    else match LineEnd(s[1..])
      case None => None
      case Some(i) =>
        assert s[..i + 1] == [s[0]] + s[1..][..i];
        Some(i + 1)
  }

  /** Reads one "Label: value" line per label; returns the values and what follows. */
  function ParseLines(labels: seq<string>, s: string): Option<(seq<string>, string)>
    decreases |labels|
  {
    if |labels| == 0 then Some(([], s))
    else
      var p := labels[0] + ": ";
      if !IsPrefix(p, s) then None
      else
        var line := s[|p|..];
        match LineEnd(line)
        case None => None
        case Some(i) =>
          match ParseLines(labels[1..], line[i + 1..])
          case None => None
          case Some(pr) => Some(([line[..i]] + pr.0, pr.1))
  }

  /** Reads an artifact back into its header values and its body. */
  function ParseArtifact(labels: seq<string>, s: string): Option<(seq<string>, string)> {
    match ParseLines(labels, s)
    case None => None
    case Some(pr) =>
      if IsPrefix(Separator, pr.1) then Some((pr.0, pr.1[|Separator|..])) else None
  }

  lemma {:induction false} LineEndAfter(v: string, rest: string)
    requires '\n' !in v
    ensures LineEnd(v + "\n" + rest) == Some(|v|)
    decreases |v|
  {
    if |v| > 0 {
      assert (v + "\n" + rest)[1..] == v[1..] + "\n" + rest;
      LineEndAfter(v[1..], rest);
    }
  }

  lemma {:induction false} ParseLinesRoundTrip(labels: seq<string>, values: seq<string>, rest: string)
    requires |labels| == |values|
    requires forall i :: 0 <= i < |values| ==> '\n' !in values[i]
    ensures ParseLines(labels, HeaderLines(labels, values) + rest) == Some((values, rest))
    decreases |labels|
  {
    if |labels| > 0 {
      var p := labels[0] + ": ";
      var tail := HeaderLines(labels[1..], values[1..]) + rest;
      var s := HeaderLines(labels, values) + rest;
      assert s == p + (values[0] + "\n" + tail);
      assert s[..|p|] == p;
      assert s[|p|..] == values[0] + "\n" + tail;
      var line := s[|p|..];
      LineEndAfter(values[0], tail);
      assert LineEnd(line) == Some(|values[0]|);
      assert line[|values[0]| + 1..] == tail;
      assert line[..|values[0]|] == values[0];
      ParseLinesRoundTrip(labels[1..], values[1..], rest);
      assert [values[0]] + values[1..] == values;
    } else {
      assert values == [];
      assert HeaderLines(labels, values) + rest == rest;
    }
  }

  /**
   * An artifact whose header values are single lines reads back as exactly
   * those values and the body, byte for byte.
   */
  lemma ArtifactRoundTrip(labels: seq<string>, values: seq<string>, body: string)
    requires |labels| == |values|
    requires forall i :: 0 <= i < |values| ==> '\n' !in values[i]
    ensures ParseArtifact(labels, Artifact(labels, values, body)) == Some((values, body))
  {
    assert Artifact(labels, values, body) == HeaderLines(labels, values) + (Separator + body);
    ParseLinesRoundTrip(labels, values, Separator + body);
    assert (Separator + body)[..|Separator|] == Separator;
    assert (Separator + body)[|Separator|..] == body;
  }

  /**
   * The stream an upload writes to (`blob.open("w")`): it starts empty and
   * every write appends.
   */
  class BlobWriter {
    var written: string

    constructor ()
      ensures written == ""
    {
      written := "";
    }

    method Write(s: string)
      modifies this
      ensures written == old(written) + s
    {
      written := written + s;
    }
  }
}
