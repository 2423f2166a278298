/**
 * What the GitHub and GitLab release analyzers share: the releases listing
 * sorted ascending by a timestamp (`sorted(releases, key=...)`, a stable
 * sort), the walk that finds the tag just before the target, and how a
 * missing previous tag is shown to the model.
 */
module Releases {
  import opened Common

  /**
   * One entry of a releases listing. Timestamps are ISO-8601 strings in the
   * source and compare in time order; here they are integers in that order.
   */
  datatype ReleaseJson = ReleaseJson(tagName: string, createdAt: int, releasedAt: int)

  /** A release with the timestamp it is sorted on. */
  datatype Release = Release(tagName: string, key: int)

  ghost predicate SortedByKey(rs: seq<Release>) {
    forall i, j :: 0 <= i < j < |rs| ==> rs[i].key <= rs[j].key
  }

  /** Inserts `x` before the first element whose key is not smaller, so that it precedes equal keys. */
  function Insert(x: Release, s: seq<Release>): (r: seq<Release>)
    ensures |r| == |s| + 1
    ensures multiset(r) == multiset(s) + multiset{x}
    decreases |s|
  {
    if |s| == 0 then [x]
    else if x.key <= s[0].key then [x] + s
    else
      var t := Insert(x, s[1..]);
      assert s == [s[0]] + s[1..];
      [s[0]] + t
  }

  /** Inserting into a sorted listing keeps it sorted; the new head is `x` or the old head. */
  lemma {:induction false} InsertKeepsSorted(x: Release, s: seq<Release>)
    requires SortedByKey(s)
    ensures SortedByKey(Insert(x, s))
    ensures |s| > 0 ==> Insert(x, s)[0] == x || Insert(x, s)[0] == s[0]
    decreases |s|
  {
    if |s| > 0 && x.key > s[0].key {
      var t := Insert(x, s[1..]);
      InsertKeepsSorted(x, s[1..]);
      assert Insert(x, s) == [s[0]] + t;
      if |s| > 1 {
        assert t[0].key >= s[0].key by {
          assert t[0] == x || t[0] == s[1..][0];
        }
      } else {
        assert t == [x];
      }
      forall j | 0 <= j < |t|
        ensures s[0].key <= t[j].key
      {
        if j > 0 {
          assert t[0].key <= t[j].key;
        }
      }
    }
  }

  /** Python's `sorted(rs, key=...)`: stable insertion sort on the key. */
  function SortByKey(rs: seq<Release>): (r: seq<Release>)
    ensures |r| == |rs|
    ensures multiset(r) == multiset(rs)
    ensures SortedByKey(r)
    decreases |rs|
  {
    if |rs| == 0 then []
    else
      assert rs == [rs[0]] + rs[1..];
      InsertKeepsSorted(rs[0], SortByKey(rs[1..]));
      Insert(rs[0], SortByKey(rs[1..]))
  }

  /** Position of the first release carrying `tag`. */
  function FirstIndexOf(rs: seq<Release>, tag: string): (r: Option<nat>)
    ensures r.Some? ==> r.value < |rs| && rs[r.value].tagName == tag
    ensures r.Some? ==> forall j :: 0 <= j < r.value ==> rs[j].tagName != tag
    ensures r.None? ==> forall j :: 0 <= j < |rs| ==> rs[j].tagName != tag
    decreases |rs|
  {
    if |rs| == 0 then None
    else if rs[0].tagName == tag then Some(0)
    else match FirstIndexOf(rs[1..], tag)
      case None => None
      case Some(i) => Some(i + 1)
  }

  /**
   * The walk over a sorted listing: the tag of the release just before the
   * first one carrying `tag`; None when `tag` is first or absent.
   */
  method PreviousTag(sorted: seq<Release>, tag: string) returns (prev: Option<string>)
    ensures prev.Some? <==> (FirstIndexOf(sorted, tag).Some? && FirstIndexOf(sorted, tag).value > 0)
    ensures prev.Some? ==> prev.value == sorted[FirstIndexOf(sorted, tag).value - 1].tagName
  {
    var previous: Option<string> := None;
    var i := 0;
    while i < |sorted|
      invariant 0 <= i <= |sorted|
      invariant forall j :: 0 <= j < i ==> sorted[j].tagName != tag
      invariant previous == if i == 0 then None else Some(sorted[i - 1].tagName)
    {
      if sorted[i].tagName == tag {
        return previous;
      }
      previous := Some(sorted[i].tagName);
      i := i + 1;
    }
    return None;
  }

  /** The tag `PreviousTag` finds, as a function. */
  function PrecedingTag(sorted: seq<Release>, tag: string): Option<string> {
    match FirstIndexOf(sorted, tag)
    case None => None
    case Some(i) => if i == 0 then None else Some(sorted[i - 1].tagName)
  }

  /**
   * On a sorted listing the tag found is that of a release no later than the
   * target, and it is not the target's tag: a strict predecessor.
   */
  lemma PrecedingTagIsPredecessor(sorted: seq<Release>, tag: string, p: string)
    requires SortedByKey(sorted)
    requires PrecedingTag(sorted, tag) == Some(p)
    ensures exists i :: 0 < i < |sorted| && sorted[i].tagName == tag && sorted[i - 1].tagName == p
                     && sorted[i - 1].key <= sorted[i].key
    ensures p != tag
  {
    var i := FirstIndexOf(sorted, tag).value;
    assert sorted[i - 1].tagName != tag;
  }

  /** The release sorted first never has a predecessor. */
  lemma EarliestHasNoPredecessor(rs: seq<Release>)
    requires |rs| > 0
    ensures PrecedingTag(SortByKey(rs), SortByKey(rs)[0].tagName) == None
  {
  }

  /** `previous_tag or "initial release"`: a missing or empty tag is shown as "initial release". */
  function PreviousTagText(previous: Option<string>): (t: string)
    ensures previous.Some? && previous.value != "" ==> t == previous.value
    ensures previous.None? || previous.value == "" ==> t == "initial release"
  {
    match previous
    case Some(p) => if p != "" then p else "initial release"
    case None => "initial release"
  }

  /** One element of a release's `commit_docs`: `{'documentation': doc_content}`. */
  datatype CommitDoc = CommitDoc(documentation: Option<string>)

  /** Which timestamp a listing is sorted on: GitHub sorts on `created_at`, GitLab on `released_at`. */
  datatype SortKey = CreatedAt | ReleasedAt

  function Keyed(rs: seq<ReleaseJson>, key: SortKey): (r: seq<Release>)
    ensures |r| == |rs|
    ensures forall i :: 0 <= i < |rs| ==> r[i].tagName == rs[i].tagName
  {
    seq(|rs|, i requires 0 <= i < |rs| => Release(rs[i].tagName, if key == CreatedAt then rs[i].createdAt else rs[i].releasedAt))
  }

  /**
   * The previous-tag lookup of both release analyzers: a 200 listing is
   * sorted on `key` and walked; any other outcome raises `failure`.
   */
  method GetPreviousReleaseTag(resp: HttpResponse<seq<ReleaseJson>>, tag: string, key: SortKey, failure: ErrorKind)
    returns (r: Result<Option<string>>)
    ensures !resp.IsOk() ==> r == Err(failure)
    ensures resp.IsOk() ==> r == Ok(PrecedingTag(SortByKey(Keyed(resp.body, key)), tag))
  {
    if resp.ConnectionFailed? || resp.status != 200 {
      return Err(failure);
    }
    var sorted := SortByKey(Keyed(resp.body, key));
    var previous := PreviousTag(sorted, tag);
    return Ok(previous);
  }

  /** Sorting neither adds nor loses releases. */
  lemma SortedReleaseIsListed(rs: seq<Release>, x: Release)
    requires x in SortByKey(rs)
    ensures x in rs
  {
    var sorted := SortByKey(rs);
    assert x in multiset(sorted);
    assert x in multiset(rs);
  }

  /** The tag found always belongs to a release of the listing. */
  lemma PrecedingTagIsListed(rs: seq<ReleaseJson>, key: SortKey, tag: string, p: string)
    requires PrecedingTag(SortByKey(Keyed(rs, key)), tag) == Some(p)
    ensures exists j :: 0 <= j < |rs| && rs[j].tagName == p
  {
    var keyed := Keyed(rs, key);
    var sorted := SortByKey(keyed);
    var i := FirstIndexOf(sorted, tag).value;
    var x := sorted[i - 1];
    assert x.tagName == p;
    SortedReleaseIsListed(keyed, x);
    var j :| 0 <= j < |keyed| && keyed[j] == x;
    assert rs[j].tagName == keyed[j].tagName;
  }

  /**
   * The commits of a release: with no previous tag, the recent-commits
   * listing as returned; otherwise the compare result's `commits` (an empty
   * list when the key is absent). Any non-200 answer raises `failure`.
   */
  function CommitWindow(previousTag: Option<string>, listing: HttpResponse<seq<string>>,
                        compare: HttpResponse<Option<seq<string>>>, failure: ErrorKind): (r: Result<seq<string>>)
    ensures previousTag.None? ==> (r.Ok? <==> listing.IsOk())
    ensures previousTag.None? && r.Ok? ==> r.value == listing.body
    ensures previousTag.Some? ==> (r.Ok? <==> compare.IsOk())
    ensures previousTag.Some? && r.Ok? && compare.body.None? ==> r.value == []
    ensures previousTag.Some? && r.Ok? && compare.body.Some? ==> r.value == compare.body.value
    ensures r.Err? ==> r.error == failure
  {
    if previousTag.None? then
      if listing.IsOk() then Ok(listing.body) else Err(failure)
    else
      if !compare.IsOk() then Err(failure)
      else match compare.body
        case None => Ok([])
        case Some(commits) => Ok(commits)
  }

  /** Only one of the two requests matters: which one is decided by the previous tag alone. */
  lemma WindowUsesOneRequest(previousTag: Option<string>, listing: HttpResponse<seq<string>>, listing2: HttpResponse<seq<string>>,
                             compare: HttpResponse<Option<seq<string>>>, compare2: HttpResponse<Option<seq<string>>>,
                             failure: ErrorKind)
    ensures previousTag.None? ==> CommitWindow(previousTag, listing, compare, failure) == CommitWindow(previousTag, listing, compare2, failure)
    ensures previousTag.Some? ==> CommitWindow(previousTag, listing, compare, failure) == CommitWindow(previousTag, listing2, compare, failure)
  {
  }
}
