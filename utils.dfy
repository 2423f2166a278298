/**
 * utils.py: the summariser the GitLab modules import, and README discovery
 * on GitHub by trying a fixed list of file names.
 */
module Utils {
  import opened Common
  import opened Summarizer

  /** utils.py's `summarize_with_llm_async(text, content_type)` with the default bound. */
  function SummarizeWithLlm(text: string, contentType: string, llm: Llm): (r: Option<string>)
    ensures |text| < 300 ==> r == Some(text)
    ensures |text| >= 300 ==> (r.Some? <==> llm(UtilsPrompts, PromptFor(contentType), text).Some?)
    ensures |text| >= 300 && r.Some? ==> r.value == ContentOrStr(llm(UtilsPrompts, PromptFor(contentType), text).value)
  {
    Summarize(UtilsPrompts, text, contentType, DefaultMaxLength, llm)
  }

  const ReadmeCandidates: seq<string> := ["README.md", "README.txt", "README", "Readme.md"]
  const NoReadme: string := "No README found"

  /**
   * What `get_repository_readme_async` returns: on a hit the pair
   * `(decoded_text, "readme")`, otherwise the bare string "No README found".
   */
  datatype ReadmeResult = Hit(text: string, tag: string) | Miss(message: string)

  /**
   * A contents response whose decoded `content` field (empty when absent)
   * is the README, base64-encoded.
   */
  predicate IsHit(resp: HttpResponse<string>) {
    resp.Response? && resp.status == 200 && resp.body != ""
  }

  /**
   * The candidates tried in order: a transport failure propagates, the first
   * hit wins, and running out of candidates is a miss.
   */
  function ReadmeFrom(names: seq<string>, fetch: string -> HttpResponse<string>, decode: string -> string): Result<ReadmeResult>
    decreases |names|
  {
    if |names| == 0 then Ok(Miss(NoReadme))
    else
      var resp := fetch(names[0]);
      if resp.ConnectionFailed? then Err(GenericError)
      else if IsHit(resp) then Ok(Hit(decode(resp.body), "readme"))
      else ReadmeFrom(names[1..], fetch, decode)
  }

  /**
   * `get_repository_readme_async`: `fetch(name)` is the contents response for
   * that file, `decode` the base64/UTF-8 decoding.
   */
  method GetRepositoryReadme(fetch: string -> HttpResponse<string>, decode: string -> string) returns (r: Result<ReadmeResult>)
    ensures r == ReadmeFrom(ReadmeCandidates, fetch, decode)
  {
    var names := ReadmeCandidates;
    var i := 0;
    while i < |names|
      invariant 0 <= i <= |names|
      invariant ReadmeFrom(names, fetch, decode) == ReadmeFrom(names[i..], fetch, decode)
    {
      assert names[i..][1..] == names[i + 1..];
      var resp := fetch(names[i]);
      if resp.ConnectionFailed? {
        return Err(GenericError);
      }
      if resp.status == 200 {
        var content := resp.body;
        if content != "" {
          return Ok(Hit(decode(content), "readme"));
        }
      }
      i := i + 1;
    }
    return Ok(Miss(NoReadme));
  }

  /**
   * The first candidate that answers 200 with content wins, provided every
   * earlier one answered without content.
   */
  lemma {:induction false} FirstHitWins(names: seq<string>, fetch: string -> HttpResponse<string>,
                                        decode: string -> string, k: nat)
    requires k < |names| && IsHit(fetch(names[k]))
    requires forall j :: 0 <= j < k ==> fetch(names[j]).Response? && !IsHit(fetch(names[j]))
    ensures ReadmeFrom(names, fetch, decode) == Ok(Hit(decode(fetch(names[k]).body), "readme"))
    decreases k
  {
    if k > 0 {
      assert fetch(names[0]).Response? && !IsHit(fetch(names[0]));
      FirstHitWins(names[1..], fetch, decode, k - 1);
    }
  }

  /**
   * A miss is always the literal "No README found", and it happens exactly
   * when every candidate answered and none was a hit.
   */
  lemma {:induction false} MissMeansNoCandidateHit(names: seq<string>, fetch: string -> HttpResponse<string>,
                                                   decode: string -> string)
    ensures ReadmeFrom(names, fetch, decode).Ok? && ReadmeFrom(names, fetch, decode).value.Miss? <==>
              forall j :: 0 <= j < |names| ==> fetch(names[j]).Response? && !IsHit(fetch(names[j]))
    ensures ReadmeFrom(names, fetch, decode).Ok? && ReadmeFrom(names, fetch, decode).value.Miss? ==>
              ReadmeFrom(names, fetch, decode).value.message == NoReadme
    decreases |names|
  {
    if |names| > 0 {
      MissMeansNoCandidateHit(names[1..], fetch, decode);
      if fetch(names[0]).Response? && !IsHit(fetch(names[0])) {
        assert forall j :: 1 <= j < |names| ==> names[j] == names[1..][j - 1];
      }
    }
  }
}
