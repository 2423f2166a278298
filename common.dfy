/**
 * Values shared by every component: optional values, results carrying the
 * service's error kinds, hosting-provider responses, the loosely typed
 * values that appear in metadata and pipeline context, and an
 * insertion-ordered dictionary.
 */
module Common {

  datatype Option<+T> = None | Some(value: T)

  /**
   * The exception classes the service raises. CustomException.py declares
   * AnalyzerError, CommitNotFoundError, GitHubAPIError and
   * GoogleCloudStorageError; the GitLab modules also raise GitLabAPIError,
   * which no file declares (see IsDeclared). GenericError stands for a bare
   * `Exception` or any library exception that is not one of these.
   */
  datatype ErrorKind =
    | AnalyzerError
    | CommitNotFoundError
    | GitHubApiError
    | GoogleCloudStorageError
    | GitLabApiError
    | GenericError
  {
    /** True for the classes that CustomException.py actually declares. */
    predicate IsDeclared() {
      this != GitLabApiError && this != GenericError
    }
  }

  datatype Result<+T> = Ok(value: T) | Err(error: ErrorKind)

  /**
   * What a call to the hosting provider produced: a response with a status
   * code and a decoded body, or a transport failure (a requests
   * RequestException).
   */
  datatype HttpResponse<+B> = Response(status: int, body: B) | ConnectionFailed
  {
    predicate IsOk() { Response? && status == 200 }
  }

  /** A JSON-ish value as found in release metadata and pipeline context. */
  datatype PyValue = PyNone | PyStr(s: string) | PyInt(n: int)
  {
    /** Python truthiness. */
    predicate Truthy() {
      match this
      case PyNone => false
      case PyStr(s) => s != ""
      case PyInt(n) => n != 0
    }
  }

  /** Python's `str(v)`, which is also what an f-string interpolates. */
  function Str(v: PyValue): (r: string)
    ensures v.PyStr? ==> r == v.s
    ensures v.PyInt? && v.n >= 0 ==> |r| > 0 && '0' <= r[0] <= '9'
  {
    match v
    case PyNone => "None"
    case PyStr(s) => s
    case PyInt(n) => IntToString(n)
  }

  function DigitChar(d: nat): (c: char)
    requires d < 10
    ensures '0' <= c <= '9'
  {
    ['0', '1', '2', '3', '4', '5', '6', '7', '8', '9'][d]
  }

  /** Decimal rendering of a natural number, most significant digit first. */
  function NatToString(n: nat): (r: string)
    ensures |r| > 0 && '0' <= r[0] <= '9'
    decreases n
  {
    if n < 10 then [DigitChar(n)] else NatToString(n / 10) + [DigitChar(n % 10)]
  }

  function IntToString(n: int): (r: string)
    ensures |r| > 0
  {
    if n < 0 then "-" + NatToString(-n) else NatToString(n)
  }

  /** Truthiness of an optional string setting or argument (`if bucket_name:`). */
  predicate IsSet(name: Option<string>) {
    name.Some? && name.value != ""
  }

  /**
   * A Python dict: its keys in insertion order and the value of each key.
   * Assigning to an existing key keeps its position.
   */
  datatype Dict<V> = Dict(keys: seq<string>, values: map<string, V>)
  {
    ghost predicate Valid() {
      && (forall i, j :: 0 <= i < j < |keys| ==> keys[i] != keys[j])
      && (forall k :: k in values <==> k in keys)
    }

    predicate IsEmpty() { |keys| == 0 }

    /** `d[k] = v` */
    function Put(k: string, v: V): (d: Dict<V>)
      ensures d.values == values[k := v]
      ensures k in values ==> d.keys == keys
      ensures k !in values ==> d.keys == keys + [k]
    {
      if k in values then Dict(keys, values[k := v]) else Dict(keys + [k], values[k := v])
    }
  }

  function EmptyDict<V>(): (d: Dict<V>)
    ensures d.Valid() && d.IsEmpty()
  {
    Dict([], map[])
  }

  lemma PutValid<V>(d: Dict<V>, k: string, v: V)
    requires d.Valid()
    ensures d.Put(k, v).Valid()
  {
  }

  /** No element of `s` occurs twice. */
  ghost predicate NoDuplicates<T>(s: seq<T>) {
    forall i, j :: 0 <= i < j < |s| ==> s[i] != s[j]
  }

  function Elements<T>(s: seq<T>): set<T> {
    set x | x in s
  }

  /** A sequence without duplicates has as many elements as its set. */
  lemma {:induction false} DistinctCard<T>(s: seq<T>)
    requires NoDuplicates(s)
    ensures |Elements(s)| == |s|
  {
    if |s| > 0 {
      var t := s[..|s| - 1];
      assert NoDuplicates(t);
      DistinctCard(t);
      assert Elements(s) == Elements(t) + {s[|s| - 1]};
      assert s[|s| - 1] !in Elements(t);
    }
  }

  /** A set taken from a sequence has at most as many elements. */
  lemma {:induction false} ElementsCard<T>(s: seq<T>)
    ensures |Elements(s)| <= |s|
  {
    if |s| > 0 {
      var t := s[..|s| - 1];
      ElementsCard(t);
      assert Elements(s) == Elements(t) + {s[|s| - 1]};
    }
  }
}
