/** Value wrappers shared by every part of the model. */
module Common {

  /** JavaScript `null`/`undefined` and Python `None` versus a present value. */
  datatype Option<T> = None | Some(value: T)

  /** An HTTPException raised by a FastAPI endpoint: its status code and detail text. */
  datatype HttpError = HttpError(status: int, detail: string)

  /** An unhandled exception (a database error, an overflow), as FastAPI reports it. */
  const ServerError: HttpError := HttpError(500, "Internal Server Error")

  /** What an endpoint returns: the response body, or the HTTPException it raised. */
  datatype Result<T> = Ok(value: T) | Err(error: HttpError)

  /** The outcome of one `fetch` as the client code sees it. */
  datatype Fetch<T> =
    | Response(ok: bool, body: T)  // the request completed; `ok` is `res.ok`
    | NetworkFailure               // the promise rejected, the `catch` branch runs

  /** How a JavaScript value tests in a condition such as `if (token)`. */
  predicate Truthy(s: Option<string>)
  {
    s.Some? && s.value != ""
  }

  /** The elements `keep` accepts, in order: the rows a `DELETE ... WHERE` leaves, say. */
  function Filter<T>(s: seq<T>, keep: T -> bool): (r: seq<T>)
    ensures |r| <= |s|
    ensures forall k :: 0 <= k < |r| ==> r[k] in s && keep(r[k])
    ensures forall k :: 0 <= k < |s| && keep(s[k]) ==> s[k] in r
  {
    if s == [] then [] else (if keep(s[0]) then [s[0]] else []) + Filter(s[1..], keep)
  }

  /** A relation that holds between every earlier and later element still holds after filtering. */
  lemma {:induction false} FilterPairs<T>(s: seq<T>, keep: T -> bool, p: (T, T) -> bool)
    requires forall i, j :: 0 <= i < j < |s| ==> p(s[i], s[j])
    ensures forall i, j :: 0 <= i < j < |Filter(s, keep)| ==> p(Filter(s, keep)[i], Filter(s, keep)[j])
  {
    if s != [] {
      var rest := s[1..];
      TailPairs(s, p);
      FilterPairs(rest, keep, p);
      if keep(s[0]) {
        assert Filter(s, keep) == [s[0]] + Filter(rest, keep);
        HeadPairs(s, p, Filter(rest, keep));
      } else {
        assert Filter(s, keep) == Filter(rest, keep);
      }
    }
  }

  lemma TailPairs<T>(s: seq<T>, p: (T, T) -> bool)
    requires s != [] && forall i, j :: 0 <= i < j < |s| ==> p(s[i], s[j])
    ensures forall i, j :: 0 <= i < j < |s[1..]| ==> p(s[1..][i], s[1..][j])
  {
    forall i, j | 0 <= i < j < |s[1..]| ensures p(s[1..][i], s[1..][j]) {
      assert s[1..][i] == s[i + 1] && s[1..][j] == s[j + 1];
    }
  }

  /** The first element, put in front of related later elements, is related to each of them. */
  lemma HeadPairs<T>(s: seq<T>, p: (T, T) -> bool, t: seq<T>)
    requires s != [] && forall i, j :: 0 <= i < j < |s| ==> p(s[i], s[j])
    requires forall k :: 0 <= k < |t| ==> t[k] in s[1..]
    requires forall i, j :: 0 <= i < j < |t| ==> p(t[i], t[j])
    ensures forall i, j :: 0 <= i < j < |[s[0]] + t| ==> p(([s[0]] + t)[i], ([s[0]] + t)[j])
  {
    var r := [s[0]] + t;
    forall i, j | 0 <= i < j < |r| ensures p(r[i], r[j]) {
      if i == 0 {
        var m :| 0 <= m < |s[1..]| && s[1..][m] == t[j - 1];
        assert s[m + 1] == r[j];
      } else {
        assert r[i] == t[i - 1] && r[j] == t[j - 1];
      }
    }
  }
}
