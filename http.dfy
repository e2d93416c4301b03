/** The page fetcher: one GET whose non-success statuses raise. */
module Http {
  import opened Base
  import opened Html

  /** What the network gives back for a URL: a response with a status and
      its parsed body, or no response at all (connection error, timeout). */
  datatype Response = Response(status: int, page: Document) | NoResponse

  /** The web at the moment of the run: what a GET of each URL returns. */
  type Web = string -> Response

  /** Why a fetch raised. */
  datatype FetchError = HttpStatus(code: int) | NetworkError

  /** `fetch(url)`: `raise_for_status()` raises for every status from 400 up,
      so only those and a missing response fail; any other status returns
      its body. */
  function Fetch(web: Web, url: string): (r: Result<Document, FetchError>)
    ensures r.Success? <==> web(url).Response? && web(url).status < 400
    ensures r.Success? ==> r.value == web(url).page
    ensures web(url).Response? && 400 <= web(url).status ==> r == Failure(HttpStatus(web(url).status))
    ensures web(url).NoResponse? ==> r == Failure(NetworkError)
  {
    match web(url)
    case NoResponse => Failure(NetworkError)
    case Response(status, page) => if status >= 400 then Failure(HttpStatus(status)) else Success(page)
  }
}
