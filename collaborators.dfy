/**
  The values exchanged with the external services. The image search, the
  ranking model and the menu-reading model are not modelled; what they answer
  is an input of the model (an `Env`), a function of the request they get.
 */
module Collaborators {
  import opened Wrappers
  import opened Seqs

  /** One byte of a request body or of an uploaded file. */
  type Byte = b: int | 0 <= b < 256

  /** One call to the image search: the query text and the number of results asked for. */
  datatype SearchRequest = SearchRequest(query: string, num: nat)

  /**
    What one image search gives back: a transport error or non-success HTTP
    status (which the search client raises), or the `link` of every item
    of a successful reply, in order (none when the reply has no `items`).
   */
  datatype SearchOutcome = SearchFailed | Links(links: seq<string>)

  /** One call to the ranking model: the dish name and the candidate URLs it is shown. */
  datatype RankRequest = RankRequest(dish: string, urls: seq<string>)

  /**
    What the ranking model gives back: the call failed (raised), or it
    answered with a message whose content may be absent (`null`/`None`).
   */
  datatype RankReply = RankFailed | Replied(content: Option<string>)

  /** What the menu-reading model gives back for a photo. */
  datatype ExtractionReply = ExtractionFailed | Extracted(content: Option<string>)

  /** How the two per-dish services answer while one menu line is resolved. */
  datatype Env = Env(search: SearchRequest -> SearchOutcome, rank: RankRequest -> RankReply)

  /**
    The outcome of resolving one menu line: the list the source returns
    (empty or one URL), and the requests it sent to the two services, in order.
   */
  datatype Resolution = Resolution(images: seq<string>, searches: seq<SearchRequest>, ranks: seq<RankRequest>)

  /** One entry of the response: the raw line and its image, or `null`. */
  datatype MenuResult = MenuResult(item: string, image: Option<string>)

  /** A JSON response body: the menu, or an error message. */
  datatype Response = Menu(menu: seq<MenuResult>) | Error(message: string)

  /** A value is truthy in JavaScript and Python when present and not the empty string. */
  predicate Truthy(s: Option<string>)
  {
    s.Some? && s.value != ""
  }

  /** `images[0]` when the list is non-empty, `null`/`None` otherwise. */
  function FirstOrNull(images: seq<string>): Option<string>
  {
    if images == [] then None else Some(images[0])
  }

  /** The search requests for a list of queries, each asking for `num` results. */
  function Requests(queries: seq<string>, num: nat): (r: seq<SearchRequest>)
    ensures |r| == |queries|
    ensures forall j | 0 <= j < |r| :: r[j] == SearchRequest(queries[j], num)
    decreases |queries|
  {
    if queries == [] then [] else [SearchRequest(queries[0], num)] + Requests(queries[1..], num)
  }

  /** The requests for a non-empty list: the first query's, then the rest's. */
  lemma RequestsCons(queries: seq<string>, num: nat)
    requires queries != []
    ensures Requests(queries, num) == [SearchRequest(queries[0], num)] + Requests(queries[1..], num)
  {
  }
}
