/**
  The TypeScript route's per-dish resolution (`fetchImageForItem` and
  `getAiSelectedImage`): normalise the line, gather up to 3 candidates, ask
  the ranking model once, and return its pick or the first candidate.
 */
module TsRoute {
  import opened Wrappers
  import opened Seqs
  import opened Collaborators
  import opened ImageSearch
  import opened DishName
  import opened Verdict
  import opened EnhancedSearch

  /**
    What `fetchImageForItem` returns for one line, and the requests it sends.
    Without credentials, or for a rejected name, nothing is sent. Otherwise
    the strategy queries run; with no candidate the model is not asked; with
    candidates it is asked once, and a truthy pick wins over the first
    candidate.
   */
  function TsResolve(line: string, credentials: bool, env: Env): (r: Resolution)
  {
    if !credentials then Resolution([], [], [])
    else
      var name := TsCleanName(line);
      if TsRejected(name) then Resolution([], [], [])
      else ResolveName(name, Strategies(name), env)
  }

  /** The resolution of an accepted name over the query list `qs`. */
  function ResolveName(name: string, qs: seq<string>, env: Env): (r: Resolution)
  {
    var searches := Requests(qs[..Tried(qs, env.search)], SearchSize);
    var candidates := Candidates(qs, env.search);
    if candidates == [] then Resolution([], searches, [])
    else
      var req := RankRequest(name, candidates);
      var pick := TsVerdict(candidates, env.rank(req));
      Resolution(if Truthy(pick) then [pick.value] else candidates[..1], searches, [req])
  }

  /**
    `getAiSelectedImage`: an empty list gives `null` without asking the
    model; otherwise the model is asked once about the list.
   */
  method GetAiSelectedImage(dish: string, urls: seq<string>, rank: RankRequest -> RankReply)
    returns (pick: Option<string>, asked: seq<RankRequest>)
    ensures urls == [] ==> pick == None && asked == []
    ensures urls != [] ==> asked == [RankRequest(dish, urls)] && pick == TsVerdict(urls, rank(RankRequest(dish, urls)))
  {
    if |urls| == 0 {
      return None, [];
    }
    var req := RankRequest(dish, urls);
    pick := TsVerdict(urls, rank(req));
    asked := [req];
  }

  /** `fetchImageForItem`, returning the requests it sent beside its result. */
  method FetchImageForItem(line: string, credentials: bool, env: Env) returns (r: Resolution)
    ensures r == TsResolve(line, credentials, env)
  {
    if !credentials {
      return Resolution([], [], []);
    }
    var name := TsCleanName(line);
    if TsRejected(name) {
      return Resolution([], [], []);
    }
    var candidates, searches := GetEnhancedImagesForDish(name, env.search);
    if |candidates| == 0 {
      return Resolution([], searches, []);
    }
    var best, asked := GetAiSelectedImage(name, candidates, env.rank);
    if best.Some? && best.value != "" {
      return Resolution([best.value], searches, asked);
    }
    return Resolution(candidates[..1], searches, asked);
  }

  /**
    Missing credentials, or a name that is too short or a category header,
    give no image and send no request at all.
   */
  lemma TsRejectionSendsNothing(line: string, credentials: bool, env: Env)
    requires !credentials || TsRejected(TsCleanName(line))
    ensures TsResolve(line, credentials, env) == Resolution([], [], [])
  {
  }

  /**
    The outcome for an accepted name: no image exactly when there are no
    candidates, and then the model is not asked; otherwise exactly one
    image, one of the candidates, which is the model's pick when that is
    truthy and the first candidate otherwise, after exactly one request to
    the model.
   */
  lemma ResolveNameOutcome(name: string, qs: seq<string>, env: Env)
    ensures var candidates := Candidates(qs, env.search);
      var r := ResolveName(name, qs, env);
      && (r.images == [] <==> candidates == [])
      && (r.ranks == [] <==> candidates == [])
      && |r.images| <= 1
      && (r.images != [] ==> r.images[0] in candidates)
      && (candidates != [] ==>
            var pick := TsVerdict(candidates, env.rank(RankRequest(name, candidates)));
            && r.ranks == [RankRequest(name, candidates)]
            && r.images == [if Truthy(pick) then pick.value else candidates[0]])
  {
  }

  /**
    The searches sent are the queries in order, each asking for 3 results,
    up to the point where 3 candidates were held, and the image is a URL
    one of them returned.
   */
  lemma ResolveNameSearches(name: string, qs: seq<string>, env: Env)
    ensures var r := ResolveName(name, qs, env);
      && r.searches == Requests(qs[..Tried(qs, env.search)], SearchSize)
      && (forall s | 0 <= s < Tried(qs, env.search) :: |Accumulated(qs, env.search, s)| < TargetCount)
      && (r.images != [] ==> exists j | 0 <= j < |r.searches| ::
            SearchResults(env.search, r.searches[j]).Some? && r.images[0] in SearchResults(env.search, r.searches[j]).value)
  {
    var r := ResolveName(name, qs, env);
    var n := Tried(qs, env.search);
    TriedIsLeast(qs, env.search);
    CandidatesAreFirstDistinct(qs, env.search);
    if r.images != [] {
      var u := r.images[0];
      ResolveNameOutcome(name, qs, env);
      assert u in Candidates(qs, env.search);
      var j :| 0 <= j < n && SearchResults(env.search, QueryRequest(qs, j)).Some?
        && u in SearchResults(env.search, QueryRequest(qs, j)).value;
      assert r.searches[j] == QueryRequest(qs, j);
    }
  }
}
