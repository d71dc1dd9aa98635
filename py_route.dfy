/**
  The Python per-dish resolution (`fetch_image_for_item`), shared by the
  serverless function and the Flask backend, which differ only in their
  query suffixes. Each query asks for 3 results; a query with fewer than 2
  filtered results is skipped without asking the ranking model; the first
  truthy pick is returned; when every query fails, one last search for
  `"<name> food"` asking for 1 result gives at most one URL.
 */
module PyRoute {
  import opened Wrappers
  import opened Seqs
  import opened Collaborators
  import opened ImageSearch
  import opened DishName
  import opened Verdict

  /** The two Python implementations. */
  datatype Variant = VercelFunction | FlaskBackend

  /** The `num` of every strategy query (the default `num=3`). */
  const StrategySize: nat := 3
  /** Fewer filtered results than this and the strategy is skipped. */
  const MinOptions: nat := 2
  /** The suffix and `num` of the fallback query. */
  const FallbackSuffix: string := " food"
  const FallbackSize: nat := 1

  /** The query suffixes of each implementation, in the order they are tried. */
  function Suffixes(variant: Variant): seq<string>
  {
    match variant
    case VercelFunction => [" pinterest", " restaurant dish", " food blog"]
    case FlaskBackend => [" pinterest", " food blog", " plated", " restaurant"]
  }

  /** The strategy queries for a dish name. */
  function Strategies(name: string, variant: Variant): seq<string>
  {
    seq(|Suffixes(variant)|, k requires 0 <= k < |Suffixes(variant)| => name + Suffixes(variant)[k])
  }

  /**
    The serverless function tries three queries and the Flask backend four,
    all about the dish and no two the same, so no search request is sent
    twice for one line.
   */
  lemma StrategiesDistinct(name: string, variant: Variant)
    ensures |Strategies(name, variant)| == if variant == VercelFunction then 3 else 4
    ensures Distinct(Strategies(name, variant))
    ensures forall q | q in Strategies(name, variant) :: |name| <= |q| && q[..|name|] == name
  {
    // The suffixes of equal length differ in their second character.
    var s := Suffixes(variant);
    forall i, j | 0 <= i < j < |s| ensures s[i] != s[j] {
      if |s[i]| == |s[j]| {
        assert s[i][1] != s[j][1];
      }
    }
    ExtensionsDistinct(name, s, Strategies(name, variant));
  }

  /** The request sent for strategy query `q`. */
  function StrategyRequest(q: string): SearchRequest
  {
    SearchRequest(q, StrategySize)
  }

  /** The request the ranking model gets for strategy query `q`, if it is asked at all. */
  function StrategyRanks(name: string, q: string, env: Env): (ranks: seq<RankRequest>)
    ensures |ranks| <= 1
    ensures forall r | r in ranks :: r.dish == name && |r.urls| >= MinOptions
  {
    match SearchResults(env.search, StrategyRequest(q))
    case None => []
    case Some(urls) => if |urls| < MinOptions then [] else [RankRequest(name, urls)]
  }

  /**
    The URL strategy query `q` settles on, if any: its search must succeed
    with at least 2 filtered results and the model's pick must be truthy.
   */
  function StrategyPick(name: string, q: string, env: Env): (pick: Option<string>)
    ensures pick.Some? ==> pick.value != ""
    ensures pick.Some? ==>
      && SearchResults(env.search, StrategyRequest(q)).Some?
      && pick.value in SearchResults(env.search, StrategyRequest(q)).value
  {
    match SearchResults(env.search, StrategyRequest(q))
    case None => None
    case Some(urls) =>
      if |urls| < MinOptions then None
      else
        var pick := PyVerdict(urls, env.rank(RankRequest(name, urls)));
        if Truthy(pick) then pick else None
  }

  /** The fallback request. */
  function FallbackRequest(name: string): SearchRequest
  {
    SearchRequest(name + FallbackSuffix, FallbackSize)
  }

  /** What the fallback returns: the first filtered URL, or nothing (also when it raises). */
  function FallbackImages(name: string, env: Env): (images: seq<string>)
    ensures |images| <= 1
  {
    match SearchResults(env.search, FallbackRequest(name))
    case None => []
    case Some(urls) => Take(urls, 1)
  }

  /** `rest`, preceded by the searches and ranking requests sent before it. */
  function After(searches: seq<SearchRequest>, ranks: seq<RankRequest>, rest: Resolution): Resolution
  {
    Resolution(rest.images, searches + rest.searches, ranks + rest.ranks)
  }

  /** The strategies from position `i` on, then the fallback if none settles. */
  function TryFrom(name: string, qs: seq<string>, i: nat, env: Env): (r: Resolution)
    requires i <= |qs|
    decreases |qs| - i
  {
    if i == |qs| then Resolution(FallbackImages(name, env), [FallbackRequest(name)], [])
    else
      var req := StrategyRequest(qs[i]);
      var ranks := StrategyRanks(name, qs[i], env);
      match StrategyPick(name, qs[i], env)
      case Some(url) => Resolution([url], [req], ranks)
      case None => After([req], ranks, TryFrom(name, qs, i + 1, env))
  }

  /** What `fetch_image_for_item` returns for one line, and the requests it sends. */
  function PyResolve(variant: Variant, line: string, credentials: bool, env: Env): (r: Resolution)
  {
    if !credentials then Resolution([], [], [])
    else
      var name := PyCleanName(line);
      if PyRejected(name) then Resolution([], [], [])
      else TryFrom(name, Strategies(name, variant), 0, env)
  }

  /**
    `get_ai_selected_image`: an empty list gives `None` without asking the
    model; otherwise the model is asked once about the list.
   */
  method GetAiSelectedImage(dish: string, urls: seq<string>, rank: RankRequest -> RankReply)
    returns (pick: Option<string>, asked: seq<RankRequest>)
    ensures urls == [] ==> pick == None && asked == []
    ensures urls != [] ==> asked == [RankRequest(dish, urls)] && pick == PyVerdict(urls, rank(RankRequest(dish, urls)))
  {
    if |urls| == 0 {
      return None, [];
    }
    var req := RankRequest(dish, urls);
    pick := PyVerdict(urls, rank(req));
    asked := [req];
  }

  /** One pass of the strategy loop: search for `q`, then ask the model when there are at least 2 results. */
  method TryStrategy(name: string, q: string, env: Env) returns (asked: seq<RankRequest>, pick: Option<string>)
    ensures asked == StrategyRanks(name, q, env)
    ensures pick == StrategyPick(name, q, env)
  {
    var found := GetImagesFromSearch(StrategyRequest(q), env.search);
    if found.None? || |found.value| < MinOptions {
      return [], None;
    }
    var best;
    best, asked := GetAiSelectedImage(name, found.value, env.rank);
    pick := if best.Some? && best.value != "" then best else None;
  }

  /** Prefixes accumulate: what is logged before `After` adds to what was logged before. */
  lemma AfterAfter(s1: seq<SearchRequest>, r1: seq<RankRequest>, s2: seq<SearchRequest>, r2: seq<RankRequest>, rest: Resolution)
    ensures After(s1, r1, After(s2, r2, rest)) == After(s1 + s2, r1 + r2, rest)
  {
    assert s1 + (s2 + rest.searches) == (s1 + s2) + rest.searches;
    assert r1 + (r2 + rest.ranks) == (r1 + r2) + rest.ranks;
  }

  /** The strategy loop and fallback of `fetch_image_for_item` over the queries `qs`. */
  method TryStrategies(name: string, qs: seq<string>, env: Env) returns (r: Resolution)
    ensures r == TryFrom(name, qs, 0, env)
  {
    var searches: seq<SearchRequest> := [];
    var ranks: seq<RankRequest> := [];
    assert After([], [], TryFrom(name, qs, 0, env)) == TryFrom(name, qs, 0, env);
    for i := 0 to |qs|
      invariant TryFrom(name, qs, 0, env) == After(searches, ranks, TryFrom(name, qs, i, env))
    {
      var req := StrategyRequest(qs[i]);
      var asked, pick := TryStrategy(name, qs[i], env);
      AfterAfter(searches, ranks, [req], asked, TryFrom(name, qs, i + 1, env));
      searches := searches + [req];
      ranks := ranks + asked;
      if pick.Some? {
        return Resolution([pick.value], searches, ranks);
      }
    }
    var fallback := FallbackRequest(name);
    var found := GetImagesFromSearch(fallback, env.search);
    var images := if found.Some? then Take(found.value, 1) else [];
    assert ranks + [] == ranks;
    return Resolution(images, searches + [fallback], ranks);
  }

  /** `fetch_image_for_item`, returning the requests it sent beside its result. */
  method FetchImageForItem(variant: Variant, line: string, credentials: bool, env: Env) returns (r: Resolution)
    ensures r == PyResolve(variant, line, credentials, env)
  {
    if !credentials {
      return Resolution([], [], []);
    }
    var name := PyCleanName(line);
    if PyRejected(name) {
      return Resolution([], [], []);
    }
    r := TryStrategies(name, Strategies(name, variant), env);
  }

  /** Missing credentials, or a rejected name, give no image and send no request. */
  lemma PyRejectionSendsNothing(variant: Variant, line: string, credentials: bool, env: Env)
    requires !credentials || PyRejected(PyCleanName(line))
    ensures PyResolve(variant, line, credentials, env) == Resolution([], [], [])
  {
  }

  /**
    The first strategy that settles wins: when the strategies before `j`
    settle on nothing and strategy `j` does, its pick is the one image, the
    strategy queries up to `j` are the only searches sent, and no fallback
    follows.
   */
  lemma {:induction false} FirstSuccessWins(name: string, qs: seq<string>, i: nat, j: nat, env: Env)
    requires i <= j < |qs|
    requires forall s | i <= s < j :: StrategyPick(name, qs[s], env).None?
    requires StrategyPick(name, qs[j], env).Some?
    ensures var r := TryFrom(name, qs, i, env);
      && r.images == [StrategyPick(name, qs[j], env).value]
      && r.searches == Requests(qs[i..j + 1], StrategySize)
    decreases j - i
  {
    if i < j {
      FirstSuccessWins(name, qs, i + 1, j, env);
      TryFromSkip(name, qs, i, env);
      RequestsCons(qs[i..j + 1], StrategySize);
      assert qs[i..j + 1][1..] == qs[i + 1..j + 1];
    } else {
      assert qs[i..j + 1] == [qs[i]];
    }
  }

  /** A strategy that settles on nothing adds its search in front of what the next ones do. */
  lemma TryFromSkip(name: string, qs: seq<string>, i: nat, env: Env)
    requires i < |qs| && StrategyPick(name, qs[i], env).None?
    ensures TryFrom(name, qs, i, env).images == TryFrom(name, qs, i + 1, env).images
    ensures TryFrom(name, qs, i, env).searches == [StrategyRequest(qs[i])] + TryFrom(name, qs, i + 1, env).searches
    ensures TryFrom(name, qs, i, env).ranks == StrategyRanks(name, qs[i], env) + TryFrom(name, qs, i + 1, env).ranks
  {
  }

  /**
    When no strategy settles, every strategy query is sent, then exactly one
    fallback query, and the image is what the fallback returns.
   */
  lemma {:induction false} NoSuccessFallsBack(name: string, qs: seq<string>, i: nat, env: Env)
    requires i <= |qs|
    requires forall s | i <= s < |qs| :: StrategyPick(name, qs[s], env).None?
    ensures var r := TryFrom(name, qs, i, env);
      && r.images == FallbackImages(name, env)
      && r.searches == Requests(qs[i..], StrategySize) + [FallbackRequest(name)]
    decreases |qs| - i
  {
    if i < |qs| {
      NoSuccessFallsBack(name, qs, i + 1, env);
      TryFromSkip(name, qs, i, env);
      RequestsCons(qs[i..], StrategySize);
      assert qs[i..][1..] == qs[i + 1..];
    }
  }

  /**
    At most one image, which is a URL returned by one of the searches sent;
    the model is asked only about lists of at least 2 URLs, about this dish.
   */
  lemma {:induction false} TryFromOutcome(name: string, qs: seq<string>, i: nat, env: Env)
    requires i <= |qs|
    ensures var r := TryFrom(name, qs, i, env);
      && |r.images| <= 1
      && (r.images != [] ==> exists k | 0 <= k < |r.searches| ::
            SearchResults(env.search, r.searches[k]).Some? && r.images[0] in SearchResults(env.search, r.searches[k]).value)
      && (forall q | q in r.ranks :: q.dish == name && |q.urls| >= MinOptions)
    decreases |qs| - i
  {
    var r := TryFrom(name, qs, i, env);
    if i == |qs| {
      if r.images != [] {
        assert r.searches[0] == FallbackRequest(name);
      }
    } else if StrategyPick(name, qs[i], env).Some? {
      assert r.searches[0] == StrategyRequest(qs[i]);
    } else {
      var rest := TryFrom(name, qs, i + 1, env);
      TryFromSkip(name, qs, i, env);
      TryFromOutcome(name, qs, i + 1, env);
      if r.images != [] {
        var k :| 0 <= k < |rest.searches| && SearchResults(env.search, rest.searches[k]).Some?
          && rest.images[0] in SearchResults(env.search, rest.searches[k]).value;
        assert r.searches[k + 1] == rest.searches[k];
      }
    }
  }
}
