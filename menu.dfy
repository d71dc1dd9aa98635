/**
  The per-menu loop shared by the three implementations: every extracted
  line is resolved in turn, and the response lists each line with the first
  image found for it, or `null`.
 */
module Menu {
  import opened Wrappers
  import opened Collaborators
  import opened ImageSearch
  import opened DishName
  import EnhancedSearch
  import TsRoute
  import PyRoute

  /** The three implementations of the upload endpoint. */
  datatype Implementation = NextRoute | VercelFunction | FlaskBackend

  /** The name an implementation searches for, after cleaning the line. */
  function Name(impl: Implementation, line: string): string
  {
    if impl == NextRoute then TsCleanName(line) else PyCleanName(line)
  }

  /** The implementation refuses to search for this line (too short, or a category header). */
  predicate Rejected(impl: Implementation, line: string)
  {
    if impl == NextRoute then TsRejected(Name(impl, line)) else PyRejected(Name(impl, line))
  }

  /** How the implementation resolves one line. */
  function Resolve(impl: Implementation, line: string, credentials: bool, env: Env): Resolution
  {
    match impl
    case NextRoute => TsRoute.TsResolve(line, credentials, env)
    case VercelFunction => PyRoute.PyResolve(PyRoute.VercelFunction, line, credentials, env)
    case FlaskBackend => PyRoute.PyResolve(PyRoute.FlaskBackend, line, credentials, env)
  }

  /** `url` is among the filtered results of one of the searches `r` sent. */
  predicate Found(r: Resolution, env: Env, url: string)
  {
    exists k | 0 <= k < |r.searches| ::
      SearchResults(env.search, r.searches[k]).Some? && url in SearchResults(env.search, r.searches[k]).value
  }

  /**
    Every implementation returns at most one image per line, and only a URL
    that one of its own searches returned; without credentials, or for a
    rejected line, it returns nothing and sends nothing.
   */
  lemma ResolveOutcome(impl: Implementation, line: string, credentials: bool, env: Env)
    ensures var r := Resolve(impl, line, credentials, env);
      && |r.images| <= 1
      && (r.images != [] ==> Found(r, env, r.images[0]))
      && (!credentials || Rejected(impl, line) ==> r == Resolution([], [], []))
  {
    if credentials && !Rejected(impl, line) {
      var name := Name(impl, line);
      match impl
      case NextRoute =>
        TsRoute.ResolveNameOutcome(name, EnhancedSearch.Strategies(name), env);
        TsRoute.ResolveNameSearches(name, EnhancedSearch.Strategies(name), env);
      case VercelFunction =>
        PyRoute.TryFromOutcome(name, PyRoute.Strategies(name, PyRoute.VercelFunction), 0, env);
      case FlaskBackend =>
        PyRoute.TryFromOutcome(name, PyRoute.Strategies(name, PyRoute.FlaskBackend), 0, env);
    }
  }

  /** The response entry for one line. */
  function Entry(impl: Implementation, line: string, credentials: bool, env: Env): MenuResult
  {
    MenuResult(line, FirstOrNull(Resolve(impl, line, credentials, env).images))
  }

  /** The response entries for the extracted lines; line `i` is resolved in environment `world(i)`. */
  function MenuOf(impl: Implementation, items: seq<string>, credentials: bool, world: nat -> Env): seq<MenuResult>
  {
    seq(|items|, i requires 0 <= i < |items| => Entry(impl, items[i], credentials, world(i)))
  }

  /** One line through the implementation's own `fetchImageForItem` / `fetch_image_for_item`. */
  method FetchImage(impl: Implementation, line: string, credentials: bool, env: Env) returns (r: Resolution)
    ensures r == Resolve(impl, line, credentials, env)
  {
    match impl
    case NextRoute => r := TsRoute.FetchImageForItem(line, credentials, env);
    case VercelFunction => r := PyRoute.FetchImageForItem(PyRoute.VercelFunction, line, credentials, env);
    case FlaskBackend => r := PyRoute.FetchImageForItem(PyRoute.FlaskBackend, line, credentials, env);
  }

  /** The entry for one line: the line and the first image found for it, or `null`. */
  method FetchEntry(impl: Implementation, line: string, credentials: bool, env: Env) returns (entry: MenuResult)
    ensures entry == Entry(impl, line, credentials, env)
  {
    var found := FetchImage(impl, line, credentials, env);
    entry := MenuResult(line, if |found.images| > 0 then Some(found.images[0]) else None);
  }

  /** The results loop of the upload endpoint. */
  method BuildMenu(impl: Implementation, items: seq<string>, credentials: bool, world: nat -> Env)
    returns (results: seq<MenuResult>)
    ensures results == MenuOf(impl, items, credentials, world)
  {
    results := [];
    for i := 0 to |items|
      invariant |results| == i
      invariant forall j | 0 <= j < i :: results[j] == Entry(impl, items[j], credentials, world(j))
    {
      var entry := FetchEntry(impl, items[i], credentials, world(i));
      results := results + [entry];
    }
  }

  /**
    The response keeps every extracted line, in order, even the rejected
    ones (category headers included), which get `null`; any image given is
    a URL returned by a search made for that line.
   */
  lemma MenuKeepsEveryLine(impl: Implementation, items: seq<string>, credentials: bool, world: nat -> Env)
    ensures var m := MenuOf(impl, items, credentials, world);
      && |m| == |items|
      && (forall i | 0 <= i < |m| :: m[i].item == items[i])
      && (forall i | 0 <= i < |m| && (!credentials || Rejected(impl, items[i])) :: m[i].image == None)
      && (forall i | 0 <= i < |m| && m[i].image.Some? ::
            Found(Resolve(impl, items[i], credentials, world(i)), world(i), m[i].image.value))
  {
    var m := MenuOf(impl, items, credentials, world);
    forall i | 0 <= i < |m|
      ensures m[i].item == items[i]
      ensures (!credentials || Rejected(impl, items[i])) ==> m[i].image == None
      ensures m[i].image.Some? ==> Found(Resolve(impl, items[i], credentials, world(i)), world(i), m[i].image.value)
    {
      ResolveOutcome(impl, items[i], credentials, world(i));
    }
  }
}
