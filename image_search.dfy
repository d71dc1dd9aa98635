/**
  The image-search client: one request to the search service, whose links
  are then screened for words that mark logos and signage. The three
  implementations share this code unchanged.
 */
module ImageSearch {
  import opened Wrappers
  import opened Seqs
  import opened Text
  import opened Collaborators

  /** Lower-case words that disqualify a link wherever they appear in it. */
  const SkipKeywords: seq<string> := ["logo", "sign", "banner", "icon"]

  /** A link is kept when its lower-case form holds none of the skip words. */
  predicate IsFoodUrl(url: string)
  {
    forall k | 0 <= k < |SkipKeywords| :: !IsInfix(SkipKeywords[k], Lower(url))
  }

  /** The links that survive the keyword screen, in their original order. */
  function KeepFood(links: seq<string>): seq<string>
  {
    Filter(links, IsFoodUrl)
  }

  /**
    The keyword screen keeps exactly the links free of skip words (both
    directions), each as many times as it occurs, never adds one, and keeps
    their order.
   */
  lemma KeepFoodSpec(links: seq<string>)
    ensures forall u :: u in KeepFood(links) <==> u in links && IsFoodUrl(u)
    ensures forall u :: multiset(KeepFood(links))[u] == if IsFoodUrl(u) then multiset(links)[u] else 0
    ensures IsSubsequence(KeepFood(links), links)
    ensures |KeepFood(links)| <= |links|
  {
    forall u ensures multiset(KeepFood(links))[u] == if IsFoodUrl(u) then multiset(links)[u] else 0 {
      FilterCounts(links, IsFoodUrl, u);
    }
    forall u ensures u in KeepFood(links) <==> u in links && IsFoodUrl(u) {
      FilterMembers(links, IsFoodUrl, u);
    }
    FilterIsSubsequence(links, IsFoodUrl);
  }

  /**
    The screen matches words, not path segments: a dish photo whose address
    holds "design" (which contains "sign") is dropped as well, and so is one
    whose address spells "LOGO" in capitals.
   */
  lemma ScreenIsCaseInsensitiveSubstring()
    ensures !IsFoodUrl("https://cdn.example/designer-pasta.jpg")
    ensures !IsFoodUrl("https://cdn.example/LOGO.png")
  {
    assert OccursAt(Lower("https://cdn.example/designer-pasta.jpg"), "sign", 22);
    OccurrenceIsInfix("sign", Lower("https://cdn.example/designer-pasta.jpg"), 22);
    assert SkipKeywords[1] == "sign";
    assert OccursAt(Lower("https://cdn.example/LOGO.png"), "logo", 20);
    OccurrenceIsInfix("logo", Lower("https://cdn.example/LOGO.png"), 20);
    assert SkipKeywords[0] == "logo";
  }

  /** The filtered results of one search, or `None` when the search raised. */
  function SearchResults(search: SearchRequest -> SearchOutcome, req: SearchRequest): Option<seq<string>>
  {
    match search(req)
    case SearchFailed => None
    case Links(links) => Some(KeepFood(links))
  }

  /**
    `getImagesFromSearch` / `get_images_from_search`: issue the request; a
    failure is raised (here `None`), otherwise the links are screened one by
    one into a fresh list.
   */
  method GetImagesFromSearch(req: SearchRequest, search: SearchRequest -> SearchOutcome)
    returns (r: Option<seq<string>>)
    ensures search(req).SearchFailed? <==> r.None?
    ensures r.Some? ==> r.value == KeepFood(search(req).links)
  {
    var outcome := search(req);
    if outcome.SearchFailed? {
      return None;
    }
    var links := outcome.links;
    var valid: seq<string> := [];
    for i := 0 to |links|
      invariant valid == KeepFood(links[..i])
    {
      var url := links[i];
      if IsFoodUrl(url) {
        valid := valid + [url];
      }
      assert links[..i + 1][..i] == links[..i];
    }
    assert links[..|links|] == links;
    return Some(valid);
  }
}
