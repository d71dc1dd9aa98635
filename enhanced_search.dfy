/**
  The TypeScript route's candidate gathering (`getEnhancedImagesForDish`):
  twelve fixed queries are tried in order, each asking for 3 results; new
  URLs are appended while the list holds fewer than 10; the loop stops as
  soon as 3 URLs are held; a query whose search raises is skipped. The first
  3 URLs are returned.
 */
module EnhancedSearch {
  import opened Wrappers
  import opened Seqs
  import opened Collaborators
  import opened ImageSearch

  /** Enough candidates to stop searching, and the number handed on. */
  const TargetCount: nat := 3
  /** No URL is added once the list holds this many. */
  const InternalCap: nat := 10
  /** The `num` of every query. */
  const SearchSize: nat := 3

  /** What is appended to the dish name, in the order the queries are tried. */
  const StrategySuffixes: seq<string> := [
    " pinterest recipe food photography",
    " pinterest food blog beautiful",
    " food blog recipe site:allrecipes.com OR site:foodnetwork.com",
    " cooking blog gourmet photography",
    " recipe blog professional food photography",
    " restaurant menu dish plated professional",
    " gourmet restaurant presentation food styling",
    " chef prepared restaurant quality",
    " food photography styled appetizing",
    " culinary arts food styling photography",
    " delicious food photo high quality",
    " homemade recipe beautiful presentation"
  ]

  /** The twelve query strings for a dish, in order. */
  function Strategies(dish: string): seq<string>
  {
    seq(|StrategySuffixes|, k requires 0 <= k < |StrategySuffixes| => dish + StrategySuffixes[k])
  }

  /**
    The twelve queries are all about the dish and no two are the same, so no
    search request is sent twice for one line.
   */
  lemma StrategiesDistinct(dish: string)
    ensures |Strategies(dish)| == 12
    ensures Distinct(Strategies(dish))
    ensures forall q | q in Strategies(dish) :: |dish| <= |q| && q[..|dish|] == dish
  {
    ExtensionsDistinct(dish, StrategySuffixes, Strategies(dish));
  }

  /** The check inside the inner loop: a URL is appended when it is new and there is room. */
  function Admit(acc: seq<string>, url: string): seq<string>
  {
    if url !in acc && |acc| < InternalCap then acc + [url] else acc
  }

  /** The list after the inner loop `for (const url of urls)` has run over `urls`. */
  function AddUnique(acc: seq<string>, urls: seq<string>): (r: seq<string>)
    decreases |urls|
  {
    if urls == [] then acc
    else Admit(AddUnique(acc, urls[..|urls| - 1]), urls[|urls| - 1])
  }

  /**
    The inner loop only ever appends at the end, stays within the cap, and
    holds only what was held or offered.
   */
  lemma {:induction false} AddUniqueGrows(acc: seq<string>, urls: seq<string>)
    ensures var r := AddUnique(acc, urls);
      && |acc| <= |r| && r[..|acc|] == acc
      && (|acc| <= InternalCap ==> |r| <= InternalCap)
      && (forall u | u in r :: u in acc || u in urls)
    decreases |urls|
  {
    if urls != [] {
      var init := urls[..|urls| - 1];
      AddUniqueGrows(acc, init);
      var before := AddUnique(acc, init);
      assert forall u | u in init :: u in urls;
      if urls[|urls| - 1] !in before && |before| < InternalCap {
        assert (before + [urls[|urls| - 1]])[..|acc|] == before[..|acc|];
      }
    }
  }

  /** The inner loop never appends a URL the list already holds. */
  lemma {:induction false} AddUniqueKeepsDistinct(acc: seq<string>, urls: seq<string>)
    requires Distinct(acc)
    ensures Distinct(AddUnique(acc, urls))
    decreases |urls|
  {
    if urls != [] {
      var before := AddUnique(acc, urls[..|urls| - 1]);
      AddUniqueKeepsDistinct(acc, urls[..|urls| - 1]);
      var u := urls[|urls| - 1];
      if u !in before && |before| < InternalCap {
        var r := before + [u];
        forall i, j | 0 <= i < j < |r| ensures r[i] != r[j] {
          if j == |before| {
            assert r[i] == before[i];
          }
        }
      }
    }
  }

  /** The request sent for the query at position `k`. */
  function QueryRequest(qs: seq<string>, k: nat): SearchRequest
    requires k < |qs|
  {
    SearchRequest(qs[k], SearchSize)
  }

  /** The URLs query `k` offers to the inner loop: its filtered result, or none when its search raises. */
  function Offered(qs: seq<string>, search: SearchRequest -> SearchOutcome, k: nat): (urls: seq<string>)
    requires k < |qs|
    ensures urls != [] ==> SearchResults(search, QueryRequest(qs, k)) == Some(urls)
  {
    var found := SearchResults(search, QueryRequest(qs, k));
    if found.Some? then found.value else []
  }

  /** Every URL the first `k` queries found, in the order found, repeats included. */
  function Discovered(qs: seq<string>, search: SearchRequest -> SearchOutcome, k: nat): seq<string>
    requires k <= |qs|
  {
    if k == 0 then [] else Discovered(qs, search, k - 1) + Offered(qs, search, k - 1)
  }

  /**
    The list held once the first `k` queries have run (whether or not the
    loop would have stopped earlier): everything they found, through the
    inner loop.
   */
  function Accumulated(qs: seq<string>, search: SearchRequest -> SearchOutcome, k: nat): (acc: seq<string>)
    requires k <= |qs|
  {
    AddUnique([], Discovered(qs, search, k))
  }

  /** The first position from `t` on, below `n`, at which `enough` holds; `n` when there is none. */
  function FirstFrom(n: nat, enough: nat -> bool, t: nat): (r: nat)
    requires t <= n
    ensures t <= r <= n
    ensures r == n || enough(r)
    decreases n - t
  {
    if t == n || enough(t) then t else FirstFrom(n, enough, t + 1)
  }

  /** `FirstFrom` is the least such position: `enough` fails everywhere before it. */
  lemma {:induction false} FirstFromIsLeast(n: nat, enough: nat -> bool, t: nat)
    requires t <= n
    ensures forall s | t <= s < FirstFrom(n, enough, t) :: !enough(s)
    decreases n - t
  {
    if t < n && !enough(t) {
      FirstFromIsLeast(n, enough, t + 1);
    }
  }

  /** Whether 3 URLs are held once the first `s` queries have run. */
  function Enough(qs: seq<string>, search: SearchRequest -> SearchOutcome): nat -> bool
  {
    (s: nat) => s <= |qs| && |Accumulated(qs, search, s)| >= TargetCount
  }

  /** The number of queries run from position `t` on: until 3 URLs are held or the queries run out. */
  function TriedFrom(qs: seq<string>, search: SearchRequest -> SearchOutcome, t: nat): (n: nat)
    requires t <= |qs|
    ensures t <= n <= |qs|
    ensures n == |qs| || |Accumulated(qs, search, n)| >= TargetCount
  {
    FirstFrom(|qs|, Enough(qs, search), t)
  }

  /** How the stopping point moves: it is `t` once 3 URLs are held or the queries ran out, and it is the next one's otherwise. */
  lemma TriedFromStep(qs: seq<string>, search: SearchRequest -> SearchOutcome, t: nat)
    requires t <= |qs|
    ensures t == |qs| || |Accumulated(qs, search, t)| >= TargetCount ==> TriedFrom(qs, search, t) == t
    ensures t < |qs| && |Accumulated(qs, search, t)| < TargetCount ==> TriedFrom(qs, search, t) == TriedFrom(qs, search, t + 1)
  {
    assert Enough(qs, search)(t) == (|Accumulated(qs, search, t)| >= TargetCount);
  }

  /**
    The number of queries the loop runs: the least `n` at which 3 URLs are
    held, or all of them. No query after that point is sent.
   */
  function Tried(qs: seq<string>, search: SearchRequest -> SearchOutcome): (n: nat)
    ensures n <= |qs|
    ensures n == |qs| || |Accumulated(qs, search, n)| >= TargetCount
  {
    TriedFrom(qs, search, 0)
  }

  /** No query before the stopping point left 3 URLs held: the loop stops at the first chance. */
  lemma TriedIsLeast(qs: seq<string>, search: SearchRequest -> SearchOutcome)
    ensures forall s | 0 <= s < Tried(qs, search) :: |Accumulated(qs, search, s)| < TargetCount
  {
    FirstFromIsLeast(|qs|, Enough(qs, search), 0);
    forall s | 0 <= s < Tried(qs, search) ensures |Accumulated(qs, search, s)| < TargetCount {
      assert !Enough(qs, search)(s);
    }
  }

  /** What `getEnhancedImagesForDish` returns: the first 3 URLs held when the loop stops. */
  function Candidates(qs: seq<string>, search: SearchRequest -> SearchOutcome): seq<string>
  {
    Take(Accumulated(qs, search, Tried(qs, search)), TargetCount)
  }

  /** Running the inner loop over `a` and then over `b` is running it over `a + b`. */
  lemma {:induction false} AddUniqueConcat(acc: seq<string>, a: seq<string>, b: seq<string>)
    ensures AddUnique(AddUnique(acc, a), b) == AddUnique(acc, a + b)
    decreases |b|
  {
    if b == [] {
      assert a + b == a;
    } else {
      var b' := b[..|b| - 1];
      AddUniqueConcat(acc, a, b');
      assert (a + b)[..|a + b| - 1] == a + b';
      assert (a + b)[|a + b| - 1] == b[|b| - 1];
    }
  }

  /** From an empty list, the inner loop keeps the first 10 distinct URLs, in order of first appearance. */
  lemma {:induction false} AddUniqueIsCappedDedup(s: seq<string>)
    ensures AddUnique([], s) == Take(Dedup(s), InternalCap)
    decreases |s|
  {
    if s != [] {
      var init := s[..|s| - 1];
      var x := s[|s| - 1];
      AddUniqueIsCappedDedup(init);
      var d := Dedup(init);
      DedupSpec(init);
      if |d| >= InternalCap {
        DedupGrows(init, [x]);
        assert init + [x] == s;
      }
    }
  }

  /** Every URL found so far came from the filtered result of one of the queries already sent. */
  lemma {:induction false} DiscoveredFromSearches(qs: seq<string>, search: SearchRequest -> SearchOutcome, k: nat, u: string)
    requires k <= |qs| && u in Discovered(qs, search, k)
    ensures exists j | 0 <= j < k ::
      SearchResults(search, QueryRequest(qs, j)).Some? && u in SearchResults(search, QueryRequest(qs, j)).value
  {
    if u in Discovered(qs, search, k - 1) {
      DiscoveredFromSearches(qs, search, k - 1, u);
    } else {
      assert u in Offered(qs, search, k - 1);
    }
  }

  /**
    The candidates are the first (at most) 3 distinct URLs in the order the
    queries found them: no duplicates, no more than 3, kept in discovery
    order, each from the filtered result of a query that was sent.
   */
  lemma CandidatesAreFirstDistinct(qs: seq<string>, search: SearchRequest -> SearchOutcome)
    ensures var n := Tried(qs, search);
      Candidates(qs, search) == Take(Dedup(Discovered(qs, search, n)), TargetCount)
    ensures |Candidates(qs, search)| <= TargetCount
    ensures Distinct(Candidates(qs, search))
    ensures IsSubsequence(Candidates(qs, search), Discovered(qs, search, Tried(qs, search)))
    ensures forall u | u in Candidates(qs, search) :: exists j | 0 <= j < Tried(qs, search) ::
      SearchResults(search, QueryRequest(qs, j)).Some? && u in SearchResults(search, QueryRequest(qs, j)).value
  {
    var n := Tried(qs, search);
    var found := Discovered(qs, search, n);
    AddUniqueIsCappedDedup(found);
    var c := Candidates(qs, search);
    assert c == Take(Dedup(found), TargetCount);
    DedupSpec(found);
    SubsequencePrefix(Dedup(found), found, |c|);
    forall u | u in c
      ensures exists j | 0 <= j < n ::
        SearchResults(search, QueryRequest(qs, j)).Some? && u in SearchResults(search, QueryRequest(qs, j)).value
    {
      assert u in Dedup(found);
      DiscoveredFromSearches(qs, search, n, u);
    }
  }

  /** The inner loop: each URL of `links` is appended when new and while there is room. */
  method MergeUnique(all: seq<string>, links: seq<string>) returns (merged: seq<string>)
    ensures merged == AddUnique(all, links)
  {
    merged := all;
    for j := 0 to |links|
      invariant merged == AddUnique(all, links[..j])
    {
      var url := links[j];
      if url !in merged && |merged| < InternalCap {
        merged := merged + [url];
      }
      assert links[..j + 1][..j] == links[..j];
    }
    assert links[..|links|] == links;
  }

  /**
    The strategy loop of `getEnhancedImagesForDish` over the query list
    `qs`, with the requests it sends returned beside the URLs. The queries
    are sent in order; one whose search raises is skipped; the loop stops
    once 3 URLs are held; the first 3 are returned.
   */
  method RunStrategies(qs: seq<string>, search: SearchRequest -> SearchOutcome)
    returns (urls: seq<string>, issued: seq<SearchRequest>)
    ensures |issued| == Tried(qs, search)
    ensures issued == Requests(qs[..|issued|], SearchSize)
    ensures urls == Candidates(qs, search)
  {
    var all: seq<string> := [];
    issued := [];
    var i := 0;
    while i < |qs|
      invariant 0 <= i <= |qs|
      invariant issued == Requests(qs[..i], SearchSize)
      invariant all == Accumulated(qs, search, i)
      invariant |all| < TargetCount
      invariant TriedFrom(qs, search, i) == Tried(qs, search)
    {
      var req := QueryRequest(qs, i);
      TriedFromStep(qs, search, i);
      RequestsSnoc(qs, i);
      issued := issued + [req];
      var found := GetImagesFromSearch(req, search);
      AccumulatedStep(qs, search, i, found);
      if found.None? {
        i := i + 1;
        continue;
      }
      all := MergeUnique(all, found.value);
      i := i + 1;
      if |all| >= TargetCount {
        TriedFromStep(qs, search, i);
        break;
      }
    }
    TriedFromStep(qs, search, i);
    urls := Take(all, TargetCount);
  }

  /** `getEnhancedImagesForDish`: the strategy loop over the twelve queries for `dish`. */
  method GetEnhancedImagesForDish(dish: string, search: SearchRequest -> SearchOutcome)
    returns (urls: seq<string>, issued: seq<SearchRequest>)
    ensures var qs := Strategies(dish);
      && |issued| == Tried(qs, search)
      && issued == Requests(qs[..|issued|], SearchSize)
      && urls == Candidates(qs, search)
  {
    urls, issued := RunStrategies(Strategies(dish), search);
  }

  /** One more query adds its filtered result through the inner loop, or nothing if its search raised. */
  lemma AccumulatedStep(qs: seq<string>, search: SearchRequest -> SearchOutcome, i: nat, found: Option<seq<string>>)
    requires i < |qs| && found == SearchResults(search, QueryRequest(qs, i))
    ensures found.None? ==> Accumulated(qs, search, i + 1) == Accumulated(qs, search, i)
    ensures found.Some? ==> Accumulated(qs, search, i + 1) == AddUnique(Accumulated(qs, search, i), found.value)
  {
    var before := Discovered(qs, search, i);
    AddUniqueConcat([], before, Offered(qs, search, i));
    if found.None? {
      assert Discovered(qs, search, i + 1) == before + [];
      assert before + [] == before;
    }
  }

  /** Sending one more query extends the request log by that query's request. */
  lemma RequestsSnoc(qs: seq<string>, i: nat)
    requires i < |qs|
    ensures Requests(qs[..i + 1], SearchSize) == Requests(qs[..i], SearchSize) + [QueryRequest(qs, i)]
  {
    var a := Requests(qs[..i + 1], SearchSize);
    var b := Requests(qs[..i], SearchSize) + [QueryRequest(qs, i)];
    assert |a| == |b|;
    forall j | 0 <= j < |a| ensures a[j] == b[j] {
    }
  }
}
