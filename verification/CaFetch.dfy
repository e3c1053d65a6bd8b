/** FetchAllUsers: following `next` links of a server that may answer anything, differently each time. */
module CaFetch {
  import opened Text

  /** next is empty when the page has no usable link. */
  datatype Page<Raw> = Page(results: seq<Raw>, next: string)

  datatype Answer<Raw> = Answered(page: Page<Raw>) | Refused

  datatype Result<T> = Fetched(value: T) | Failed

  const MAX_VISITED := 10_000

  /** A client of one server: its answer to the n-th request, for a URL; what an entry is; where a link leads. */
  datatype Remote<!Raw, !Entry> = Remote(answer: (nat, string) -> Answer<Raw>, parse: Raw -> Option<Entry>,
                                         rebase: string -> string) {
    function Link(n: nat, url: string): string {
      match answer(n, url)
      case Answered(page) => if page.next == "" then "" else rebase(page.next)
      case Refused => ""
    }

    function Parsed(results: seq<Raw>): seq<Entry> {
      if results == [] then []
      else
        var rest := Parsed(results[..|results| - 1]);
        match parse(results[|results| - 1])
        case Some(e) => rest + [e]
        case None => rest
    }

    /** The parsable entries of the pages behind the URLs, requested in this order. */
    function Entries(urls: seq<string>): seq<Entry> {
      if urls == [] then []
      else
        var n := |urls| - 1;
        Entries(urls[..n]) + match answer(n, urls[n]) case Answered(page) => Parsed(page.results) case Refused => []
    }

    /** Each URL is the one the page before it links to. */
    ghost predicate Linked(first: string, urls: seq<string>) {
      && (urls != [] ==> urls[0] == first)
      && (forall i :: 0 < i < |urls| ==> urls[i] == Link(i - 1, urls[i - 1]))
    }

    ghost predicate AllAnswered(urls: seq<string>) {
      forall i :: 0 <= i < |urls| ==> answer(i, urls[i]).Answered?
    }

    /** The URL to request after urls. */
    function After(first: string, urls: seq<string>): string {
      if urls == [] then first else Link(|urls| - 1, urls[|urls| - 1])
    }

    /** The whole listing: from the first URL to a page without a link, all answered. */
    ghost predicate Listing(first: string, urls: seq<string>) {
      && Linked(first, urls) && AllAnswered(urls) && After(first, urls) == ""
      && forall i :: 0 <= i < |urls| ==> urls[i] != ""
    }
  }

  ghost predicate Distinct(urls: seq<string>) {
    forall i, j :: 0 <= i < j < |urls| ==> urls[i] != urls[j]
  }

  /** What one run of the loop requested: a chain of links without repetition, stopped for one of four reasons. */
  ghost predicate Crawl<Raw, Entry>(r: Remote<Raw, Entry>, first: string, urls: seq<string>,
                                    result: Result<seq<Entry>>) {
    && r.Linked(first, urls) && Distinct(urls) && |urls| <= MAX_VISITED + 1
    && (forall i :: 0 <= i < |urls| ==> urls[i] != "")
    && match result
       case Failed =>
         urls != [] && r.AllAnswered(urls[..|urls| - 1]) && r.answer(|urls| - 1, urls[|urls| - 1]).Refused?
       case Fetched(entries) =>
         && r.AllAnswered(urls) && entries == r.Entries(urls)
         && (r.After(first, urls) == "" || r.After(first, urls) in urls || |urls| == MAX_VISITED + 1)
  }

  method ParseResults<Raw, Entry>(r: Remote<Raw, Entry>, results: seq<Raw>, before: seq<Entry>)
    returns (out: seq<Entry>)
    ensures out == before + r.Parsed(results)
  {
    out := before;
    for i := 0 to |results|
      invariant out == before + r.Parsed(results[..i])
    {
      assert results[..i + 1][..i] == results[..i];
      var e := r.parse(results[i]);
      if e.Some? {
        out := out + [e.value];
      }
    }
    assert results[..|results|] == results;
  }

  lemma {:induction false} ParsedSplit<Raw, Entry>(r: Remote<Raw, Entry>, a: seq<Raw>, b: seq<Raw>)
    ensures r.Parsed(a + b) == r.Parsed(a) + r.Parsed(b)
  {
    if b == [] {
      assert a + b == a;
    } else {
      var n := |b| - 1;
      assert (a + b)[..|a + b| - 1] == a + b[..n];
      ParsedSplit(r, a, b[..n]);
    }
  }

  /** Of each raw entry its parsed form, if it has one, and the entries of a list in the order of the list. */
  lemma ParsedIs<Raw, Entry>(r: Remote<Raw, Entry>, a: seq<Raw>, x: Raw, b: seq<Raw>)
    ensures r.Parsed([]) == []
    ensures r.Parsed(a + [x] + b)
         == r.Parsed(a) + (match r.parse(x) case Some(e) => [e] case None => []) + r.Parsed(b)
  {
    ParsedSplit(r, a + [x], b);
    ParsedSplit(r, a, [x]);
    assert [x][..0] == [];
    assert r.Parsed([x]) == match r.parse(x) case Some(e) => [e] case None => [];
  }

  lemma LinkedAppend<Raw, Entry>(r: Remote<Raw, Entry>, first: string, urls: seq<string>, url: string)
    requires r.Linked(first, urls) && url == r.After(first, urls)
    ensures r.Linked(first, urls + [url]) && r.After(first, urls + [url]) == r.Link(|urls|, url)
  {
  }

  lemma AnsweredAppend<Raw, Entry>(r: Remote<Raw, Entry>, urls: seq<string>, url: string)
    requires r.AllAnswered(urls) && Distinct(urls) && url !in urls
    ensures Distinct(urls + [url])
    ensures r.AllAnswered(urls + [url]) <==> r.answer(|urls|, url).Answered?
  {
    assert (urls + [url])[|urls|] == url;
  }

  lemma EntriesAppend<Raw, Entry>(r: Remote<Raw, Entry>, urls: seq<string>, url: string)
    ensures r.Entries(urls + [url])
         == r.Entries(urls)
            + match r.answer(|urls|, url) case Answered(page) => r.Parsed(page.results) case Refused => []
  {
    assert (urls + [url])[..|urls|] == urls;
  }

  /** The loop has requested urls, all answered; visited holds them, out their entries, next comes next. */
  ghost predicate Crawling<Raw, Entry>(r: Remote<Raw, Entry>, first: string, urls: seq<string>, visited: set<string>,
                                       out: seq<Entry>, next: string)
  {
    && r.Linked(first, urls) && Distinct(urls) && r.AllAnswered(urls)
    && (forall i :: 0 <= i < |urls| ==> urls[i] != "")
    && (forall u :: u in visited <==> u in urls) && |visited| == |urls| <= MAX_VISITED + 1
    && next == r.After(first, urls) && out == r.Entries(urls)
  }

  lemma CrawlStep<Raw, Entry>(r: Remote<Raw, Entry>, first: string, urls: seq<string>, visited: set<string>,
                              out: seq<Entry>, next: string)
    requires Crawling(r, first, urls, visited, out, next)
    requires next != "" && next !in visited && |visited| <= MAX_VISITED
    ensures match r.answer(|urls|, next)
            case Answered(page) =>
              Crawling(r, first, urls + [next], visited + {next}, out + r.Parsed(page.results), r.Link(|urls|, next))
            case Refused => Crawl(r, first, urls + [next], Failed)
  {
    LinkedAppend(r, first, urls, next);
    EntriesAppend(r, urls, next);
    AnsweredAppend(r, urls, next);
    assert (urls + [next])[..|urls|] == urls;
  }

  /** It ends whatever the server answers, never requests a URL twice, and stops after 10,001 pages. */
  method FetchAllUsers<Raw, Entry>(r: Remote<Raw, Entry>, first: string)
    returns (result: Result<seq<Entry>>, requested: seq<string>)
    ensures Crawl(r, first, requested, result) && |requested| <= 10_001
  {
    var out: seq<Entry>, next, visited := [], first, {};
    requested := [];
    while next != ""
      invariant Crawling(r, first, requested, visited, out, next)
      decreases MAX_VISITED + 1 - |requested|
    {
      if next in visited || |visited| > MAX_VISITED {
        break;
      }
      CrawlStep(r, first, requested, visited, out, next);
      visited := visited + {next};
      var answer := r.answer(|requested|, next);
      requested := requested + [next];
      if answer.Refused? {
        return Failed, requested;
      }
      out := ParseResults(r, answer.page.results, out);
      next := if answer.page.next == "" then "" else r.rebase(answer.page.next);
    }
    return Fetched(out), requested;
  }

  /** A crawl cannot leave the chain of a listing. */
  lemma {:induction false} CrawlFollowsListing<Raw, Entry>(r: Remote<Raw, Entry>, first: string, urls: seq<string>,
                                                           listing: seq<string>, n: nat)
    requires r.Linked(first, urls) && (forall i :: 0 <= i < |urls| ==> urls[i] != "") && r.Listing(first, listing)
    requires n <= |urls|
    ensures n <= |listing| && forall i :: 0 <= i < n ==> urls[i] == listing[i]
  {
    if n > 0 {
      CrawlFollowsListing(r, first, urls, listing, n - 1);
      if n > 1 {
        assert urls[n - 2] == listing[n - 2];
        assert urls[n - 1] == r.Link(n - 2, urls[n - 2]);
      }
    }
  }

  /** Against a server with a complete listing the crawl never fails, and it returns the parsable entries of
      every page in order if and only if the listing repeats no URL and has at most 10,001 pages. Otherwise
      it returns, without an error, those of a proper part of the pages. */
  lemma CrawlIsCompleteExactly<Raw, Entry>(r: Remote<Raw, Entry>, first: string, urls: seq<string>,
                                           result: Result<seq<Entry>>, listing: seq<string>)
    requires Crawl(r, first, urls, result) && r.Listing(first, listing)
    ensures result == Fetched(r.Entries(urls)) && |urls| <= |listing| && urls == listing[..|urls|]
    ensures urls == listing <==> Distinct(listing) && |listing| <= 10_001
  {
    CrawlFollowsListing(r, first, urls, listing, |urls|);
    assert urls[..|urls|] == urls;
    assert forall i :: 0 <= i < |urls| ==> urls[i] == listing[i];
    if |urls| < |listing| {
      var n := |urls|;
      assert r.After(first, urls) == listing[n] by {
        if n > 0 { assert urls[n - 1] == listing[n - 1]; }
      }
      assert listing[n] in urls || n == MAX_VISITED + 1;
      if listing[n] in urls {
        var j :| 0 <= j < n && urls[j] == listing[n];
        assert listing[j] == listing[n];
      }
    } else {
      assert listing[..|urls|] == listing;
    }
  }

  // ---- Repeated links ----

  /** The answer to a request depends on its URL alone. */
  ghost predicate Stable<Raw, Entry>(r: Remote<Raw, Entry>) {
    forall n: nat, m: nat, url :: r.answer(n, url) == r.answer(m, url)
  }

  /** A walk along the links, however often it comes back to a page. */
  ghost predicate Walk<Raw, Entry>(r: Remote<Raw, Entry>, first: string, walk: seq<string>) {
    r.Linked(first, walk) && forall i :: 0 <= i < |walk| ==> walk[i] != ""
  }

  ghost predicate AllIn(walk: seq<string>, urls: seq<string>) {
    forall i :: 0 <= i < |walk| ==> walk[i] in urls
  }

  /** The crawl ended because there was nothing left to request. */
  predicate Exhausted<Raw, Entry>(r: Remote<Raw, Entry>, first: string, urls: seq<string>) {
    r.After(first, urls) == "" || r.After(first, urls) in urls
  }

  lemma {:induction false} WalkStaysIn<Raw, Entry>(r: Remote<Raw, Entry>, first: string, urls: seq<string>,
                                                   entries: seq<Entry>, walk: seq<string>, i: nat)
    requires Crawl(r, first, urls, Fetched(entries)) && Stable(r) && Exhausted(r, first, urls)
    requires Walk(r, first, walk) && i < |walk|
    ensures walk[i] in urls
  {
    if i == 0 {
      assert urls != [];
    } else {
      WalkStaysIn(r, first, urls, entries, walk, i - 1);
      var j: nat :| j < |urls| && urls[j] == walk[i - 1];
      assert r.answer(i - 1, urls[j]) == r.answer(j, urls[j]);
      assert walk[i] == r.Link(j, urls[j]);
      if j + 1 < |urls| { assert urls[j + 1] == r.Link(j, urls[j]); }
    }
  }

  /** Against a stable server the visited set loses nothing: cyclic links included, a crawl without an error has
      requested every page that any walk reaches, once each, if and only if it was not the page limit that
      ended it. */
  lemma NothingIsLostExactly<Raw, Entry>(r: Remote<Raw, Entry>, first: string, urls: seq<string>, entries: seq<Entry>)
    requires Crawl(r, first, urls, Fetched(entries)) && Stable(r)
    ensures (forall walk :: Walk(r, first, walk) ==> AllIn(walk, urls)) <==> Exhausted(r, first, urls)
    ensures |urls| <= MAX_VISITED ==> Exhausted(r, first, urls)
  {
    if Exhausted(r, first, urls) {
      forall walk | Walk(r, first, walk)
        ensures AllIn(walk, urls)
      {
        forall i | 0 <= i < |walk|
          ensures walk[i] in urls
        {
          WalkStaysIn(r, first, urls, entries, walk, i);
        }
      }
    } else {
      var walk := urls + [r.After(first, urls)];
      LinkedAppend(r, first, urls, r.After(first, urls));
      assert Walk(r, first, walk) && walk[|urls|] !in urls;
      assert !AllIn(walk, urls);
    }
  }

  // ---- The two ways to lose pages ----

  function Name(i: nat): string {
    seq(i + 1, _ => 'a')
  }

  /** A stable server with n pages, one after the other. */
  function LongServer(n: nat): Remote<int, int> {
    Remote((_: nat, url: string) => Answered(Page([|url|], if |url| < n then url + "a" else "")),
           (raw: int) => Some(raw), (url: string) => url)
  }

  function LongListing(n: nat): seq<string> {
    seq(n, i requires 0 <= i < n => Name(i))
  }

  lemma LongLink(n: nat, k: nat, i: nat)
    ensures LongServer(n).Link(k, Name(i)) == if i + 1 < n then Name(i + 1) else ""
  {
    assert Name(i) + "a" == Name(i + 1);
  }

  lemma LongServerLists(n: nat)
    requires n > 0
    ensures Stable(LongServer(n)) && LongServer(n).Listing(Name(0), LongListing(n)) && Distinct(LongListing(n))
    ensures forall i :: 0 <= i < n ==> LongServer(n).Link(i, LongListing(n)[i]) == if i + 1 < n then Name(i + 1) else ""
  {
    var r, listing := LongServer(n), LongListing(n);
    forall i | 0 <= i < n
      ensures r.Link(i, listing[i]) == if i + 1 < n then Name(i + 1) else ""
    {
      LongLink(n, i, i);
    }
    assert forall i :: 0 <= i < n ==> |listing[i]| == i + 1;
    assert r.After(Name(0), listing) == "";
  }

  /** Every listing of more than 10,001 pages is cut to its first 10,001, without an error. */
  lemma LongListingIsCut(n: nat, urls: seq<string>, result: Result<seq<int>>)
    requires n > 0 && Crawl(LongServer(n), Name(0), urls, result)
    ensures Stable(LongServer(n)) && LongServer(n).Listing(Name(0), LongListing(n)) && Distinct(LongListing(n))
    ensures result.Fetched? && urls == LongListing(n)[..if n < 10_001 then n else 10_001]
  {
    LongServerLists(n);
    CrawlIsCompleteExactly(LongServer(n), Name(0), urls, result, LongListing(n));
    if |urls| < n { LongCrawlStops(n, urls, result); }
  }

  lemma LongCrawlStops(n: nat, urls: seq<string>, result: Result<seq<int>>)
    requires |urls| < n && urls == LongListing(n)[..|urls|]
    requires Crawl(LongServer(n), Name(0), urls, result) && result.Fetched?
    ensures |urls| == MAX_VISITED + 1
  {
    LongServerLists(n);
    var next := LongServer(n).After(Name(0), urls);
    assert next == Name(|urls|) && |next| == |urls| + 1;
    forall i | 0 <= i < |urls|
      ensures urls[i] != next
    {
      assert |urls[i]| == i + 1;
    }
  }

  /** A server that answers the same URL with a link to itself first and with no link the second time. */
  function ChangingServer(): Remote<int, int> {
    Remote((n: nat, _: string) => Answered(Page([n], if n == 0 then "a" else "")),
           (raw: int) => Some(raw), (url: string) => url)
  }

  /** Its listing repeats a URL, and the crawl returns the first page only. */
  lemma ChangingListingIsCut(urls: seq<string>, result: Result<seq<int>>)
    requires Crawl(ChangingServer(), "a", urls, result)
    ensures ChangingServer().Listing("a", ["a", "a"]) && !Distinct(["a", "a"])
    ensures urls == ["a"] && result == Fetched(ChangingServer().Entries(["a"]))
  {
    var r := ChangingServer();
    var listing := ["a", "a"];
    assert r.Link(0, "a") == "a" && r.Link(1, "a") == "";
    assert r.Listing("a", listing);
    CrawlIsCompleteExactly(r, "a", urls, result, listing);
    assert listing[0] == listing[1];
    assert !Distinct(listing);
  }
}
