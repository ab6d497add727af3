/** Which pages a breadth-first crawl is about, said of the routes a visitor could click. */
module FrontierMeaning {
  import opened Prelude
  import opened BfsFrontier

  /** `next` is the canonical form of some link on the page `url`, which robots may read. */
  predicate Click(w: Web, url: string, next: string) {
    w.allowed(url) && exists j :: 0 <= j < |w.fetch(url).links| && w.canonical(w.fetch(url).links[j]) == next
  }

  /** From the start page by clicks to `url`; a route of `k` clicks has `k + 1` pages. */
  predicate IsRoute(w: Web, route: seq<string>, url: string) {
    && route != [] && route[0] == w.canonical(w.base) && route[|route| - 1] == url
    && forall i :: 0 <= i < |route| - 1 ==> Click(w, route[i], route[i + 1])
  }

  ghost predicate Reachable(w: Web, url: string, clicks: nat) {
    exists route :: |route| <= clicks + 1 && IsRoute(w, route, url)
  }

  lemma ClickIsHop(w: Web, u: string, c: string)
    ensures Click(w, u, c) <==> Hop(w, u, c)
  {
    if j :| 0 <= j < |w.fetch(u).links| && w.canonical(w.fetch(u).links[j]) == c { assert c in Links(w, u); }
  }

  lemma OneMoreClick(w: Web, route: seq<string>, u: string, c: string)
    requires IsRoute(w, route, u) && Click(w, u, c)
    ensures IsRoute(w, route + [c], c)
  {
  }

  lemma {:induction false} WithinToRoute(w: Web, k: nat, url: string)
    requires url in Within(w, k)
    ensures Reachable(w, url, k)
    decreases k
  {
    if k == 0 {
      assert IsRoute(w, [url], url);
    } else if url in Within(w, k - 1) {
      WithinToRoute(w, k - 1, url);
    } else {
      var u := WithinLast(w, url, k);
      WithinToRoute(w, k - 1, u);
      var route :| |route| <= k && IsRoute(w, route, u);
      ClickIsHop(w, u, url);
      OneMoreClick(w, route, u, url);
    }
  }

  lemma {:induction false} RouteToWithin(w: Web, k: nat, url: string, route: seq<string>)
    requires |route| <= k + 1 && IsRoute(w, route, url)
    ensures url in Within(w, k)
    decreases |route|
  {
    if |route| == 1 {
      StartWithin(w, k);
    } else {
      var u := route[|route| - 2];
      assert IsRoute(w, route[..|route| - 1], u);
      RouteToWithin(w, k - 1, u, route[..|route| - 1]);
      assert Click(w, route[|route| - 2], route[|route| - 1]);
      ClickIsHop(w, u, url);
      WithinNext(w, url, k, u);
    }
  }

  lemma {:induction false} StartWithin(w: Web, k: nat)
    ensures w.canonical(w.base) in Within(w, k)
  {
    if k > 0 { StartWithin(w, k - 1); }
  }

  /** The reach of a crawl is what some route of at most that many clicks leads to. */
  lemma WithinIsReachable(w: Web, k: nat, url: string)
    ensures url in Within(w, k) <==> Reachable(w, url, k)
  {
    if url in Within(w, k) { WithinToRoute(w, k, url); }
    if Reachable(w, url, k) {
      var route :| |route| <= k + 1 && IsRoute(w, route, url);
      RouteToWithin(w, k, url, route);
    }
  }

  lemma NearIsReachable(w: Web, k: nat, url: string)
    ensures Near(w, url, k) <==> Reachable(w, url, k)
  {
    NearIsWithin(w, url, k);
    WithinIsReachable(w, k, url);
  }

  /** No page is fetched twice, and every page fetched may be read by robots and is some route
      away, of as many clicks as recorded and no more than the limit. */
  lemma FetchedIsReachable(w: Web, fetched: seq<Fetched>, i: nat, j: nat)
    requires InBounds(w, fetched) && i < |fetched| && j < |fetched|
    ensures w.allowed(fetched[i].url) && fetched[i].depth <= w.depthLimit && Reachable(w, fetched[i].url, fetched[i].depth)
    ensures fetched[i].url == fetched[j].url <==> i == j
  {
    NearIsReachable(w, fetched[i].depth, fetched[i].url);
  }

  /** A complete crawl fetched exactly the pages that robots may read and some route within the
      limit leads to, each at the number of clicks of its shortest route. */
  lemma CompleteExactly(w: Web, fetched: seq<Fetched>, url: string, clicks: nat)
    requires Complete(w, fetched)
    ensures Fetched(url, clicks) in fetched <==>
      w.allowed(url) && Reachable(w, url, clicks) && (clicks > 0 ==> !Reachable(w, url, clicks - 1)) && clicks <= w.depthLimit
  {
    NearIsReachable(w, clicks, url);
    if clicks > 0 { NearIsReachable(w, clicks - 1, url); }
  }

  /** The articles counted against the cap are the fetched pages that are articles. */
  lemma {:induction false} ArticlesCounted(w: Web, fetched: seq<Fetched>)
    ensures ArticleCount(w, fetched) == |set i | 0 <= i < |fetched| && w.fetch(fetched[i].url).article|
    decreases |fetched|
  {
    var all := set i | 0 <= i < |fetched| && w.fetch(fetched[i].url).article;
    if fetched == [] {
      assert all == {};
    } else {
      var n := |fetched| - 1;
      var front := set i | 0 <= i < n && w.fetch(fetched[..n][i].url).article;
      ArticlesCounted(w, fetched[..n]);
      assert all == if w.fetch(fetched[n].url).article then front + {n} else front;
    }
  }
}
