/** The breadth-first fallback crawl: which pages it fetches, how often, and how far out. */
module BfsFrontier {
  import opened Prelude

  /** What fetching a URL gives: whether it is an article, and the internal links on it. */
  datatype Page = Page(article: bool, links: seq<string>)

  /** The site as this crawl sees it. `depthLimit`, `urlLimit` and `articleLimit` are
      `crawl_max_depth`, `crawl_max_discovered_urls` and `crawl_max_articles`. */
  datatype Web = Web(
    base: string, canonical: string -> string, allowed: string -> bool, fetch: string -> Page,
    depthLimit: nat, urlLimit: nat, articleLimit: nat)

  datatype Entry = Entry(url: string, depth: nat)

  function Links(w: Web, url: string): set<string> {
    set i | 0 <= i < |w.fetch(url).links| :: w.canonical(w.fetch(url).links[i])
  }

  /** The URLs at most `k` hops from the base, going only through pages robots allow. */
  function Within(w: Web, k: nat): set<string> {
    if k == 0 then {w.canonical(w.base)}
    else Within(w, k - 1) + set u, c | u in Within(w, k - 1) && w.allowed(u) && c in Links(w, u) :: c
  }

  /** The same, one URL at a time. */
  ghost predicate Near(w: Web, url: string, k: nat)
    decreases k, 1
  {
    if k == 0 then url == w.canonical(w.base) else Near(w, url, k - 1) || OneFurther(w, url, k)
  }

  ghost predicate OneFurther(w: Web, url: string, k: nat)
    requires k > 0
    decreases k, 0
  {
    exists u :: Hop(w, u, url) && Near(w, u, k - 1)
  }

  lemma HopIsNear(w: Web, u: string, url: string, k: nat)
    requires Near(w, u, k) && Hop(w, u, url)
    ensures Near(w, url, k + 1)
  {
    assert OneFurther(w, url, k + 1);
  }

  predicate Hop(w: Web, u: string, url: string) { w.allowed(u) && url in Links(w, u) }

  lemma LastHop(w: Web, k: nat, c: string) returns (u: string)
    requires k > 0 && Near(w, c, k) && !Near(w, c, k - 1)
    ensures Near(w, u, k - 1) && Hop(w, u, c)
  {
    assert OneFurther(w, c, k);
    u :| Hop(w, u, c) && Near(w, u, k - 1);
  }

  lemma WithinNext(w: Web, url: string, k: nat, u: string)
    requires k > 0 && u in Within(w, k - 1) && Hop(w, u, url)
    ensures url in Within(w, k)
  {
  }

  lemma WithinLast(w: Web, url: string, k: nat) returns (u: string)
    requires k > 0 && url in Within(w, k) && url !in Within(w, k - 1)
    ensures u in Within(w, k - 1) && Hop(w, u, url)
  {
    u :| u in Within(w, k - 1) && w.allowed(u) && url in Links(w, u);
  }

  lemma {:induction false} NearToWithin(w: Web, url: string, k: nat)
    requires Near(w, url, k)
    ensures url in Within(w, k)
    decreases k
  {
    if k > 0 {
      if Near(w, url, k - 1) {
        NearToWithin(w, url, k - 1);
      } else {
        var u := LastHop(w, k, url);
        NearToWithin(w, u, k - 1);
        WithinNext(w, url, k, u);
      }
    }
  }

  lemma {:induction false} WithinToNear(w: Web, url: string, k: nat)
    requires url in Within(w, k)
    ensures Near(w, url, k)
    decreases k
  {
    if k > 0 {
      if url in Within(w, k - 1) {
        WithinToNear(w, url, k - 1);
      } else {
        var u := WithinLast(w, url, k);
        WithinToNear(w, u, k - 1);
        HopIsNear(w, u, url, k - 1);
      }
    }
  }

  lemma NearIsWithin(w: Web, url: string, k: nat)
    ensures Near(w, url, k) <==> url in Within(w, k)
  {
    if Near(w, url, k) { NearToWithin(w, url, k); }
    if url in Within(w, k) { WithinToNear(w, url, k); }
  }

  ghost predicate LeastDepth(w: Web, url: string, k: nat) {
    Near(w, url, k) && (k > 0 ==> !Near(w, url, k - 1))
  }

  lemma {:induction false} NearGrows(w: Web, url: string, j: nat, k: nat)
    requires j <= k && Near(w, url, j)
    ensures Near(w, url, k)
    decreases k - j
  {
    if j < k { NearGrows(w, url, j, k - 1); }
  }

  // ---- What the frontier keeps ----------------------------------------------

  /** `depths` maps everything ever queued to the depth it was queued with. */
  ghost predicate Kept(w: Web, depths: map<string, nat>, seen: set<string>, queue: seq<Entry>) {
    && (forall i :: 0 <= i < |queue| ==> queue[i].url in depths && depths[queue[i].url] == queue[i].depth && queue[i].url !in seen)
    && (forall i, j :: 0 <= i < j < |queue| ==> queue[i].url != queue[j].url)
    && (forall u :: u in seen ==> u in depths)
    && |depths| == |seen| + |queue| && |depths| <= Max(1, w.urlLimit)
    && (forall u :: u in depths ==> depths[u] <= w.depthLimit && Near(w, u, depths[u]))
  }

  /** While nothing has been cut off: depths are least hop counts, the queue is in order of
      depth, and every page already expanded has all its links queued. `open` is the page
      being expanded now, if any. */
  ghost predicate Exact(w: Web, depths: map<string, nat>, seen: set<string>, queue: seq<Entry>, at: nat, open: Option<string>) {
    && w.canonical(w.base) in depths
    && (forall u :: u in depths ==> LeastDepth(w, u, depths[u]))
    && (forall i, j :: 0 <= i < j < |queue| ==> queue[i].depth <= queue[j].depth)
    && (forall i :: 0 <= i < |queue| ==> at <= queue[i].depth <= at + 1)
    && (forall u :: u in depths && u !in seen ==> exists i :: 0 <= i < |queue| && queue[i].url == u)
    && (forall u :: u in seen && u in depths && Some(u) != open && w.allowed(u) && depths[u] < w.depthLimit ==> Links(w, u) <= depths.Keys)
  }

  lemma UnseenIsFar(w: Web, depths: map<string, nat>, seen: set<string>, queue: seq<Entry>, at: nat,
                    open: Option<string>, u: string)
    requires Kept(w, depths, seen, queue) && Exact(w, depths, seen, queue, at, open) && u in depths && u !in seen
    ensures depths[u] >= at
  {
    var i :| 0 <= i < |queue| && queue[i].url == u;
  }

  /** Every link of a page nearer than the front has been queued. */
  lemma NearerLinks(w: Web, depths: map<string, nat>, seen: set<string>, queue: seq<Entry>, at: nat,
                    open: Option<string>, u: string, k: nat)
    requires Kept(w, depths, seen, queue) && Exact(w, depths, seen, queue, at, open)
    requires open.Some? ==> open.value in depths && depths[open.value] >= at
    requires u in depths && Near(w, u, k) && k < at && k < w.depthLimit && w.allowed(u)
    ensures Links(w, u) <= depths.Keys
  {
    NotFarther(w, depths, u, k);
    if u !in seen { UnseenIsFar(w, depths, seen, queue, at, open, u); }
  }

  /** Every link of a queued page nearer than `at` has been queued. */
  ghost predicate ClosedBelow(w: Web, depths: map<string, nat>, at: nat) {
    && w.canonical(w.base) in depths
    && forall u, k: nat :: u in depths && Near(w, u, k) && k < at && k < w.depthLimit && w.allowed(u) ==> Links(w, u) <= depths.Keys
  }

  lemma NearerClosed(w: Web, depths: map<string, nat>, seen: set<string>, queue: seq<Entry>, at: nat, open: Option<string>)
    requires Kept(w, depths, seen, queue) && Exact(w, depths, seen, queue, at, open)
    requires open.Some? ==> open.value in depths && depths[open.value] >= at
    ensures ClosedBelow(w, depths, at)
  {
    forall u, k: nat | u in depths && Near(w, u, k) && k < at && k < w.depthLimit && w.allowed(u)
      ensures Links(w, u) <= depths.Keys
    {
      NearerLinks(w, depths, seen, queue, at, open, u, k);
    }
  }

  /** So everything up to that many hops out has been queued. */
  lemma {:induction false} NearerQueued(w: Web, depths: map<string, nat>, at: nat, k: nat, c: string)
    requires ClosedBelow(w, depths, at) && k <= at && k <= w.depthLimit && Near(w, c, k)
    ensures c in depths
    decreases k
  {
    if k > 0 {
      if Near(w, c, k - 1) {
        NearerQueued(w, depths, at, k - 1, c);
      } else {
        var u := LastHop(w, k, c);
        NearerQueued(w, depths, at, k - 1, u);
      }
    }
  }

  lemma NotFarther(w: Web, depths: map<string, nat>, u: string, k: nat)
    requires u in depths && LeastDepth(w, u, depths[u]) && Near(w, u, k)
    ensures depths[u] <= k
  {
    if depths[u] > k { NearGrows(w, u, k, depths[u] - 1); }
  }

  // ---- The loop -------------------------------------------------------------

  /** A page that was fetched, and how many hops out it was found. */
  datatype Fetched = Fetched(url: string, depth: nat)

  predicate FetchedOnce(fetched: seq<Fetched>) {
    forall i, j :: 0 <= i < j < |fetched| ==> fetched[i].url != fetched[j].url
  }

  /** The pages fetched are exactly those seen that robots allow, at the depth they were
      queued with. */
  ghost predicate Logged(w: Web, depths: map<string, nat>, seen: set<string>, fetched: seq<Fetched>) {
    && FetchedOnce(fetched)
    && (forall i :: 0 <= i < |fetched| ==>
          && fetched[i].url in seen && w.allowed(fetched[i].url)
          && fetched[i].url in depths && depths[fetched[i].url] == fetched[i].depth)
    && (forall u :: u in seen && w.allowed(u) ==> exists i :: 0 <= i < |fetched| && fetched[i].url == u)
  }

  function ArticleCount(w: Web, fetched: seq<Fetched>): nat {
    if fetched == [] then 0
    else ArticleCount(w, fetched[..|fetched| - 1]) + if w.fetch(fetched[|fetched| - 1].url).article then 1 else 0
  }

  /** Queueing a link of the page at `at`. */
  lemma QueueLink(w: Web, depths: map<string, nat>, seen: set<string>, queue: seq<Entry>, u: string, c: string)
    requires Kept(w, depths, seen, queue) && u in seen && u in depths && depths[u] < w.depthLimit && Hop(w, u, c)
    requires c !in depths && |depths| + 1 <= w.urlLimit
    ensures Kept(w, depths[c := depths[u] + 1], seen, queue + [Entry(c, depths[u] + 1)])
  {
    var d := depths[u] + 1;
    HopIsNear(w, u, c, depths[u]);
    var now, more := depths[c := d], queue + [Entry(c, d)];
    assert |now| == |depths| + 1;
    forall i, j | 0 <= i < j < |more| ensures more[i].url != more[j].url {
      if j == |queue| { assert queue[i].url in depths; }
    }
  }

  /** A link not queued before is exactly one hop farther out than the page at the front. */
  lemma NewIsLeast(w: Web, depths: map<string, nat>, seen: set<string>, queue: seq<Entry>, u: string, c: string)
    requires Kept(w, depths, seen, queue) && u in seen && u in depths && depths[u] < w.depthLimit && Hop(w, u, c)
    requires Exact(w, depths, seen, queue, depths[u], Some(u)) && c !in depths
    ensures LeastDepth(w, c, depths[u] + 1)
  {
    NearerClosed(w, depths, seen, queue, depths[u], Some(u));
    if Near(w, c, depths[u]) { NearerQueued(w, depths, depths[u], depths[u], c); }
    HopIsNear(w, u, c, depths[u]);
  }

  lemma AlsoWaiting(queue: seq<Entry>, e: Entry, v: string)
    requires exists i :: 0 <= i < |queue| && queue[i].url == v
    ensures exists i :: 0 <= i < |queue + [e]| && (queue + [e])[i].url == v
  {
    var i :| 0 <= i < |queue| && queue[i].url == v;
    assert (queue + [e])[i].url == v;
  }

  lemma QueueLinkExact(w: Web, depths: map<string, nat>, seen: set<string>, queue: seq<Entry>, u: string, c: string)
    requires Kept(w, depths, seen, queue) && u in seen && u in depths && depths[u] < w.depthLimit && Hop(w, u, c)
    requires Exact(w, depths, seen, queue, depths[u], Some(u)) && c !in depths
    ensures Exact(w, depths[c := depths[u] + 1], seen, queue + [Entry(c, depths[u] + 1)], depths[u], Some(u))
  {
    var d := depths[u] + 1;
    NewIsLeast(w, depths, seen, queue, u, c);
    var now, more := depths[c := d], queue + [Entry(c, d)];
    assert more[|queue|].url == c;
    forall v | v in now && v !in seen ensures exists i :: 0 <= i < |more| && more[i].url == v {
      if v != c { AlsoWaiting(queue, Entry(c, d), v); }
    }
    forall v | v in seen && v in now && Some(v) != Some(u) && w.allowed(v) && now[v] < w.depthLimit
      ensures Links(w, v) <= now.Keys
    {
      assert c != v;
    }
  }

  lemma PopKept(w: Web, depths: map<string, nat>, seen: set<string>, queue: seq<Entry>)
    requires queue != [] && Kept(w, depths, seen, queue)
    ensures Kept(w, depths, seen + {queue[0].url}, queue[1..]) && queue[0].url !in seen
    ensures |seen + {queue[0].url}| == |seen| + 1
  {
  }

  lemma StillWaiting(queue: seq<Entry>, v: string)
    requires queue != [] && v != queue[0].url && exists i :: 0 <= i < |queue| && queue[i].url == v
    ensures exists i :: 0 <= i < |queue[1..]| && queue[1..][i].url == v
  {
    var i :| 0 <= i < |queue| && queue[i].url == v;
    assert queue[1..][i - 1].url == v;
  }

  lemma PopExact(w: Web, depths: map<string, nat>, seen: set<string>, queue: seq<Entry>, at: nat)
    requires queue != [] && Kept(w, depths, seen, queue) && Exact(w, depths, seen, queue, at, None)
    ensures Exact(w, depths, seen + {queue[0].url}, queue[1..], queue[0].depth, Some(queue[0].url))
  {
    forall v | v in depths && v !in seen + {queue[0].url}
      ensures exists i :: 0 <= i < |queue[1..]| && queue[1..][i].url == v
    {
      StillWaiting(queue, v);
    }
    assert forall i :: 0 <= i < |queue[1..]| ==> queue[1..][i] == queue[i + 1];
  }

  lemma Expanded(w: Web, depths: map<string, nat>, seen: set<string>, queue: seq<Entry>, at: nat, u: string)
    requires Exact(w, depths, seen, queue, at, Some(u)) && u in depths
    requires w.allowed(u) && depths[u] < w.depthLimit ==> Links(w, u) <= depths.Keys
    ensures Exact(w, depths, seen, queue, at, None)
  {
  }

  /** A candidate that found no room shows there are too many URLs within reach. */
  lemma NoRoom(w: Web, depths: map<string, nat>, seen: set<string>, queue: seq<Entry>, u: string, c: string)
    requires Kept(w, depths, seen, queue) && u in seen && u in depths && depths[u] < w.depthLimit && Hop(w, u, c)
    requires c !in depths && |depths| + 1 > w.urlLimit
    ensures |Within(w, w.depthLimit)| > Max(1, w.urlLimit)
  {
    var reach := Within(w, w.depthLimit);
    HopIsNear(w, u, c, depths[u]);
    NearGrows(w, c, depths[u] + 1, w.depthLimit);
    NearIsWithin(w, c, w.depthLimit);
    forall v | v in depths ensures v in reach {
      NearGrows(w, v, depths[v], w.depthLimit);
      NearIsWithin(w, v, w.depthLimit);
    }
    SubsetCardinality(depths.Keys + {c}, reach);
    assert u in depths;
    SubsetCardinality({u}, depths.Keys);
  }

  lemma {:induction false} SubsetCardinality<T>(xs: set<T>, ys: set<T>)
    requires xs <= ys
    ensures |xs| <= |ys|
    decreases |xs|
  {
    if xs != {} {
      var x := Any(xs);
      SubsetCardinality(xs - {x}, ys - {x});
    }
  }

  /** With the queue empty and nothing cut off, exactly the URLs within reach were seen. */
  lemma AllSeen(w: Web, depths: map<string, nat>, seen: set<string>, at: nat, u: string)
    requires Kept(w, depths, seen, []) && Exact(w, depths, seen, [], at, None)
    ensures u in seen <==> Near(w, u, w.depthLimit)
    ensures u in seen ==> u in depths && LeastDepth(w, u, depths[u]) && depths[u] <= w.depthLimit
    ensures seen == Within(w, w.depthLimit) == depths.Keys
  {
    assert seen <= depths.Keys;
    forall v | v in depths ensures v in seen {}
    assert seen == depths.Keys;
    forall v, k: nat | v in depths && Near(w, v, k) && k < w.depthLimit && w.allowed(v) ensures Links(w, v) <= depths.Keys {
      NotFarther(w, depths, v, k);
    }
    assert ClosedBelow(w, depths, w.depthLimit);
    forall v ensures v in seen <==> v in Within(w, w.depthLimit) {
      NearIsWithin(w, v, w.depthLimit);
      if Near(w, v, w.depthLimit) { NearerQueued(w, depths, w.depthLimit, w.depthLimit, v); }
      if v in depths { NearGrows(w, v, depths[v], w.depthLimit); }
    }
    NearIsWithin(w, u, w.depthLimit);
  }

  /** Where the crawl stands; after something was cut off only the bounds are known. */
  ghost predicate Frontier(w: Web, depths: map<string, nat>, seen: set<string>, queue: seq<Entry>, at: nat,
                           open: Option<string>, cut: bool) {
    && Kept(w, depths, seen, queue)
    && if cut then |Within(w, w.depthLimit)| > Max(1, w.urlLimit) else Exact(w, depths, seen, queue, at, open)
  }

  predicate Grown(was: map<string, nat>, depths: map<string, nat>) {
    forall v :: v in was ==> v in depths && depths[v] == was[v]
  }

  lemma CutFrontier(w: Web, depths: map<string, nat>, seen: set<string>, queue: seq<Entry>, u: string, c: string, at: nat, open: Option<string>,
                    cut: bool)
    requires Frontier(w, depths, seen, queue, at, open, cut)
    requires u in seen && u in depths && depths[u] < w.depthLimit && Hop(w, u, c)
    requires c !in depths && |depths| + 1 > w.urlLimit
    ensures Frontier(w, depths, seen, queue, at, open, true)
  {
    NoRoom(w, depths, seen, queue, u, c);
  }

  lemma AddedFrontier(w: Web, depths: map<string, nat>, seen: set<string>, queue: seq<Entry>, u: string, c: string, cut: bool,
                      now: map<string, nat>, more: seq<Entry>)
    requires u in seen && u in depths && depths[u] < w.depthLimit && Hop(w, u, c)
    requires Frontier(w, depths, seen, queue, depths[u], Some(u), cut) && c !in depths && |depths| + 1 <= w.urlLimit
    requires now == depths[c := depths[u] + 1] && more == queue + [Entry(c, depths[u] + 1)]
    ensures Frontier(w, now, seen, more, depths[u], Some(u), cut)
  {
    QueueLink(w, depths, seen, queue, u, c);
    if !cut { QueueLinkExact(w, depths, seen, queue, u, c); }
  }

  lemma Counted(w: Web, depths: map<string, nat>, seen: set<string>, queue: seq<Entry>, at: nat, open: Option<string>, cut: bool)
    requires Frontier(w, depths, seen, queue, at, open, cut)
    ensures |depths| == |seen| + |queue| && seen <= depths.Keys && |depths| <= Max(1, w.urlLimit)
  {
  }

  /** The crawl's state; `queued` in the source is the domain of `depths`. */
  datatype Crawl = Crawl(depths: map<string, nat>, seen: set<string>, queue: seq<Entry>, cut: bool)

  ghost predicate Stands(w: Web, s: Crawl, at: nat, open: Option<string>) {
    Frontier(w, s.depths, s.seen, s.queue, at, open, s.cut)
  }

  /** One link of the page being expanded. */
  function Offer(w: Web, s: Crawl, depth: nat, candidate: string): Crawl {
    if candidate in s.seen || candidate in s.depths then s
    else if |s.seen| + |s.queue| + 1 > w.urlLimit then s.(cut := true)
    else s.(depths := s.depths[candidate := depth + 1], queue := s.queue + [Entry(candidate, depth + 1)])
  }

  function OfferAll(w: Web, s: Crawl, depth: nat, links: seq<string>): Crawl
    decreases |links|
  {
    if links == [] then s
    else Offer(w, OfferAll(w, s, depth, links[..|links| - 1]), depth, w.canonical(links[|links| - 1]))
  }

  lemma OfferKeeps(w: Web, s: Crawl, u: string, c: string)
    requires u in s.seen && u in s.depths && s.depths[u] < w.depthLimit && Hop(w, u, c)
    requires Stands(w, s, s.depths[u], Some(u))
    ensures Stands(w, Offer(w, s, s.depths[u], c), s.depths[u], Some(u))
  {
    Counted(w, s.depths, s.seen, s.queue, s.depths[u], Some(u), s.cut);
    if c in s.seen || c in s.depths {
      assert Offer(w, s, s.depths[u], c) == s;
    } else if |s.seen| + |s.queue| + 1 > w.urlLimit {
      CutFrontier(w, s.depths, s.seen, s.queue, u, c, s.depths[u], Some(u), s.cut);
    } else {
      var n := Offer(w, s, s.depths[u], c);
      AddedFrontier(w, s.depths, s.seen, s.queue, u, c, s.cut, n.depths, n.queue);
    }
  }

  lemma OfferGrows(w: Web, s: Crawl, depth: nat, c: string)
    ensures var n := Offer(w, s, depth, c);
      && Grown(s.depths, n.depths) && n.seen == s.seen && (s.cut ==> n.cut)
      && (!n.cut && s.seen <= s.depths.Keys ==> c in n.depths)
  {
  }

  lemma {:induction false} OfferAllGrows(w: Web, s: Crawl, depth: nat, links: seq<string>, i: nat)
    requires i < |links| && s.seen <= s.depths.Keys
    ensures var n := OfferAll(w, s, depth, links);
      && Grown(s.depths, n.depths) && n.seen == s.seen && (s.cut ==> n.cut)
      && (!n.cut ==> w.canonical(links[i]) in n.depths)
    decreases |links|
  {
    var front := links[..|links| - 1];
    OfferGrows(w, OfferAll(w, s, depth, front), depth, w.canonical(links[|links| - 1]));
    if i < |front| {
      OfferAllGrows(w, s, depth, front, i);
    } else if front != [] {
      OfferAllGrows(w, s, depth, front, 0);
    }
  }

  lemma {:induction false} OfferAllKeeps(w: Web, s: Crawl, u: string, links: seq<string>)
    requires u in s.seen && u in s.depths && s.depths[u] < w.depthLimit && w.allowed(u)
    requires forall i :: 0 <= i < |links| ==> w.canonical(links[i]) in Links(w, u)
    requires Stands(w, s, s.depths[u], Some(u))
    ensures var n := OfferAll(w, s, s.depths[u], links);
      && Stands(w, n, s.depths[u], Some(u)) && Grown(s.depths, n.depths) && n.seen == s.seen
    decreases |links|
  {
    if links != [] {
      var front := links[..|links| - 1];
      OfferAllKeeps(w, s, u, front);
      OfferGrows(w, OfferAll(w, s, s.depths[u], front), s.depths[u], w.canonical(links[|links| - 1]));
      OfferKeeps(w, OfferAll(w, s, s.depths[u], front), u, w.canonical(links[|links| - 1]));
    }
  }

  /** Once all its links were offered, a page is expanded. */
  lemma PageExpanded(w: Web, s: Crawl, u: string)
    requires u in s.seen && u in s.depths && s.depths[u] < w.depthLimit && w.allowed(u)
    requires Stands(w, s, s.depths[u], Some(u))
    ensures Stands(w, OfferAll(w, s, s.depths[u], w.fetch(u).links), s.depths[u], None)
    ensures Grown(s.depths, OfferAll(w, s, s.depths[u], w.fetch(u).links).depths)
  {
    var links := w.fetch(u).links;
    OfferAllKeeps(w, s, u, links);
    Counted(w, s.depths, s.seen, s.queue, s.depths[u], Some(u), s.cut);
    LinksQueued(w, s, u);
    var n := OfferAll(w, s, s.depths[u], links);
    if !n.cut { Expanded(w, n.depths, n.seen, n.queue, s.depths[u], u); }
  }

  lemma LinksQueued(w: Web, s: Crawl, u: string)
    requires u in s.depths && s.seen <= s.depths.Keys
    ensures var n := OfferAll(w, s, s.depths[u], w.fetch(u).links);
            !n.cut ==> Links(w, u) <= n.depths.Keys
  {
    var links := w.fetch(u).links;
    forall i | 0 <= i < |links| ensures
      !OfferAll(w, s, s.depths[u], links).cut ==> w.canonical(links[i]) in OfferAll(w, s, s.depths[u], links).depths
    {
      OfferAllGrows(w, s, s.depths[u], links, i);
    }
  }

  /** All links of the page, in order. */
  method QueueLinks(w: Web, u: string, depth: nat, seen: set<string>, before: set<string>, waiting: seq<Entry>,
                    wasCut: bool, ghost was: map<string, nat>)
    returns (queued: set<string>, queue: seq<Entry>, cut: bool, ghost depths: map<string, nat>)
    requires before == was.Keys
    ensures Crawl(depths, seen, queue, cut) == OfferAll(w, Crawl(was, seen, waiting, wasCut), depth, w.fetch(u).links)
    ensures queued == depths.Keys
  {
    queued, queue, cut, depths := before, waiting, wasCut, was;
    var links := w.fetch(u).links;
    for i := 0 to |links|
      invariant Crawl(depths, seen, queue, cut) == OfferAll(w, Crawl(was, seen, waiting, wasCut), depth, links[..i])
      invariant queued == depths.Keys
    {
      assert links[..i + 1][..i] == links[..i];
      var candidate := w.canonical(links[i]);
      if candidate in seen || candidate in queued {
        continue;
      }
      if |seen| + |queue| + 1 > w.urlLimit {
        cut := true;
        continue;
      }
      queued, queue := queued + {candidate}, queue + [Entry(candidate, depth + 1)];
      depths := depths[candidate := depth + 1];
    }
    assert links[..|links|] == links;
  }

  // ---- The whole crawl ------------------------------------------------------

  lemma FetchLogged(w: Web, depths: map<string, nat>, seen: set<string>, fetched: seq<Fetched>, u: string, d: nat)
    requires Logged(w, depths, seen, fetched) && u !in seen && u in depths && depths[u] == d && w.allowed(u)
    ensures Logged(w, depths, seen + {u}, fetched + [Fetched(u, d)])
  {
    var more := fetched + [Fetched(u, d)];
    assert more[|fetched|].url == u;
    forall v | v in seen + {u} && w.allowed(v) ensures exists i :: 0 <= i < |more| && more[i].url == v {
      if v != u {
        var i :| 0 <= i < |fetched| && fetched[i].url == v;
        assert more[i].url == v;
      }
    }
  }

  lemma SkipLogged(w: Web, depths: map<string, nat>, seen: set<string>, fetched: seq<Fetched>, u: string)
    requires Logged(w, depths, seen, fetched) && !w.allowed(u)
    ensures Logged(w, depths, seen + {u}, fetched)
  {
  }

  lemma GrownLogged(w: Web, was: map<string, nat>, depths: map<string, nat>, seen: set<string>, fetched: seq<Fetched>)
    requires Logged(w, was, seen, fetched) && Grown(was, depths)
    ensures Logged(w, depths, seen, fetched)
  {
  }

  lemma {:induction false} LoggedSize(w: Web, depths: map<string, nat>, seen: set<string>, fetched: seq<Fetched>)
    requires Logged(w, depths, seen, fetched)
    ensures |fetched| <= |seen|
  {
    var urls := seq(|fetched|, i requires 0 <= i < |fetched| => fetched[i].url);
    DistinctLength(urls);
    SubsetCardinality((set u | u in urls), seen);
  }

  lemma PopFrontier(w: Web, depths: map<string, nat>, seen: set<string>, queue: seq<Entry>, at: nat, cut: bool)
    requires queue != [] && Frontier(w, depths, seen, queue, at, None, cut)
    ensures queue[0].url !in seen && queue[0].url in depths && depths[queue[0].url] == queue[0].depth <= w.depthLimit
    ensures Frontier(w, depths, seen + {queue[0].url}, queue[1..], queue[0].depth, Some(queue[0].url), cut)
    ensures |seen| < Max(1, w.urlLimit)
  {
    PopKept(w, depths, seen, queue);
    if !cut { PopExact(w, depths, seen, queue, at); }
  }

  lemma LeaveFrontier(w: Web, depths: map<string, nat>, seen: set<string>, queue: seq<Entry>, at: nat, u: string, cut: bool)
    requires Frontier(w, depths, seen, queue, at, Some(u), cut) && u in depths && (!w.allowed(u) || depths[u] >= w.depthLimit)
    ensures Frontier(w, depths, seen, queue, at, None, cut)
  {
    if !cut { Expanded(w, depths, seen, queue, at, u); }
  }

  /** What has been fetched when the queue is empty. */
  ghost predicate Complete(w: Web, fetched: seq<Fetched>) {
    forall u, d: nat :: Fetched(u, d) in fetched <==> w.allowed(u) && LeastDepth(w, u, d) && d <= w.depthLimit
  }

  lemma LoggedAll(w: Web, depths: map<string, nat>, seen: set<string>, fetched: seq<Fetched>, at: nat, u: string, d: nat)
    requires Kept(w, depths, seen, []) && Exact(w, depths, seen, [], at, None) && Logged(w, depths, seen, fetched)
    ensures Fetched(u, d) in fetched <==> w.allowed(u) && LeastDepth(w, u, d) && d <= w.depthLimit
  {
    AllSeen(w, depths, seen, at, u);
    if w.allowed(u) && LeastDepth(w, u, d) && d <= w.depthLimit {
      NearGrows(w, u, d, w.depthLimit);
      SameLeast(w, u, d, depths[u]);
      var i :| 0 <= i < |fetched| && fetched[i].url == u;
      assert fetched[i] == Fetched(u, d);
    }
  }

  lemma SameLeast(w: Web, u: string, j: nat, k: nat)
    requires LeastDepth(w, u, j) && LeastDepth(w, u, k)
    ensures j == k
  {
    if j < k { NearGrows(w, u, j, k - 1); }
    if k < j { NearGrows(w, u, k, j - 1); }
  }

  lemma Finished(w: Web, depths: map<string, nat>, seen: set<string>, fetched: seq<Fetched>, at: nat, cut: bool)
    requires Frontier(w, depths, seen, [], at, None, cut) && Logged(w, depths, seen, fetched)
    ensures cut <==> |Within(w, w.depthLimit)| > Max(1, w.urlLimit)
    ensures !cut ==> Complete(w, fetched)
  {
    if !cut {
      AllSeen(w, depths, seen, at, "");
      forall u, d: nat ensures Fetched(u, d) in fetched <==> w.allowed(u) && LeastDepth(w, u, d) && d <= w.depthLimit {
        LoggedAll(w, depths, seen, fetched, at, u, d);
      }
    }
  }

  /** No page twice, no more pages than the bound, none too far or against robots. */
  ghost predicate InBounds(w: Web, fetched: seq<Fetched>) {
    && FetchedOnce(fetched) && |fetched| <= Max(1, w.urlLimit)
    && forall i :: 0 <= i < |fetched| ==>
         w.allowed(fetched[i].url) && Near(w, fetched[i].url, fetched[i].depth) && fetched[i].depth <= w.depthLimit
  }

  lemma Bounds(w: Web, depths: map<string, nat>, seen: set<string>, queue: seq<Entry>, at: nat, open: Option<string>, cut: bool,
               fetched: seq<Fetched>)
    requires Frontier(w, depths, seen, queue, at, open, cut) && Logged(w, depths, seen, fetched)
    ensures InBounds(w, fetched)
  {
    LoggedSize(w, depths, seen, fetched);
    Counted(w, depths, seen, queue, at, open, cut);
  }

  /** The page popped: its URL now seen, and its links offered when it is expandable. */
  function Turn(w: Web, s: Crawl): Crawl
    requires s.queue != []
  {
    var e := s.queue[0];
    var popped := s.(seen := s.seen + {e.url}, queue := s.queue[1..]);
    if w.allowed(e.url) && e.depth < w.depthLimit then OfferAll(w, popped, e.depth, w.fetch(e.url).links) else popped
  }

  function Log(w: Web, fetched: seq<Fetched>, e: Entry): seq<Fetched> {
    if w.allowed(e.url) then fetched + [Fetched(e.url, e.depth)] else fetched
  }

  lemma CountLog(w: Web, fetched: seq<Fetched>, e: Entry)
    ensures ArticleCount(w, Log(w, fetched, e)) ==
            ArticleCount(w, fetched) + if w.allowed(e.url) && w.fetch(e.url).article then 1 else 0
  {
    assert (fetched + [Fetched(e.url, e.depth)])[..|fetched|] == fetched;
  }

  ghost predicate Standing(w: Web, s: Crawl, fetched: seq<Fetched>, at: nat) {
    Stands(w, s, at, None) && Logged(w, s.depths, s.seen, fetched)
  }

  lemma TurnStands(w: Web, s: Crawl, at: nat)
    requires s.queue != [] && Stands(w, s, at, None)
    ensures Stands(w, Turn(w, s), s.queue[0].depth, None) && Grown(s.depths, Turn(w, s).depths)
    ensures s.queue[0].url !in s.seen && s.queue[0].url in s.depths && s.depths[s.queue[0].url] == s.queue[0].depth
    ensures |s.seen| < Max(1, w.urlLimit)
  {
    var e := s.queue[0];
    var popped := s.(seen := s.seen + {e.url}, queue := s.queue[1..]);
    PopFrontier(w, s.depths, s.seen, s.queue, at, s.cut);
    if w.allowed(e.url) && e.depth < w.depthLimit {
      PageExpanded(w, popped, e.url);
    } else {
      LeaveFrontier(w, s.depths, popped.seen, popped.queue, e.depth, e.url, s.cut);
    }
  }

  lemma {:induction false} TurnSeen(w: Web, s: Crawl)
    requires s.queue != []
    ensures Turn(w, s).seen == s.seen + {s.queue[0].url}
  {
    var e := s.queue[0];
    var popped := s.(seen := s.seen + {e.url}, queue := s.queue[1..]);
    OfferAllSeen(w, popped, e.depth, w.fetch(e.url).links);
  }

  lemma {:induction false} OfferAllSeen(w: Web, s: Crawl, depth: nat, links: seq<string>)
    ensures OfferAll(w, s, depth, links).seen == s.seen
    decreases |links|
  {
    if links != [] { OfferAllSeen(w, s, depth, links[..|links| - 1]); }
  }

  /** One turn of the loop keeps everything. */
  lemma TurnKeeps(w: Web, s: Crawl, fetched: seq<Fetched>, at: nat)
    requires s.queue != [] && Standing(w, s, fetched, at)
    ensures Standing(w, Turn(w, s), Log(w, fetched, s.queue[0]), s.queue[0].depth)
    ensures |s.seen| < Max(1, w.urlLimit) && |Turn(w, s).seen| == |s.seen| + 1
  {
    var e := s.queue[0];
    TurnStands(w, s, at);
    TurnSeen(w, s);
    if w.allowed(e.url) {
      FetchLogged(w, s.depths, s.seen, fetched, e.url, e.depth);
    } else {
      SkipLogged(w, s.depths, s.seen, fetched, e.url);
    }
    GrownLogged(w, s.depths, Turn(w, s).depths, s.seen + {e.url}, Log(w, fetched, e));
  }

  /** What is known of any standing crawl. */
  lemma StandingBounds(w: Web, s: Crawl, fetched: seq<Fetched>, at: nat)
    requires Standing(w, s, fetched, at)
    ensures InBounds(w, fetched)
    ensures s.queue == [] ==> (s.cut <==> |Within(w, w.depthLimit)| > Max(1, w.urlLimit)) && (!s.cut ==> Complete(w, fetched))
  {
    Bounds(w, s.depths, s.seen, s.queue, at, None, s.cut, fetched);
    if s.queue == [] { Finished(w, s.depths, s.seen, fetched, at, s.cut); }
  }

  /** `_fetch_bfs_articles`. Each page is fetched at most once, never more than the bound on
      discovered URLs, and unless the reach of the crawl exceeds that bound the pages fetched
      are exactly those within the depth limit that robots allow, each at its least number of
      hops. Running into the article cap ends the crawl with an error. */
  method FetchAll(w: Web) returns (fetched: seq<Fetched>, cut: bool, ok: bool)
    ensures InBounds(w, fetched)
    ensures ok <==> ArticleCount(w, fetched) <= w.articleLimit
    ensures ok ==> (cut <==> |Within(w, w.depthLimit)| > Max(1, w.urlLimit))
    ensures ok && !cut ==> Complete(w, fetched)
  {
    var start := w.canonical(w.base);
    var queue := [Entry(start, 0)];
    var queued := {start};
    var seen: set<string> := {};
    var articles := 0;
    fetched, cut := [], false;
    ghost var depths: map<string, nat> := map[start := 0];
    ghost var at := 0;
    ghost var s, log := Crawl(depths, seen, queue, cut), fetched;
    StartStands(w);
    while queue != []
      invariant Standing(w, s, log, at)
      invariant s == Crawl(depths, seen, queue, cut) && queued == depths.Keys && log == fetched
      invariant articles == ArticleCount(w, log) <= w.articleLimit
      decreases Max(1, w.urlLimit) - |seen|
    {
      var entry := queue[0];
      TurnKeeps(w, s, log, at);
      CountLog(w, log, entry);
      s, log, at := Turn(w, s), Log(w, log, entry), entry.depth;
      queue := queue[1..];
      seen := seen + {entry.url};
      if !w.allowed(entry.url) {
        continue;
      }
      fetched := fetched + [Fetched(entry.url, entry.depth)];
      if w.fetch(entry.url).article {
        articles := articles + 1;
        if articles > w.articleLimit {
          StandingBounds(w, s, fetched, at);
          return fetched, cut, false;
        }
      }
      if entry.depth >= w.depthLimit {
        continue;
      }
      queued, queue, cut, depths := QueueLinks(w, entry.url, entry.depth, seen, queued, queue, cut, depths);
    }
    StandingBounds(w, s, fetched, at);
    ok := true;
  }

  lemma StartStands(w: Web)
    ensures var start := w.canonical(w.base);
            Standing(w, Crawl(map[start := 0], {}, [Entry(start, 0)], false), [], 0)
  {
    assert [Entry(w.canonical(w.base), 0)][0].url == w.canonical(w.base);
  }
}
