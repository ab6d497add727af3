/** A successful crawl replaces the active view of its site, and of nothing else. */
module CrawlView {
  import opened Prelude
  import opened CrawlTables
  import opened CrawlRun

  /** Nothing stored carries the id of this run yet. */
  predicate FreshRun(rows: Articles, links: Links, run: int) {
    && (forall p :: p in rows ==> rows[p].lastRun != Some(run))
    && (forall l :: l in links ==> links[l].lastRun != Some(run))
  }

  lemma {:induction false} SeenRow(states: seq<Articles>, site: int, feed: seq<ArticleData>, run: int, ids: seq<int>, j: nat, k: nat)
    requires Staged(states, site, feed, run, ids) && k < j <= |feed|
    ensures ids[k] in states[j] && states[j][ids[k]].lastRun == Some(run) && states[j][ids[k]].site == site
    decreases j
  {
    assert StagedOne(states, site, feed, run, ids, j - 1);
    if ids[k] == ids[j - 1] {
      UpsertedRow(states[j - 1], site, feed[j - 1], Some(run), ids[j - 1], states[j]);
    } else {
      SeenRow(states, site, feed, run, ids, j - 1, k);
      UpsertedOther(states[j - 1], site, feed[j - 1], Some(run), ids[j - 1], states[j], ids[k]);
    }
  }

  /** The run mark is on exactly the rows the run chose. */
  lemma SeenExactly(states: seq<Articles>, site: int, feed: seq<ArticleData>, run: int, ids: seq<int>, p: int)
    requires Staged(states, site, feed, run, ids) && p in states[|feed|]
    requires forall q :: q in states[0] ==> states[0][q].lastRun != Some(run)
    ensures states[|feed|][p].lastRun == Some(run) <==> p in ids
  {
    if p in ids {
      var k :| 0 <= k < |ids| && ids[k] == p;
      SeenRow(states, site, feed, run, ids, |feed|, k);
    } else {
      UntouchedRow(states, site, feed, run, ids, |feed|, p);
    }
  }

  /** The site's active articles are exactly the rows the crawl put its articles in. */
  lemma ActiveExactly(states: seq<Articles>, site: int, feed: seq<ArticleData>, run: int, ids: seq<int>, p: int)
    requires Staged(states, site, feed, run, ids)
    requires forall q :: q in states[0] ==> states[0][q].lastRun != Some(run)
    ensures var now := ReconciledArticles(states[|feed|], site, run);
            OfSite(now, site, p) && now[p].active <==> p in ids
  {
    if p in states[|feed|] { SeenExactly(states, site, feed, run, ids, p); }
    if p in ids {
      var k :| 0 <= k < |ids| && ids[k] == p;
      SeenRow(states, site, feed, run, ids, |feed|, k);
    }
  }

  /** Each crawled article has a row of its own, active, with what was crawled. */
  lemma CarriesArticle(states: seq<Articles>, site: int, feed: seq<ArticleData>, run: int, ids: seq<int>, i: nat)
    requires Staged(states, site, feed, run, ids) && Distinguished(feed) && i < |feed|
    requires NobodyLends(KnownUrls(states[0], site), feed)
    ensures var now := ReconciledArticles(states[|feed|], site, run);
      && OfSite(now, site, ids[i]) && now[ids[i]].active
      && now[ids[i]].url == feed[i].url && now[ids[i]].content == feed[i].content
      && (feed[i].externalId.Some? ==> now[ids[i]].externalId == feed[i].externalId)
      && (forall j :: 0 <= j < |feed| && j != i ==> ids[j] != ids[i])
  {
    forall k | i < k < |feed| ensures !Borrows(states, feed, ids, i, k) {
      LendsExactly(states, site, feed, run, ids, i, k);
    }
    RowKept(states, site, feed, run, ids, i, |feed|);
    assert StagedOne(states, site, feed, run, ids, i);
    UpsertedRow(states[i], site, feed[i], Some(run), ids[i], states[i + 1]);
    RowsDistinct(states, site, feed, run, ids);
  }

  /** Whatever the table held before: every connector's feed of distinct articles ends in one
      active row per article, and the site has no other active row. */
  lemma OneRowEach(states: seq<Articles>, site: int, feed: seq<ArticleData>, run: int, ids: seq<int>)
    requires Staged(states, site, feed, run, ids) && Distinguished(feed) && Uniform(feed)
    requires forall q :: q in states[0] ==> states[0][q].lastRun != Some(run)
    ensures var now := ReconciledArticles(states[|feed|], site, run);
      && Distinct(ids)
      && (forall p :: OfSite(now, site, p) && now[p].active <==> p in ids)
      && (forall i :: 0 <= i < |feed| ==>
            ids[i] in now && now[ids[i]].url == feed[i].url && now[ids[i]].content == feed[i].content
            && (feed[i].externalId.Some? ==> now[ids[i]].externalId == feed[i].externalId))
  {
    UniformLendsNothing(KnownUrls(states[0], site), feed);
    RowsDistinct(states, site, feed, run, ids);
    var now := ReconciledArticles(states[|feed|], site, run);
    forall p ensures OfSite(now, site, p) && now[p].active <==> p in ids { ActiveExactly(states, site, feed, run, ids, p); }
    forall i | 0 <= i < |feed| ensures ids[i] in now && now[ids[i]].url == feed[i].url && now[ids[i]].content == feed[i].content
                                       && (feed[i].externalId.Some? ==> now[ids[i]].externalId == feed[i].externalId) {
      CarriesArticle(states, site, feed, run, ids, i);
    }
  }

  /** Articles of other sites are exactly as they were. */
  lemma OtherSitesKept(states: seq<Articles>, site: int, feed: seq<ArticleData>, run: int, ids: seq<int>, p: int)
    requires Staged(states, site, feed, run, ids) && p in states[0] && states[0][p].site != site
    ensures var now := ReconciledArticles(states[|feed|], site, run);
            p in now && now[p] == states[0][p]
  {
    OtherSiteStays(states, site, feed, run, ids, |feed|, p);
  }

  lemma {:induction false} OtherSiteStays(states: seq<Articles>, site: int, feed: seq<ArticleData>, run: int, ids: seq<int>, j: nat, p: int)
    requires Staged(states, site, feed, run, ids) && p in states[0] && states[0][p].site != site && j <= |feed|
    ensures p in states[j] && states[j][p] == states[0][p]
    decreases j
  {
    if j > 0 {
      OtherSiteStays(states, site, feed, run, ids, j - 1, p);
      assert StagedOne(states, site, feed, run, ids, j - 1);
      UpsertSpares(states[j - 1], site, feed[j - 1], Some(run), ids[j - 1], states[j], p);
    }
  }

  lemma {:induction false} OutboundSources(normalize: string -> string, resolve: Resolver, feed: seq<ArticleData>, ids: seq<int>, l: (int, int))
    requires |feed| == |ids|
    ensures l in LinksFound(normalize, resolve, feed, ids) <==>
      l.0 != l.1 && exists i :: 0 <= i < |feed| && ids[i] == l.0
                                && LinksTo(UrlIndex(normalize, feed, ids), normalize, resolve, feed[i].links, l.1)
  {
    var index, out := UrlIndex(normalize, feed, ids), Outbound(feed, ids);
    AllLinksPairs(index, normalize, resolve, out, l);
    forall i | 0 <= i < |feed|
      ensures Joins(index, normalize, resolve, out, l, i) <==> ids[i] == l.0 && LinksTo(index, normalize, resolve, feed[i].links, l.1)
    {
    }
    if i :| 0 <= i < |feed| && ids[i] == l.0 && LinksTo(index, normalize, resolve, feed[i].links, l.1) {
      assert Joins(index, normalize, resolve, out, l, i);
    }
  }

  /** The active links from the site are exactly the resolved pairs of this crawl, each as it
      was found; links it no longer has stay on record, inactive, and links from other sites
      are as they were. */
  lemma LinksExactly(states: seq<Articles>, site: int, feed: seq<ArticleData>, run: int, ids: seq<int>, links: Links,
                     normalize: string -> string, resolve: Resolver, l: (int, int))
    requires Staged(states, site, feed, run, ids) && FreshRun(states[0], links, run)
    ensures var rows, found := states[|feed|], LinksFound(normalize, resolve, feed, ids);
      var now := ReconciledLinks(Written(links, found, run), rows, site, run);
      && (l in now <==> l in links || l in found)
      && (l in found ==> OfSite(rows, site, l.0) && now[l] == Link(found[l], true, Some(run)))
      && (l in links && l !in found ==> now[l] == if OfSite(rows, site, l.0) then links[l].(active := false) else links[l])
  {
    var found := LinksFound(normalize, resolve, feed, ids);
    OutboundSources(normalize, resolve, feed, ids, l);
    if l in found {
      var i :| 0 <= i < |feed| && ids[i] == l.0;
      SeenRow(states, site, feed, run, ids, |feed|, i);
    }
  }

  /** No suggestion that is still open touches an article the crawl retired. */
  lemma NoOpenSuggestionOnRetired(states: seq<Articles>, site: int, feed: seq<ArticleData>, run: int, ids: seq<int>,
                                  suggestions: Suggestions, s: int, p: int)
    requires Staged(states, site, feed, run, ids) && s in suggestions
    requires var now := ReconciledArticles(states[|feed|], site, run);
             OfSite(now, site, p) && !now[p].active
    requires suggestions[s].source == p || suggestions[s].target == Some(p)
    ensures ReconciledSuggestions(suggestions, states[|feed|], site, run)[s].state !in {Pending, Selected}
  {
    var rows := states[|feed|];
    var gone := set q | q in rows && Retired(rows, site, run, q);
    assert p in gone;
  }

  /** An article the site had that the crawl did not find. */
  predicate LeftOut(before: Articles, site: int, ids: seq<int>, p: int) { OfSite(before, site, p) && p !in ids }

  lemma {:induction false} RowStays(states: seq<Articles>, site: int, feed: seq<ArticleData>, run: int, ids: seq<int>, j: nat, p: int)
    requires Staged(states, site, feed, run, ids) && j <= |feed| && p in states[0]
    ensures p in states[j] && states[j][p].site == states[0][p].site
    decreases j
  {
    if j > 0 {
      RowStays(states, site, feed, run, ids, j - 1, p);
      assert StagedOne(states, site, feed, run, ids, j - 1);
    }
  }

  lemma RetiredExactly(states: seq<Articles>, site: int, feed: seq<ArticleData>, run: int, ids: seq<int>, p: int)
    requires Staged(states, site, feed, run, ids)
    requires forall q :: q in states[0] ==> states[0][q].lastRun != Some(run)
    ensures Retired(states[|feed|], site, run, p) <==> LeftOut(states[0], site, ids, p)
  {
    if p in states[|feed|] {
      SeenExactly(states, site, feed, run, ids, p);
      if p !in ids { UntouchedRow(states, site, feed, run, ids, |feed|, p); }
    }
    if p in states[0] { RowStays(states, site, feed, run, ids, |feed|, p); }
  }

  /** A retired article keeps what was crawled of it; only its URL may have gone to the article
      that has it now. */
  lemma RetiredKeepsContent(states: seq<Articles>, site: int, feed: seq<ArticleData>, run: int, ids: seq<int>, p: int)
    requires Staged(states, site, feed, run, ids) && LeftOut(states[0], site, ids, p)
    requires forall q :: q in states[0] ==> states[0][q].lastRun != Some(run)
    ensures var now := ReconciledArticles(states[|feed|], site, run);
      && p in now && !now[p].active && now[p].content == states[0][p].content
      && now[p].externalId == states[0][p].externalId && now[p].lastRun == states[0][p].lastRun
  {
    RowStays(states, site, feed, run, ids, |feed|, p);
    UntouchedRow(states, site, feed, run, ids, |feed|, p);
    SeenExactly(states, site, feed, run, ids, p);
  }

  /** A suggestion that an editor or a publication has decided is exactly as it was; an open one
      expires exactly when its source or its target was retired. */
  lemma SuggestionsExactly(states: seq<Articles>, site: int, feed: seq<ArticleData>, run: int, ids: seq<int>,
                           suggestions: Suggestions, s: int)
    requires Staged(states, site, feed, run, ids) && s in suggestions
    requires forall q :: q in states[0] ==> states[0][q].lastRun != Some(run)
    ensures var was, now := suggestions[s], ReconciledSuggestions(suggestions, states[|feed|], site, run);
      && now.Keys == suggestions.Keys
      && (was.state !in {Pending, Selected} ==> now[s] == was)
      && (was.state in {Pending, Selected} ==>
            if LeftOut(states[0], site, ids, was.source) || exists t :: was.target == Some(t) && LeftOut(states[0], site, ids, t)
            then now[s] == was.(state := Expired) else now[s] == was)
  {
    var rows, was := states[|feed|], suggestions[s];
    var gone := set p | p in rows && Retired(rows, site, run, p);
    forall p ensures p in gone <==> LeftOut(states[0], site, ids, p) { RetiredExactly(states, site, feed, run, ids, p); }
  }

  /** A comparison key stands for the last staged article that has it. */
  lemma {:induction false} UrlIndexIsLast(normalize: string -> string, feed: seq<ArticleData>, ids: seq<int>, i: nat)
    requires |feed| == |ids| && i < |feed|
    requires forall j :: i < j < |feed| ==> normalize(feed[j].url) != normalize(feed[i].url)
    ensures var key := normalize(feed[i].url);
            key in UrlIndex(normalize, feed, ids) && UrlIndex(normalize, feed, ids)[key] == ids[i]
    decreases |feed|
  {
    var n := |feed| - 1;
    if i < n { UrlIndexIsLast(normalize, feed[..n], ids[..n], i); }
  }

  /** Article `i` is the last of the feed whose URL has this comparison key. */
  predicate LastWithKey(normalize: string -> string, feed: seq<ArticleData>, key: string, i: int) {
    0 <= i < |feed| && normalize(feed[i].url) == key && forall j :: i < j < |feed| ==> normalize(feed[j].url) != key
  }

  lemma {:induction false} IndexExactly(normalize: string -> string, feed: seq<ArticleData>, ids: seq<int>, key: string)
    requires |feed| == |ids|
    ensures key !in UrlIndex(normalize, feed, ids) <==> forall i :: 0 <= i < |feed| ==> normalize(feed[i].url) != key
    ensures key in UrlIndex(normalize, feed, ids) ==>
      exists i :: LastWithKey(normalize, feed, key, i) && UrlIndex(normalize, feed, ids)[key] == ids[i]
    decreases |feed|
  {
    if feed != [] {
      var n := |feed| - 1;
      IndexExactly(normalize, feed[..n], ids[..n], key);
      if normalize(feed[n].url) == key {
        assert LastWithKey(normalize, feed, key, n);
      } else if key in UrlIndex(normalize, feed[..n], ids[..n]) {
        var i :| LastWithKey(normalize, feed[..n], key, i) && UrlIndex(normalize, feed[..n], ids[..n])[key] == ids[..n][i];
        assert LastWithKey(normalize, feed, key, i);
      }
    }
  }

  /** Where an outbound link leads: to the last crawled article with the key of its URL; when
      there is none and the site resolves the URL, to the last with the key of what it
      resolves to; and otherwise nowhere. */
  lemma TargetExactly(normalize: string -> string, resolve: Resolver, feed: seq<ArticleData>, ids: seq<int>, url: string)
    requires |feed| == |ids|
    ensures var t := Target(UrlIndex(normalize, feed, ids), normalize, resolve, url);
      if exists i :: 0 <= i < |feed| && normalize(feed[i].url) == normalize(url) then
        exists i :: LastWithKey(normalize, feed, normalize(url), i) && t == Some(ids[i])
      else if resolve.Some? && resolve.value(url) != "" && exists i :: 0 <= i < |feed| && normalize(feed[i].url) == normalize(resolve.value(url)) then
        exists i :: LastWithKey(normalize, feed, normalize(resolve.value(url)), i) && t == Some(ids[i])
      else t.None?
  {
    IndexExactly(normalize, feed, ids, normalize(url));
    if resolve.Some? { IndexExactly(normalize, feed, ids, normalize(resolve.value(url))); }
  }

  // ---- A feed no connector delivers -----------------------------------------

  /** What uniform feeds are spared: an article without an external id is put in a row that has
      one, and a later article carries that id. */
  lemma OneRowForTwo() returns (feed: seq<ArticleData>, states: seq<Articles>, ids: seq<int>)
    ensures Distinguished(feed) && |feed| == 2 && Staged(states, 1, feed, 7, ids) && ids[0] == ids[1]
  {
    var one, two := ArticleData("https://a/x", None, NO_CONTENT, []), ArticleData("https://a/y!", Some("5"), NO_CONTENT, []);
    var row := Row(1, "https://a/x", Some("5"), NO_CONTENT, true, Some(3));
    feed, ids := [one, two], [4, 4];
    var s0: Articles := map[4 := row];
    var s1: Articles := map[4 := Filled(row, one, Some(7))];
    var s2: Articles := map[4 := Filled(Filled(row, one, Some(7)), two, Some(7))];
    states := [s0, s1, s2];
    assert |one.url| != |two.url|;
    OrdinaryHttps(one.url);
    OrdinaryHttps(two.url);
    FoundIfThere(s0, 1, one, 4);
    FoundIfThere(s1, 1, two, 4);
    assert HasUrl(s0, 1, one.url, 4) && HasExternal(s1, 1, two.externalId, 4);
    assert StagedOne(states, 1, feed, 7, ids, 0);
    assert StagedOne(states, 1, feed, 7, ids, 1);
    assert Staged(states, 1, feed, 7, ids);
  }

  lemma OrdinaryHttps(url: string)
    requires |url| > 0 && url[0] == 'h'
    ensures Ordinary(url)
  {
    assert SWAP[0] == 'l';
  }
}
