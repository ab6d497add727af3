/** One ingestion run: everything or nothing, and what everything is. */
module CrawlRun {
  import opened Prelude
  import opened CrawlTables
  import opened ArticleStore
  import opened CrawlSnapshot

  datatype Limits = Limits(maxArticles: nat, maxChars: nat, maxLinks: nat, maxTotalLinks: nat)

  function TotalLinks(feed: seq<ArticleData>): nat {
    if feed == [] then 0 else TotalLinks(feed[..|feed| - 1]) + |feed[|feed| - 1].links|
  }

  predicate WithinLimits(limits: Limits, feed: seq<ArticleData>) {
    && |feed| <= limits.maxArticles && TotalLinks(feed) <= limits.maxTotalLinks
    && forall i :: 0 <= i < |feed| ==> |feed[i].content.text| <= limits.maxChars && |feed[i].links| <= limits.maxLinks
  }

  /** Which article a comparison key stands for: the last one staged with it. */
  function UrlIndex(normalize: string -> string, feed: seq<ArticleData>, ids: seq<int>): map<string, int>
    requires |feed| == |ids|
  {
    if feed == [] then map[] else
      var n := |feed| - 1;
      UrlIndex(normalize, feed[..n], ids[..n])[normalize(feed[n].url) := ids[n]]
  }

  function Outbound(feed: seq<ArticleData>, ids: seq<int>): (r: seq<(int, seq<OutLink>)>)
    requires |feed| == |ids|
    ensures |r| == |feed| && forall i :: 0 <= i < |feed| ==> r[i] == (ids[i], feed[i].links)
  {
    if feed == [] then [] else
      var n := |feed| - 1;
      Outbound(feed[..n], ids[..n]) + [(ids[n], feed[n].links)]
  }

  function Members(ids: seq<int>): set<int> { set p | p in ids }

  function LinksFound(normalize: string -> string, resolve: Resolver, feed: seq<ArticleData>, ids: seq<int>): Found
    requires |feed| == |ids|
  {
    AllLinks(UrlIndex(normalize, feed, ids), normalize, resolve, Outbound(feed, ids))
  }

  lemma TotalGrows(feed: seq<ArticleData>, i: nat)
    requires i < |feed|
    ensures TotalLinks(feed[..i + 1]) == TotalLinks(feed[..i]) + |feed[i].links|
  {
    assert feed[..i + 1][..i] == feed[..i];
  }

  lemma {:induction false} TotalMonotone(feed: seq<ArticleData>, i: nat)
    requires i <= |feed|
    ensures TotalLinks(feed[..i]) <= TotalLinks(feed)
    decreases |feed| - i
  {
    if i == |feed| {
      assert feed[..i] == feed;
    } else {
      TotalGrows(feed, i);
      TotalMonotone(feed, i + 1);
    }
  }

  /** What has been written and staged once the articles of `feed` have been taken in. */
  ghost predicate TakenIn(normalize: string -> string, site: int, run: int, feed: seq<ArticleData>, states: seq<Articles>,
                          ids: seq<int>, rows: Articles, articleIds: set<int>, urlToId: map<string, int>,
                          outbound: seq<(int, seq<OutLink>)>) {
    && Staged(states, site, feed, run, ids) && states[|feed|] == rows
    && articleIds == Members(ids) && urlToId == UrlIndex(normalize, feed, ids) && outbound == Outbound(feed, ids)
  }

  lemma OneMoreStaged(states: seq<Articles>, site: int, feed: seq<ArticleData>, run: int, ids: seq<int>, i: nat, id: int, now: Articles)
    requires i < |feed| && Staged(states, site, feed[..i], run, ids) && Unique(now) && AllOrdinary(now)
    requires Upserted(states[i], site, feed[i], Some(run), id, now)
    ensures Staged(states + [now], site, feed[..i + 1], run, ids + [id])
  {
    var after, more := states + [now], ids + [id];
    var n := i + 1;
    forall k | 0 <= k < n ensures StagedOne(after, site, feed[..n], run, more, k) {
      if k < i { assert StagedOne(states, site, feed[..i], run, ids, k); }
    }
  }

  lemma OneMoreTakenIn(normalize: string -> string, site: int, run: int, feed: seq<ArticleData>, states: seq<Articles>,
                       ids: seq<int>, rows: Articles, articleIds: set<int>, urlToId: map<string, int>,
                       outbound: seq<(int, seq<OutLink>)>, i: nat, id: int, now: Articles)
    requires i < |feed| && Unique(rows) && Unique(now) && AllOrdinary(now)
    requires TakenIn(normalize, site, run, feed[..i], states, ids, rows, articleIds, urlToId, outbound)
    requires Upserted(rows, site, feed[i], Some(run), id, now)
    ensures TakenIn(normalize, site, run, feed[..i + 1], states + [now], ids + [id], now, articleIds + {id},
                    urlToId[normalize(feed[i].url) := id], outbound + [(id, feed[i].links)])
  {
    OneMoreStaged(states, site, feed, run, ids, i, id, now);
    assert feed[..i + 1][..i] == feed[..i] && (ids + [id])[..i] == ids;
  }

  lemma OneMoreWithin(limits: Limits, feed: seq<ArticleData>, i: nat)
    requires i < |feed| && WithinLimits(limits, feed[..i])
    ensures WithinLimits(limits, feed[..i + 1]) <==>
      && i + 1 <= limits.maxArticles && |feed[i].content.text| <= limits.maxChars
      && |feed[i].links| <= limits.maxLinks && TotalLinks(feed[..i]) + |feed[i].links| <= limits.maxTotalLinks
    ensures !WithinLimits(limits, feed[..i + 1]) ==> !WithinLimits(limits, feed)
  {
    TotalGrows(feed, i);
    TotalMonotone(feed, i + 1);
    assert feed[..i + 1][i] == feed[i];
  }

  /** The loop over what the connector yields. */
  method TakeIn(db: Store, snapshot: Snapshot, feed: seq<ArticleData>, limits: Limits)
    returns (ok: bool, ghost states: seq<Articles>, ghost ids: seq<int>)
    requires db.Valid() && forall i :: 0 <= i < |feed| ==> Ordinary(feed[i].url)
    requires snapshot.articleIds == {} && snapshot.urlToId == map[] && snapshot.outbound == []
    requires !snapshot.promoted && !snapshot.linksResolved
    modifies db`rows, db`nextId, snapshot
    ensures db.Valid() && db.nextId >= old(db.nextId) && !snapshot.promoted && !snapshot.linksResolved
    ensures ok <==> WithinLimits(limits, feed)
    ensures ok ==> |states| > 0 && states[0] == old(db.rows)
    ensures ok ==> TakenIn(snapshot.normalize, snapshot.site, snapshot.run, feed, states, ids, db.rows,
                           snapshot.articleIds, snapshot.urlToId, snapshot.outbound)
  {
    states, ids := [db.rows], [];
    var total := 0;
    for i := 0 to |feed|
      invariant db.Valid() && db.nextId >= old(db.nextId) && !snapshot.promoted && !snapshot.linksResolved
      invariant |states| > 0 && states[0] == old(db.rows)
      invariant TakenIn(snapshot.normalize, snapshot.site, snapshot.run, feed[..i], states, ids, db.rows,
                        snapshot.articleIds, snapshot.urlToId, snapshot.outbound)
      invariant total == TotalLinks(feed[..i]) && WithinLimits(limits, feed[..i])
    {
      var art := feed[i];
      OneMoreWithin(limits, feed, i);
      TotalGrows(feed, i);
      total := total + |art.links|;
      if i + 1 > limits.maxArticles || |art.content.text| > limits.maxChars
         || |art.links| > limits.maxLinks || total > limits.maxTotalLinks {
        return false, states, ids;
      }
      ghost var was, urls, out, members := db.rows, snapshot.urlToId, snapshot.outbound, snapshot.articleIds;
      var id := db.UpsertArticle(snapshot.site, art, Some(snapshot.run));
      var _ := snapshot.StageArticle(art, id);
      OneMoreTakenIn(snapshot.normalize, snapshot.site, snapshot.run, feed, states, ids, was, members, urls, out, i, id, db.rows);
      states, ids := states + [db.rows], ids + [id];
    }
    assert feed[..|feed|] == feed;
    ok := true;
  }

  /** `_run_ingestion_locked` for one site, whose lock the caller holds: `feed` is what the
      connector yields before it ends or, when `breaks`, raises. */
  method RunIngestion(db: Store, site: int, run: int, feed: seq<ArticleData>, breaks: bool, limits: Limits,
                      previous: Option<nat>, minRatio: real, normalize: string -> string, resolve: Resolver)
    returns (ok: bool, ghost states: seq<Articles>, ghost ids: seq<int>)
    requires db.Valid() && forall i :: 0 <= i < |feed| ==> Ordinary(feed[i].url)
    modifies db
    ensures db.Valid()
    ensures ok <==> !breaks && WithinLimits(limits, feed) && Complete(|Members(ids)|, previous, minRatio)
    ensures ok ==>
      && Staged(states, site, feed, run, ids) && states[0] == old(db.rows)
      && db.rows == ReconciledArticles(states[|feed|], site, run)
      && db.suggestions == ReconciledSuggestions(old(db.suggestions), states[|feed|], site, run)
      && db.links == ReconciledLinks(Written(old(db.links), LinksFound(normalize, resolve, feed, ids), run),
                                     states[|feed|], site, run)
    ensures !ok ==> db.rows == old(db.rows) && db.links == old(db.links) && db.suggestions == old(db.suggestions)
  {
    var articles, links, suggestions := db.rows, db.links, db.suggestions;
    var snapshot := new Snapshot(site, run, normalize);
    ok, states, ids := TakeIn(db, snapshot, feed, limits);
    if ok && !breaks {
      ok := snapshot.ValidateCompleteness(previous, minRatio);
      if ok {
        var _ := snapshot.ResolveLinks(db, resolve);
        ok := snapshot.Promote(db);
      }
    } else {
      ok := false;
    }
    if !ok {
      db.Rollback(articles, links, suggestions);
    }
  }
}
