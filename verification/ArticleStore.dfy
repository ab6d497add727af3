/** Writing one article: `_upsert_article`, flush by flush. */
module ArticleStore {
  import opened Prelude
  import opened CrawlTables
  import Json = CanonicalJson

  class Store {
    var rows: Articles
    var links: Links
    var suggestions: Suggestions
    var nextId: int

    ghost predicate Valid() reads this {
      Unique(rows) && AllOrdinary(rows) && nextId > 0 && forall p :: p in rows ==> 0 < p < nextId
    }

    constructor ()
      ensures Valid() && rows == map[]
    {
      rows, links, suggestions, nextId := map[], map[], map[], 1;
    }

    /** The database accepts what has been written, because both unique constraints hold. */
    method Flush()
      requires Unique(rows)
    {
    }

    method SetUrl(p: int, url: string)
      requires p in rows
      modifies this`rows
      ensures rows == old(rows)[p := old(rows)[p].(url := url)]
    {
      rows := rows[p := rows[p].(url := url)];
    }

    /** The article's row takes its URL from the row that holds it, which gets the old one.
        The database sees the displaced URL parked before anybody else has it. */
    method SwapUrls(site: int, art: ArticleData, id: int, displaced: int)
      requires Valid() && Ordinary(art.url) && id != displaced
      requires HasExternal(rows, site, art.externalId, id) && HasUrl(rows, site, art.url, displaced)
      modifies this`rows
      ensures rows == old(rows)[id := old(rows)[id].(url := art.url)]
                               [displaced := old(rows)[displaced].(url := old(rows)[id].url)]
    {
      var previous := rows[id].url;
      ParkKeepsUnique(rows, displaced, SwapUrl(site, displaced));
      SetUrl(displaced, SwapUrl(site, displaced));
      Flush();
      TakeKeepsUnique(old(rows), rows, id, displaced);
      SetUrl(id, art.url);
      Flush();
      SetUrl(displaced, previous);
    }

    /** `_upsert_article`; the caller holds the site's upsert lock. */
    method UpsertArticle(site: int, art: ArticleData, run: Option<int>) returns (id: int)
      requires Valid() && Ordinary(art.url)
      modifies this`rows, this`nextId
      ensures Valid() && nextId >= old(nextId) && Upserted(old(rows), site, art, run, id, rows)
    {
      var byUrl, byExternal := ByUrl(rows, site, art.url), ByExternal(rows, site, art.externalId);
      if byExternal.None? && byUrl.None? {
        id := nextId;
        nextId := nextId + 1;
        rows := rows[id := Row(site, art.url, None, NO_CONTENT, run.None?, None)];
      } else {
        id := if byExternal.Some? then byExternal.value else byUrl.value;
        if byExternal.Some? && byUrl.Some? && byExternal != byUrl {
          SwapUrls(site, art, id, byUrl.value);
        }
      }
      rows := rows[id := Filled(rows[id], art, run)];
      UpsertKeepsUnique(old(rows), site, art, run, id, rows);
      Flush();
    }

    /** Rolling the transaction back; ids already drawn stay drawn. */
    method Rollback(articles: Articles, links0: Links, suggestions0: Suggestions)
      requires Valid() && Unique(articles) && AllOrdinary(articles) && forall p :: p in articles ==> 0 < p < nextId
      modifies this`rows, this`links, this`suggestions
      ensures Valid() && rows == articles && links == links0 && suggestions == suggestions0
    {
      rows, links, suggestions := articles, links0, suggestions0;
    }

    /** `_upsert_link` */
    method UpsertLink(source: int, target: int, run: int, anchor: Option<string>)
      modifies this`links
      ensures links == old(links)[(source, target) := Link(anchor, true, Some(run))]
    {
      links := links[(source, target) := Link(anchor, true, Some(run))];
    }

    /** `_reconcile_snapshot`, statement by statement. */
    method Reconcile(site: int, run: int)
      requires Valid()
      modifies this`rows, this`suggestions, this`links
      ensures Valid() && rows == ReconciledArticles(old(rows), site, run)
      ensures suggestions == ReconciledSuggestions(old(suggestions), old(rows), site, run)
      ensures links == ReconciledLinks(old(links), old(rows), site, run)
    {
      rows := Activated(rows, site, run);
      rows := Deactivated(rows, site, run);
      TwoUpdatesReconcile(old(rows), site, run);
      var gone := set p | p in rows && Retired(rows, site, run, p);
      suggestions := map s | s in suggestions ::
        if (suggestions[s].state == Pending || suggestions[s].state == Selected) && Touches(suggestions[s], gone)
        then suggestions[s].(state := Expired) else suggestions[s];
      links := LinksRetired(links, rows, site, run);
      RetiredLinks(links, old(links), old(rows), site, run);
    }
  }

  function Activated(rows: Articles, site: int, run: int): Articles {
    map p | p in rows ::
      if rows[p].site == site && rows[p].lastRun == Some(run) && !rows[p].active then rows[p].(active := true) else rows[p]
  }

  function Deactivated(rows: Articles, site: int, run: int): Articles {
    map p | p in rows ::
      if rows[p].site == site && rows[p].lastRun != Some(run) && rows[p].active then rows[p].(active := false) else rows[p]
  }

  function LinksRetired(links: Links, rows: Articles, site: int, run: int): Links {
    map l | l in links ::
      if OfSite(rows, site, l.0) && links[l].lastRun != Some(run) && links[l].active
      then links[l].(active := false) else links[l]
  }

  lemma TwoUpdatesReconcile(rows: Articles, site: int, run: int)
    requires Unique(rows) && AllOrdinary(rows)
    ensures var now := Deactivated(Activated(rows, site, run), site, run);
      && now == ReconciledArticles(rows, site, run) && Unique(now) && AllOrdinary(now)
      && (set p | p in now && Retired(now, site, run, p)) == (set p | p in rows && Retired(rows, site, run, p))
  {
    var now, want := Deactivated(Activated(rows, site, run), site, run), ReconciledArticles(rows, site, run);
    assert now.Keys == want.Keys;
    forall p | p in rows ensures now[p] == want[p] {}
    ReconcileKeepsUnique(rows, site, run);
    SameRetired(rows, site, run);
  }

  lemma RetiredLinks(now: Links, links: Links, rows: Articles, site: int, run: int)
    requires now == LinksRetired(links, ReconciledArticles(rows, site, run), site, run)
    ensures now == ReconciledLinks(links, rows, site, run)
  {
    SameRetired(rows, site, run);
  }

  lemma SameRetired(rows: Articles, site: int, run: int)
    ensures var now := ReconciledArticles(rows, site, run);
      && (set p | p in now && Retired(now, site, run, p)) == (set p | p in rows && Retired(rows, site, run, p))
      && forall p :: OfSite(now, site, p) <==> OfSite(rows, site, p)
  {
    var now := ReconciledArticles(rows, site, run);
    assert forall p :: Retired(now, site, run, p) <==> Retired(rows, site, run, p);
  }

  lemma ReconcileKeepsUnique(rows: Articles, site: int, run: int)
    requires Unique(rows) && AllOrdinary(rows)
    ensures Unique(ReconciledArticles(rows, site, run)) && AllOrdinary(ReconciledArticles(rows, site, run))
  {
    var now := ReconciledArticles(rows, site, run);
    forall p, q | p in now && q in now && p != q ensures !SameUrl(now, p, q) && !SameExternal(now, p, q) {
      assert !SameUrl(rows, p, q) && !SameExternal(rows, p, q);
    }
  }

  function SwapUrl(site: int, id: int): (r: string)
    ensures !Ordinary(r)
  {
    SWAP + Json.IntText(site) + "/" + Json.IntText(id)
  }

  lemma ParkKeepsUnique(rows: Articles, p: int, url: string)
    requires Unique(rows) && AllOrdinary(rows) && p in rows && !Ordinary(url)
    ensures Unique(rows[p := rows[p].(url := url)])
  {
    var now := rows[p := rows[p].(url := url)];
    forall q, r | q in now && r in now && q != r ensures !SameUrl(now, q, r) && !SameExternal(now, q, r) {
      assert !SameUrl(rows, q, r) && !SameExternal(rows, q, r);
    }
  }

  lemma TakeKeepsUnique(was: Articles, rows: Articles, id: int, displaced: int)
    requires Unique(was) && AllOrdinary(was) && id in was && displaced in was && id != displaced
    requires was[id].site == was[displaced].site
    requires rows.Keys == was.Keys && Unique(rows) && !Ordinary(rows[displaced].url)
    requires forall p :: p in was && p != displaced ==> rows[p] == was[p]
    ensures Unique(rows[id := rows[id].(url := was[displaced].url)])
  {
    var now := rows[id := rows[id].(url := was[displaced].url)];
    forall q, r | q in now && r in now && q != r ensures !SameUrl(now, q, r) && !SameExternal(now, q, r) {
      assert !SameUrl(rows, q, r) && !SameExternal(rows, q, r);
      if q == id && r != displaced { assert !SameUrl(was, displaced, r); }
      if r == id && q != displaced { assert !SameUrl(was, q, displaced); }
    }
  }
}
