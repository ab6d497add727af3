/** The tables a crawl writes, and what identifies an article across crawls. */
module CrawlTables {
  import opened Prelude

  datatype Content = Content(
    title: string, text: string, html: Option<string>, language: Option<string>, published: Option<string>)

  /** One article as a connector delivers it. */
  datatype ArticleData = ArticleData(url: string, externalId: Option<string>, content: Content, links: seq<OutLink>)

  datatype OutLink = OutLink(url: string, anchor: Option<string>)

  datatype Row = Row(
    site: int, url: string, externalId: Option<string>, content: Content, active: bool, lastRun: Option<int>)

  const NO_CONTENT := Content("", "", None, None, None)

  type Articles = map<int, Row>

  const SWAP := "linkmesh://url-swap/"

  /** No crawled article uses the scheme that parks a URL during a swap. */
  predicate Ordinary(url: string) { !(SWAP <= url) }

  predicate SameUrl(rows: Articles, p: int, q: int)
    requires p in rows && q in rows
  {
    rows[p].site == rows[q].site && rows[p].url == rows[q].url
  }

  predicate SameExternal(rows: Articles, p: int, q: int)
    requires p in rows && q in rows
  {
    rows[p].site == rows[q].site && rows[p].externalId.Some? && rows[p].externalId == rows[q].externalId
  }

  /** The table's two unique constraints. */
  ghost predicate Unique(rows: Articles) {
    && (forall p, q :: p in rows && q in rows && p != q ==> !SameUrl(rows, p, q))
    && (forall p, q :: p in rows && q in rows && p != q ==> !SameExternal(rows, p, q))
  }

  ghost predicate AllOrdinary(rows: Articles) { forall p :: p in rows ==> Ordinary(rows[p].url) }

  predicate HasUrl(rows: Articles, site: int, url: string, p: int) {
    p in rows && rows[p].site == site && rows[p].url == url
  }

  predicate HasExternal(rows: Articles, site: int, externalId: Option<string>, p: int) {
    p in rows && rows[p].site == site && externalId.Some? && rows[p].externalId == externalId
  }

  function ByUrl(rows: Articles, site: int, url: string): (r: Option<int>)
    requires Unique(rows)
    ensures r.Some? ==> HasUrl(rows, site, url, r.value)
    ensures forall p :: HasUrl(rows, site, url, p) ==> r == Some(p)
  {
    if exists p :: p in rows && HasUrl(rows, site, url, p) then
      assert forall p, q :: HasUrl(rows, site, url, p) && HasUrl(rows, site, url, q) && p != q ==> SameUrl(rows, p, q);
      var p :| p in rows && HasUrl(rows, site, url, p);
      Some(p)
    else None
  }

  function ByExternal(rows: Articles, site: int, externalId: Option<string>): (r: Option<int>)
    requires Unique(rows)
    ensures r.Some? ==> HasExternal(rows, site, externalId, r.value)
    ensures forall p :: HasExternal(rows, site, externalId, p) ==> r == Some(p)
  {
    if exists p :: p in rows && HasExternal(rows, site, externalId, p) then
      assert forall p, q :: HasExternal(rows, site, externalId, p) && HasExternal(rows, site, externalId, q) && p != q ==>
        SameExternal(rows, p, q);
      var p :| p in rows && HasExternal(rows, site, externalId, p);
      Some(p)
    else None
  }

  /** The row an article belongs to: the one with its external id, else the one with its URL. */
  function Match(rows: Articles, site: int, art: ArticleData): Option<int>
    requires Unique(rows)
  {
    var byExternal := ByExternal(rows, site, art.externalId);
    if byExternal.Some? then byExternal else ByUrl(rows, site, art.url)
  }

  /** The row that holds the article's URL although the article is another row. */
  function Displaced(rows: Articles, site: int, art: ArticleData): Option<int>
    requires Unique(rows)
  {
    var byExternal, byUrl := ByExternal(rows, site, art.externalId), ByUrl(rows, site, art.url);
    if byExternal.Some? && byUrl.Some? && byExternal != byUrl then byUrl else None
  }

  function Filled(row: Row, art: ArticleData, run: Option<int>): Row {
    row.(url := art.url, content := art.content,
         externalId := if art.externalId.Some? then art.externalId else row.externalId,
         lastRun := if run.Some? then run else row.lastRun)
  }

  /** What upserting an article into row `id` leaves: that row carries the article, a row the
      URL was taken from gets the old URL in exchange, and nothing else changes. */
  ghost predicate Upserted(rows: Articles, site: int, art: ArticleData, run: Option<int>, id: int, now: Articles)
    requires Unique(rows)
  {
    && now.Keys == rows.Keys + {id}
    && (match Match(rows, site, art)
        case Some(p) => id == p && now[id] == Filled(rows[p], art, run)
        case None => id !in rows && now[id] == Filled(Row(site, art.url, None, NO_CONTENT, run.None?, None), art, run))
    && (forall p :: p in rows && p != id ==>
          now[p] == if Displaced(rows, site, art) == Some(p) then rows[p].(url := rows[id].url) else rows[p])
  }

  /** Which row an article goes to: the one with its external id wherever its URL was before, else
      the one at its URL, else a new one; that row takes the article's data and keeps an id the
      article does not name. */
  lemma UpsertIdentity(rows: Articles, site: int, art: ArticleData, run: Option<int>, id: int, now: Articles, p: int)
    requires Unique(rows) && Upserted(rows, site, art, run, id, now)
    ensures HasExternal(rows, site, art.externalId, p) ==> id == p
    ensures (forall q :: !HasExternal(rows, site, art.externalId, q)) && HasUrl(rows, site, art.url, p) ==> id == p
    ensures id in rows ==> HasExternal(rows, site, art.externalId, id) || HasUrl(rows, site, art.url, id)
    ensures id in now && now[id].url == art.url && now[id].content == art.content && now[id].site == site
    ensures now[id].externalId == if art.externalId.Some? then art.externalId else if id in rows then rows[id].externalId else None
    ensures now[id].active == if id in rows then rows[id].active else run.None?
    ensures now[id].lastRun == if run.Some? then run else if id in rows then rows[id].lastRun else None
    ensures p in rows && p != id ==> p in now && now[p].content == rows[p].content && now[p].externalId == rows[p].externalId
    ensures p in rows && p != id && id in rows && HasUrl(rows, site, art.url, p) ==> now[p].url == rows[id].url
    ensures p in rows && p != id && !HasUrl(rows, site, art.url, p) ==> now[p] == rows[p]
  {
    FoundIfThere(rows, site, art, p);
  }

  lemma UpsertedRow(rows: Articles, site: int, art: ArticleData, run: Option<int>, id: int, now: Articles)
    requires Unique(rows) && Upserted(rows, site, art, run, id, now)
    ensures id in now && now[id].site == site && now[id].url == art.url && now[id].content == art.content
    ensures run.Some? ==> now[id].lastRun == run
    ensures art.externalId.Some? ==> now[id].externalId == art.externalId
  {
  }

  lemma UpsertedOther(rows: Articles, site: int, art: ArticleData, run: Option<int>, id: int, now: Articles, p: int)
    requires Unique(rows) && Upserted(rows, site, art, run, id, now) && p in rows && p != id
    ensures p in now && now[p].site == rows[p].site && now[p].lastRun == rows[p].lastRun
  {
  }

  lemma FoundIfThere(rows: Articles, site: int, art: ArticleData, p: int)
    requires Unique(rows)
    ensures HasUrl(rows, site, art.url, p) ==> ByUrl(rows, site, art.url) == Some(p)
    ensures HasExternal(rows, site, art.externalId, p) ==> ByExternal(rows, site, art.externalId) == Some(p)
  {
  }

  /** After an upsert no other row of the site has the article's URL or external id. */
  lemma UpsertedAlone(rows: Articles, site: int, art: ArticleData, run: Option<int>, id: int, now: Articles, p: int)
    requires Unique(rows) && AllOrdinary(rows) && Upserted(rows, site, art, run, id, now) && p in now && p != id
    ensures !SameUrl(now, p, id) && !SameExternal(now, p, id)
  {
    UpsertedRow(rows, site, art, run, id, now);
    if id in rows {
      assert !SameUrl(rows, p, id) && !SameExternal(rows, p, id);
    }
    FoundIfThere(rows, site, art, p);
  }

  lemma ApartFrom(rows: Articles, p: int, q: int, id: int)
    requires Unique(rows) && p in rows && q in rows && id in rows && p != id && q != id
    ensures !SameUrl(rows, p, id) && !SameUrl(rows, q, id)
  {
  }

  /** And the others stay apart from each other. */
  lemma OthersApart(rows: Articles, site: int, art: ArticleData, run: Option<int>, id: int, now: Articles, p: int, q: int)
    requires Unique(rows) && Upserted(rows, site, art, run, id, now)
    requires p in now && q in now && p != q && p != id && q != id
    ensures !SameUrl(now, p, q) && !SameExternal(now, p, q)
  {
    assert !SameUrl(rows, p, q) && !SameExternal(rows, p, q);
    if id in rows { ApartFrom(rows, p, q, id); }
  }

  lemma UpsertKeepsUnique(rows: Articles, site: int, art: ArticleData, run: Option<int>, id: int, now: Articles)
    requires Unique(rows) && AllOrdinary(rows) && Ordinary(art.url) && Upserted(rows, site, art, run, id, now)
    ensures Unique(now) && AllOrdinary(now)
  {
    forall p, q | p in now && q in now && p != q ensures !SameUrl(now, p, q) && !SameExternal(now, p, q) {
      if p == id {
        UpsertedAlone(rows, site, art, run, id, now, q);
      } else if q == id {
        UpsertedAlone(rows, site, art, run, id, now, p);
      } else {
        OthersApart(rows, site, art, run, id, now, p, q);
      }
    }
  }

  // ---- A whole crawl --------------------------------------------------------

  /** The table before, between and after the upserts of one run, and the rows they chose. */
  ghost predicate Staged(states: seq<Articles>, site: int, arts: seq<ArticleData>, run: int, ids: seq<int>) {
    && |states| == |arts| + 1 && |ids| == |arts|
    && (forall i :: 0 <= i < |states| ==> Unique(states[i]) && AllOrdinary(states[i]))
    && (forall i :: 0 <= i < |arts| ==> StagedOne(states, site, arts, run, ids, i))
  }

  ghost predicate StagedOne(states: seq<Articles>, site: int, arts: seq<ArticleData>, run: int, ids: seq<int>, i: int) {
    && 0 <= i < |arts| && i + 1 < |states| && i < |ids| && Unique(states[i])
    && Upserted(states[i], site, arts[i], Some(run), ids[i], states[i + 1])
  }

  predicate Clash(x: ArticleData, y: ArticleData) {
    x.url == y.url || (x.externalId.Some? && x.externalId == y.externalId)
  }

  predicate Distinguished(arts: seq<ArticleData>) {
    forall i, j :: 0 <= i < j < |arts| ==> !Clash(arts[i], arts[j])
  }

  /** Article `j` carries the external id of the row that article `i`, which has none itself,
      was put in. */
  predicate Borrows(states: seq<Articles>, arts: seq<ArticleData>, ids: seq<int>, i: int, j: int) {
    && 0 <= i < j < |arts| && i < |ids| && i + 1 < |states|
    && arts[i].externalId.None? && arts[j].externalId.Some?
    && HasExternalId(states[i + 1], ids[i], arts[j].externalId)
  }

  predicate HasExternalId(rows: Articles, p: int, externalId: Option<string>) {
    p in rows && rows[p].externalId == externalId
  }

  /** An upsert that is not about this row leaves it as it was. */
  lemma UpsertSpares(rows: Articles, site: int, art: ArticleData, run: Option<int>, id: int, now: Articles, p: int)
    requires Unique(rows) && Upserted(rows, site, art, run, id, now) && p in rows
    requires rows[p].site == site ==> rows[p].url != art.url && (art.externalId.Some? ==> rows[p].externalId != art.externalId)
    ensures p in now && now[p] == rows[p] && id != p
  {
  }

  /** The row of an earlier article is the same after each later upsert, unless some article
      borrowed it. */
  lemma {:induction false} RowKept(states: seq<Articles>, site: int, arts: seq<ArticleData>, run: int, ids: seq<int>, i: nat, j: nat)
    requires Staged(states, site, arts, run, ids) && Distinguished(arts) && i < j <= |arts|
    requires forall k :: i < k < j ==> !Borrows(states, arts, ids, i, k)
    ensures ids[i] in states[j] && ids[i] in states[i + 1] && states[j][ids[i]] == states[i + 1][ids[i]]
    ensures forall k :: i < k < j ==> ids[k] != ids[i]
    decreases j - i
  {
    assert StagedOne(states, site, arts, run, ids, i);
    if j > i + 1 {
      var k := j - 1;
      RowKept(states, site, arts, run, ids, i, k);
      assert StagedOne(states, site, arts, run, ids, k) && !Clash(arts[i], arts[k]) && !Borrows(states, arts, ids, i, k);
      UpsertSpares(states[k], site, arts[k], Some(run), ids[k], states[j], ids[i]);
    }
  }

  lemma RowsApart(states: seq<Articles>, site: int, arts: seq<ArticleData>, run: int, ids: seq<int>)
    requires Staged(states, site, arts, run, ids) && Distinguished(arts)
    ensures Distinct(ids) <==> forall i, j :: 0 <= i < j < |arts| ==> !Borrows(states, arts, ids, i, j)
  {
    if forall i, j :: 0 <= i < j < |arts| ==> !Borrows(states, arts, ids, i, j) {
      forall i, j | 0 <= i < j < |ids| ensures ids[i] != ids[j] { RowKept(states, site, arts, run, ids, i, |arts|); }
    } else {
      var i, j :| 0 <= i < j < |arts| && Borrows(states, arts, ids, i, j);
      BorrowedTwice(states, site, arts, run, ids, i, j);
    }
  }

  lemma {:induction false} BorrowedTwice(states: seq<Articles>, site: int, arts: seq<ArticleData>, run: int, ids: seq<int>, i: nat, j: nat)
    requires Staged(states, site, arts, run, ids) && Distinguished(arts) && Borrows(states, arts, ids, i, j)
    ensures exists k :: i < k <= j && ids[k] == ids[i]
    decreases j
  {
    if k :| i < k < j && Borrows(states, arts, ids, i, k) {
      BorrowedTwice(states, site, arts, run, ids, i, k);
    } else {
      RowKept(states, site, arts, run, ids, i, j);
      assert StagedOne(states, site, arts, run, ids, i) && StagedOne(states, site, arts, run, ids, j);
      FoundIfThere(states[j], site, arts[j], ids[i]);
      assert HasExternal(states[j], site, arts[j].externalId, ids[i]);
    }
  }

  // ---- What a crawl needs to know of the table ------------------------------

  /** The URLs of one site's rows, each with the external id its row has. */
  type Known = map<string, Option<string>>

  function KnownUrls(rows: Articles, site: int): (r: Known)
    requires Unique(rows)
    ensures forall p :: p in rows && rows[p].site == site ==> rows[p].url in r && r[rows[p].url] == rows[p].externalId
    ensures forall u :: u in r ==> exists p :: HasUrl(rows, site, u, p)
  {
    assert forall p, q :: p in rows && q in rows && p != q ==> !SameUrl(rows, p, q);
    var urls := set p | p in rows && rows[p].site == site :: rows[p].url;
    map u | u in urls :: ExternalAt(rows, site, u)
  }

  function ExternalAt(rows: Articles, site: int, url: string): Option<string>
    requires Unique(rows)
  {
    var p := ByUrl(rows, site, url);
    if p.Some? then rows[p.value].externalId else None
  }

  predicate Carries(known: Known, url: string, externalId: Option<string>) {
    url in known && externalId.Some? && known[url] == externalId
  }

  /** An article's upsert, as far as URLs and external ids go: by external id the row moves to
      the new URL, and a row it displaces takes the old one; by URL the row takes the id. */
  ghost function Learned(known: Known, art: ArticleData): Known {
    if exists u :: Carries(known, u, art.externalId) then
      var u :| Carries(known, u, art.externalId);
      if u == art.url then known
      else if art.url in known then known[u := known[art.url]][art.url := art.externalId]
      else (known - {u})[art.url := art.externalId]
    else if art.url in known && art.externalId.None? then known
    else known[art.url := art.externalId]
  }

  ghost function Replayed(known: Known, arts: seq<ArticleData>): Known
    decreases |arts|
  {
    if arts == [] then known else Learned(Replayed(known, arts[..|arts| - 1]), arts[|arts| - 1])
  }

  /** Replaying the crawl, article `i`, without an external id, finds its URL on the row that
      article `j` will claim by its external id. */
  ghost predicate Lends(known: Known, arts: seq<ArticleData>, i: int, j: int) {
    && 0 <= i < j < |arts| && arts[i].externalId.None?
    && Carries(Replayed(known, arts[..i + 1]), arts[i].url, arts[j].externalId)
  }

  ghost predicate NobodyLends(known: Known, arts: seq<ArticleData>) {
    forall i, j :: 0 <= i < j < |arts| ==> !Lends(known, arts, i, j)
  }

  /** Every connector gives all of its articles external ids, or none of them. */
  predicate Uniform(arts: seq<ArticleData>) {
    (forall i :: 0 <= i < |arts| ==> arts[i].externalId.Some?) || (forall i :: 0 <= i < |arts| ==> arts[i].externalId.None?)
  }

  lemma KnownAt(rows: Articles, site: int, u: string)
    requires Unique(rows)
    ensures u in KnownUrls(rows, site) <==> ByUrl(rows, site, u).Some?
    ensures u in KnownUrls(rows, site) ==> KnownUrls(rows, site)[u] == rows[ByUrl(rows, site, u).value].externalId
  {
  }

  lemma CarriedBy(rows: Articles, site: int, u: string, externalId: Option<string>)
    requires Unique(rows) && Carries(KnownUrls(rows, site), u, externalId)
    ensures var p := ByExternal(rows, site, externalId); p.Some? && rows[p.value].url == u
  {
    KnownAt(rows, site, u);
    assert HasExternal(rows, site, externalId, ByUrl(rows, site, u).value);
  }

  lemma CarriesIff(rows: Articles, site: int, externalId: Option<string>)
    requires Unique(rows)
    ensures (exists u :: Carries(KnownUrls(rows, site), u, externalId)) <==> ByExternal(rows, site, externalId).Some?
  {
    var p := ByExternal(rows, site, externalId);
    if p.Some? { assert Carries(KnownUrls(rows, site), rows[p.value].url, externalId); }
    if u :| Carries(KnownUrls(rows, site), u, externalId) { CarriedBy(rows, site, u, externalId); }
  }

  lemma KnownIs(rows: Articles, site: int, known: Known)
    requires Unique(rows)
    requires forall p :: p in rows && rows[p].site == site ==> rows[p].url in known && known[rows[p].url] == rows[p].externalId
    requires forall u :: u in known ==> exists p :: HasUrl(rows, site, u, p)
    ensures KnownUrls(rows, site) == known
  {
    var k := KnownUrls(rows, site);
    forall u ensures u in k <==> u in known {
      if u in k { var p :| HasUrl(rows, site, u, p); }
      if u in known { var p :| HasUrl(rows, site, u, p); }
    }
    forall u | u in k ensures k[u] == known[u] { var p :| HasUrl(rows, site, u, p); }
  }

  /** No other row of the site shares the URL of this one. */
  lemma UrlApart(rows: Articles, p: int, q: int)
    requires Unique(rows) && p in rows && q in rows && p != q && rows[p].site == rows[q].site
    ensures rows[p].url != rows[q].url
  {
    assert !SameUrl(rows, p, q);
  }

  /** The row found by its external id, moved to the article's URL. */
  lemma LearnedByExternal(rows: Articles, site: int, art: ArticleData, run: Option<int>, id: int, now: Articles)
    requires Unique(rows) && Unique(now) && Upserted(rows, site, art, run, id, now)
    requires ByExternal(rows, site, art.externalId) == Some(id)
    ensures KnownUrls(now, site) == Learned(KnownUrls(rows, site), art)
  {
    var known := KnownUrls(rows, site);
    var was := rows[id].url;
    CarriesIff(rows, site, art.externalId);
    var u :| Carries(known, u, art.externalId);
    forall v | Carries(known, v, art.externalId) ensures v == was { CarriedBy(rows, site, v, art.externalId); }
    assert u == was;
    KnownAt(rows, site, art.url);
    var learned := Learned(known, art);
    forall p | p in now && now[p].site == site ensures now[p].url in learned && learned[now[p].url] == now[p].externalId {
      if p != id && id in rows && rows[p].site == site { UrlApart(rows, p, id); }
    }
    forall v | v in learned ensures exists p :: HasUrl(now, site, v, p) {
      if v == art.url {
        assert HasUrl(now, site, v, id);
      } else if v == was {
        assert HasUrl(now, site, v, ByUrl(rows, site, art.url).value);
      } else {
        var p :| HasUrl(rows, site, v, p);
        assert HasUrl(now, site, v, p);
      }
    }
    KnownIs(now, site, learned);
  }

  /** The row found by its URL, or a new one. */
  lemma LearnedByUrl(rows: Articles, site: int, art: ArticleData, run: Option<int>, id: int, now: Articles)
    requires Unique(rows) && Unique(now) && Upserted(rows, site, art, run, id, now)
    requires ByExternal(rows, site, art.externalId).None?
    ensures KnownUrls(now, site) == Learned(KnownUrls(rows, site), art)
  {
    var known := KnownUrls(rows, site);
    CarriesIff(rows, site, art.externalId);
    KnownAt(rows, site, art.url);
    var learned := Learned(known, art);
    forall p | p in now && now[p].site == site ensures now[p].url in learned && learned[now[p].url] == now[p].externalId {
      if p != id && id in rows && rows[p].site == site { UrlApart(rows, p, id); }
    }
    forall v | v in learned ensures exists p :: HasUrl(now, site, v, p) {
      if v == art.url {
        assert HasUrl(now, site, v, id);
      } else {
        var p :| HasUrl(rows, site, v, p);
        assert HasUrl(now, site, v, p);
      }
    }
    KnownIs(now, site, learned);
  }

  lemma LearnedIs(rows: Articles, site: int, art: ArticleData, run: Option<int>, id: int, now: Articles)
    requires Unique(rows) && Unique(now) && Upserted(rows, site, art, run, id, now)
    ensures KnownUrls(now, site) == Learned(KnownUrls(rows, site), art)
  {
    if ByExternal(rows, site, art.externalId).Some? {
      LearnedByExternal(rows, site, art, run, id, now);
    } else {
      LearnedByUrl(rows, site, art, run, id, now);
    }
  }

  /** Replaying the feed on the URLs alone follows the run, whatever ids the database draws. */
  lemma {:induction false} ReplayedIs(states: seq<Articles>, site: int, arts: seq<ArticleData>, run: int, ids: seq<int>, k: nat)
    requires Staged(states, site, arts, run, ids) && k <= |arts|
    ensures KnownUrls(states[k], site) == Replayed(KnownUrls(states[0], site), arts[..k])
    decreases k
  {
    if k > 0 {
      ReplayedIs(states, site, arts, run, ids, k - 1);
      assert StagedOne(states, site, arts, run, ids, k - 1);
      LearnedIs(states[k - 1], site, arts[k - 1], Some(run), ids[k - 1], states[k]);
      assert arts[..k][..k - 1] == arts[..k - 1];
    } else {
      assert arts[..0] == [];
    }
  }

  lemma LendsExactly(states: seq<Articles>, site: int, arts: seq<ArticleData>, run: int, ids: seq<int>, i: nat, j: nat)
    requires Staged(states, site, arts, run, ids) && i < j < |arts|
    ensures Borrows(states, arts, ids, i, j) <==> Lends(KnownUrls(states[0], site), arts, i, j)
  {
    assert StagedOne(states, site, arts, run, ids, i);
    UpsertedRow(states[i], site, arts[i], Some(run), ids[i], states[i + 1]);
    ReplayedIs(states, site, arts, run, ids, i + 1);
    KnownAt(states[i + 1], site, arts[i].url);
    FoundIfThere(states[i + 1], site, arts[i], ids[i]);
  }

  /** Exactly when a crawl of distinct articles puts them in distinct rows, told from the
      table before it and the feed. */
  lemma RowsDistinct(states: seq<Articles>, site: int, arts: seq<ArticleData>, run: int, ids: seq<int>)
    requires Staged(states, site, arts, run, ids) && Distinguished(arts)
    ensures Distinct(ids) <==> NobodyLends(KnownUrls(states[0], site), arts)
  {
    RowsApart(states, site, arts, run, ids);
    forall i, j | 0 <= i < j < |arts|
      ensures Borrows(states, arts, ids, i, j) <==> Lends(KnownUrls(states[0], site), arts, i, j)
    {
      LendsExactly(states, site, arts, run, ids, i, j);
    }
  }

  /** What a connector delivers always meets it, from any table. */
  lemma UniformLendsNothing(known: Known, arts: seq<ArticleData>)
    requires Uniform(arts)
    ensures NobodyLends(known, arts)
  {
  }

  /** A row no article of the run was put in keeps its run mark, and a row of another site
      keeps everything. */
  lemma {:induction false} UntouchedRow(states: seq<Articles>, site: int, arts: seq<ArticleData>, run: int, ids: seq<int>, j: nat, p: int)
    requires Staged(states, site, arts, run, ids) && j <= |arts| && p in states[j]
    requires forall k :: 0 <= k < j ==> ids[k] != p
    ensures p in states[0] && states[j][p].lastRun == states[0][p].lastRun && states[j][p].site == states[0][p].site
    ensures states[0][p].site != site ==> states[j][p] == states[0][p]
    ensures states[j][p].active == states[0][p].active
    ensures states[j][p].content == states[0][p].content && states[j][p].externalId == states[0][p].externalId
    decreases j
  {
    if j > 0 {
      assert StagedOne(states, site, arts, run, ids, j - 1);
      UntouchedRow(states, site, arts, run, ids, j - 1, p);
    }
  }

  // ---- Links and suggestions ------------------------------------------------

  datatype Link = Link(anchor: Option<string>, active: bool, lastRun: Option<int>)

  type Links = map<(int, int), Link>

  datatype SuggestionState = Pending | Selected | Rejected | Expired | Linked | Quarantined

  datatype Suggested = Suggested(source: int, target: Option<int>, state: SuggestionState)

  type Suggestions = map<int, Suggested>

  predicate OfSite(rows: Articles, site: int, p: int) { p in rows && rows[p].site == site }

  predicate Retired(rows: Articles, site: int, run: int, p: int) {
    OfSite(rows, site, p) && rows[p].lastRun != Some(run)
  }

  /** The site's articles are active exactly when this run saw them. */
  function ReconciledArticles(rows: Articles, site: int, run: int): Articles {
    map p | p in rows ::
      if rows[p].site == site then rows[p].(active := rows[p].lastRun == Some(run)) else rows[p]
  }

  predicate Touches(s: Suggested, gone: set<int>) {
    s.source in gone || (s.target.Some? && s.target.value in gone)
  }

  function ReconciledSuggestions(suggestions: Suggestions, rows: Articles, site: int, run: int): Suggestions {
    var gone := set p | p in rows && Retired(rows, site, run, p);
    map s | s in suggestions ::
      if (suggestions[s].state == Pending || suggestions[s].state == Selected) && Touches(suggestions[s], gone)
      then suggestions[s].(state := Expired) else suggestions[s]
  }

  function ReconciledLinks(links: Links, rows: Articles, site: int, run: int): Links {
    map l | l in links ::
      if OfSite(rows, site, l.0) && links[l].lastRun != Some(run) then links[l].(active := false) else links[l]
  }

  // ---- Resolving outbound links ---------------------------------------------

  type Resolver = Option<string -> string>

  /** The crawled article a link leads to, directly or after the site resolves the URL. */
  function Target(urlToId: map<string, int>, normalize: string -> string, resolve: Resolver, url: string): Option<int> {
    if normalize(url) in urlToId then Some(urlToId[normalize(url)])
    else if resolve.Some? && resolve.value(url) != "" && normalize(resolve.value(url)) in urlToId
    then Some(urlToId[normalize(resolve.value(url))])
    else None
  }

  /** The links found so far, each with the anchor it was first seen with. */
  type Found = map<(int, int), Option<string>>

  function AddLink(found: Found, source: int, target: Option<int>, anchor: Option<string>): Found {
    if target.Some? && target.value != source && (source, target.value) !in found
    then found[(source, target.value) := anchor] else found
  }

  function AddLinks(urlToId: map<string, int>, normalize: string -> string, resolve: Resolver, found: Found, source: int,
                    links: seq<OutLink>): Found
    decreases |links|
  {
    if links == [] then found else
      var last := links[|links| - 1];
      AddLink(AddLinks(urlToId, normalize, resolve, found, source, links[..|links| - 1]),
              source, Target(urlToId, normalize, resolve, last.url), last.anchor)
  }

  function AllLinks(urlToId: map<string, int>, normalize: string -> string, resolve: Resolver,
                    outbound: seq<(int, seq<OutLink>)>): Found
    decreases |outbound|
  {
    if outbound == [] then map[] else
      var last := outbound[|outbound| - 1];
      AddLinks(urlToId, normalize, resolve, AllLinks(urlToId, normalize, resolve, outbound[..|outbound| - 1]), last.0, last.1)
  }

  function Written(links: Links, found: Found, run: int): Links {
    map l | l in links.Keys + found.Keys :: if l in found then Link(found[l], true, Some(run)) else links[l]
  }

  predicate LinksTo(urlToId: map<string, int>, normalize: string -> string, resolve: Resolver,
                    links: seq<OutLink>, target: int) {
    exists i :: 0 <= i < |links| && Target(urlToId, normalize, resolve, links[i].url) == Some(target)
  }

  lemma {:induction false} AddLinksPairs(urlToId: map<string, int>, normalize: string -> string, resolve: Resolver,
                                         found: Found, source: int, links: seq<OutLink>, l: (int, int))
    ensures l in AddLinks(urlToId, normalize, resolve, found, source, links) <==>
      l in found || (l.0 == source && l.1 != source && LinksTo(urlToId, normalize, resolve, links, l.1))
    decreases |links|
  {
    if links != [] {
      var front := links[..|links| - 1];
      var target := Target(urlToId, normalize, resolve, links[|links| - 1].url);
      AddLinksPairs(urlToId, normalize, resolve, found, source, front, l);
      OneMoreTarget(urlToId, normalize, resolve, links, l.1);
      AddLinkPair(AddLinks(urlToId, normalize, resolve, found, source, front), source, target, links[|links| - 1].anchor, l);
    }
  }

  lemma AddLinkPair(found: Found, source: int, target: Option<int>, anchor: Option<string>, l: (int, int))
    ensures l in AddLink(found, source, target, anchor) <==>
      l in found || (l.0 == source && l.1 != source && target == Some(l.1))
  {
    if target.Some? { assert l == (source, target.value) <==> l.0 == source && l.1 == target.value; }
  }

  lemma OneMoreTarget(urlToId: map<string, int>, normalize: string -> string, resolve: Resolver, links: seq<OutLink>, target: int)
    requires links != []
    ensures LinksTo(urlToId, normalize, resolve, links, target) <==>
      LinksTo(urlToId, normalize, resolve, links[..|links| - 1], target)
      || Target(urlToId, normalize, resolve, links[|links| - 1].url) == Some(target)
  {
    var front := links[..|links| - 1];
    if LinksTo(urlToId, normalize, resolve, front, target) {
      var i :| 0 <= i < |front| && Target(urlToId, normalize, resolve, front[i].url) == Some(target);
      assert links[i] == front[i];
    }
    if LinksTo(urlToId, normalize, resolve, links, target) {
      var i :| 0 <= i < |links| && Target(urlToId, normalize, resolve, links[i].url) == Some(target);
      if i < |front| { assert front[i] == links[i]; }
    }
  }

  predicate Joins(urlToId: map<string, int>, normalize: string -> string, resolve: Resolver,
                  outbound: seq<(int, seq<OutLink>)>, l: (int, int), i: int) {
    0 <= i < |outbound| && outbound[i].0 == l.0 && LinksTo(urlToId, normalize, resolve, outbound[i].1, l.1)
  }

  /** The links found are exactly the pairs some article's outbound link joins, without
      links to the article itself. */
  lemma {:induction false} AllLinksPairs(urlToId: map<string, int>, normalize: string -> string, resolve: Resolver,
                                         outbound: seq<(int, seq<OutLink>)>, l: (int, int))
    ensures l in AllLinks(urlToId, normalize, resolve, outbound) <==>
      l.0 != l.1 && exists i :: Joins(urlToId, normalize, resolve, outbound, l, i)
    decreases |outbound|
  {
    if outbound != [] {
      var n := |outbound| - 1;
      var front := outbound[..n];
      AllLinksPairs(urlToId, normalize, resolve, front, l);
      AddLinksPairs(urlToId, normalize, resolve, AllLinks(urlToId, normalize, resolve, front),
                    outbound[n].0, outbound[n].1, l);
      if i :| Joins(urlToId, normalize, resolve, front, l, i) {
        assert Joins(urlToId, normalize, resolve, outbound, l, i);
      }
      if i :| Joins(urlToId, normalize, resolve, outbound, l, i) {
        if i < n { assert Joins(urlToId, normalize, resolve, front, l, i); }
      }
      assert outbound[n].0 == l.0 && LinksTo(urlToId, normalize, resolve, outbound[n].1, l.1) ==>
        Joins(urlToId, normalize, resolve, outbound, l, n);
    }
  }

  /** The first of a page's outbound links that leads to `target`. */
  predicate FirstTo(urlToId: map<string, int>, normalize: string -> string, resolve: Resolver,
                    links: seq<OutLink>, target: int, j: int) {
    && 0 <= j < |links| && Target(urlToId, normalize, resolve, links[j].url) == Some(target)
    && forall k :: 0 <= k < j ==> Target(urlToId, normalize, resolve, links[k].url) != Some(target)
  }

  lemma {:induction false} AddLinksAnchor(urlToId: map<string, int>, normalize: string -> string, resolve: Resolver,
                                          found: Found, source: int, links: seq<OutLink>, l: (int, int))
    requires l in AddLinks(urlToId, normalize, resolve, found, source, links)
    ensures var more := AddLinks(urlToId, normalize, resolve, found, source, links);
      if l in found then more[l] == found[l]
      else exists j :: FirstTo(urlToId, normalize, resolve, links, l.1, j) && more[l] == links[j].anchor
    decreases |links|
  {
    if links != [] {
      var n := |links| - 1;
      var before := AddLinks(urlToId, normalize, resolve, found, source, links[..n]);
      AddLinksPairs(urlToId, normalize, resolve, found, source, links[..n], l);
      if l in before {
        AddLinksAnchor(urlToId, normalize, resolve, found, source, links[..n], l);
        if l !in found {
          var j :| FirstTo(urlToId, normalize, resolve, links[..n], l.1, j) && before[l] == links[..n][j].anchor;
          assert FirstTo(urlToId, normalize, resolve, links, l.1, j);
        }
      } else {
        AddLinkPair(before, source, Target(urlToId, normalize, resolve, links[n].url), links[n].anchor, l);
        NotBefore(urlToId, normalize, resolve, links, l.1);
        assert FirstTo(urlToId, normalize, resolve, links, l.1, n);
      }
    }
  }

  lemma NotBefore(urlToId: map<string, int>, normalize: string -> string, resolve: Resolver, links: seq<OutLink>, target: int)
    requires links != [] && !LinksTo(urlToId, normalize, resolve, links[..|links| - 1], target)
    ensures forall k :: 0 <= k < |links| - 1 ==> Target(urlToId, normalize, resolve, links[k].url) != Some(target)
  {
    forall k | 0 <= k < |links| - 1 ensures Target(urlToId, normalize, resolve, links[k].url) != Some(target) {
      assert links[..|links| - 1][k] == links[k];
    }
  }

  /** The first article, in crawl order, that links this pair. */
  predicate FirstJoins(urlToId: map<string, int>, normalize: string -> string, resolve: Resolver,
                       outbound: seq<(int, seq<OutLink>)>, l: (int, int), i: int) {
    && Joins(urlToId, normalize, resolve, outbound, l, i)
    && forall k :: 0 <= k < i ==> !Joins(urlToId, normalize, resolve, outbound, l, k)
  }

  /** A link carries the anchor it was first seen with: the first link to its target on the
      first crawled page that has one. */
  lemma {:induction false} FirstAnchor(urlToId: map<string, int>, normalize: string -> string, resolve: Resolver,
                                       outbound: seq<(int, seq<OutLink>)>, l: (int, int))
    requires l in AllLinks(urlToId, normalize, resolve, outbound)
    ensures exists i, j ::
      && FirstJoins(urlToId, normalize, resolve, outbound, l, i)
      && FirstTo(urlToId, normalize, resolve, outbound[i].1, l.1, j)
      && AllLinks(urlToId, normalize, resolve, outbound)[l] == outbound[i].1[j].anchor
    decreases |outbound|
  {
    if outbound != [] {
      var n := |outbound| - 1;
      var front := outbound[..n];
      var before := AllLinks(urlToId, normalize, resolve, front);
      AddLinksAnchor(urlToId, normalize, resolve, before, outbound[n].0, outbound[n].1, l);
      AllLinksPairs(urlToId, normalize, resolve, front, l);
      AddLinksPairs(urlToId, normalize, resolve, before, outbound[n].0, outbound[n].1, l);
      forall k | 0 <= k < n
        ensures Joins(urlToId, normalize, resolve, outbound, l, k) == Joins(urlToId, normalize, resolve, front, l, k) {
        assert front[k] == outbound[k];
      }
      if l in before {
        FirstAnchor(urlToId, normalize, resolve, front, l);
        var i, j :| FirstJoins(urlToId, normalize, resolve, front, l, i) && FirstTo(urlToId, normalize, resolve, front[i].1, l.1, j)
                    && before[l] == front[i].1[j].anchor;
        assert FirstJoins(urlToId, normalize, resolve, outbound, l, i) && FirstTo(urlToId, normalize, resolve, outbound[i].1, l.1, j);
      } else {
        var j :| FirstTo(urlToId, normalize, resolve, outbound[n].1, l.1, j)
                 && AllLinks(urlToId, normalize, resolve, outbound)[l] == outbound[n].1[j].anchor;
        assert FirstJoins(urlToId, normalize, resolve, outbound, l, n);
      }
    }
  }
}
