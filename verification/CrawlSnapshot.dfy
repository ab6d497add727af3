/** `CrawlSnapshot`: what one run has staged, and the order in which it may be promoted. */
module CrawlSnapshot {
  import opened Prelude
  import opened CrawlTables
  import opened ArticleStore

  class Snapshot {
    const site: int
    const run: int
    const normalize: string -> string
    var articleIds: set<int>
    var urlToId: map<string, int>
    var outbound: seq<(int, seq<OutLink>)>
    var validated: bool
    var linksResolved: bool
    var promoted: bool

    constructor (site: int, run: int, normalize: string -> string)
      ensures this.site == site && this.run == run && this.normalize == normalize
      ensures articleIds == {} && urlToId == map[] && outbound == []
      ensures !validated && !linksResolved && !promoted
    {
      this.site, this.run, this.normalize := site, run, normalize;
      articleIds, urlToId, outbound := {}, map[], [];
      validated, linksResolved, promoted := false, false, false;
    }

    /** Anything staged makes earlier checks void; a promoted snapshot takes nothing more. */
    method MarkDirty() returns (ok: bool)
      modifies this`validated, this`linksResolved
      ensures ok <==> !promoted
      ensures ok ==> !validated && !linksResolved
      ensures !ok ==> validated == old(validated) && linksResolved == old(linksResolved)
    {
      if promoted { return false; }
      validated, linksResolved := false, false;
      ok := true;
    }

    method StageArticle(art: ArticleData, id: int) returns (ok: bool)
      modifies this`articleIds, this`urlToId, this`outbound, this`validated, this`linksResolved
      ensures ok <==> !promoted
      ensures ok ==>
        && articleIds == old(articleIds) + {id} && urlToId == old(urlToId)[normalize(art.url) := id]
        && outbound == old(outbound) + [(id, art.links)] && !validated && !linksResolved
      ensures !ok ==>
        articleIds == old(articleIds) && urlToId == old(urlToId) && outbound == old(outbound)
    {
      ok := MarkDirty();
      if ok {
        articleIds := articleIds + {id};
        urlToId := urlToId[normalize(art.url) := id];
        outbound := outbound + [(id, art.links)];
      }
    }

    /** An empty crawl, or one much smaller than the last good one, is not taken for the
        site; `previous` is that crawl's article count. */
    method ValidateCompleteness(previous: Option<nat>, minRatio: real) returns (ok: bool)
      modifies this`validated
      ensures ok <==> !promoted && Complete(|articleIds|, previous, minRatio)
      ensures validated == (ok || old(validated))
    {
      if promoted || |articleIds| == 0 { return false; }
      if previous.Some? && previous.value > 0 && |articleIds| as real < previous.value as real * minRatio { return false; }
      validated := true;
      ok := true;
    }

    /** Links of one article, in order. */
    method ResolveOutbound(db: Store, resolve: Resolver, source: int, out: seq<OutLink>, seen: Found) returns (found: Found)
      requires db.links.Keys >= seen.Keys && db.links == Written(db.links, seen, run)
      modifies db`links
      ensures found == AddLinks(urlToId, normalize, resolve, seen, source, out)
      ensures db.links == Written(old(db.links), found, run)
    {
      found := seen;
      for j := 0 to |out|
        invariant found == AddLinks(urlToId, normalize, resolve, seen, source, out[..j])
        invariant db.links == Written(old(db.links), found, run)
      {
        OneMoreLink(urlToId, normalize, resolve, seen, source, out, j);
        var target := Target(urlToId, normalize, resolve, out[j].url);
        if target.Some? && target.value != source && (source, target.value) !in found {
          WrittenOneMore(old(db.links), found, run, (source, target.value), out[j].anchor);
          db.UpsertLink(source, target.value, run, out[j].anchor);
          found := found[(source, target.value) := out[j].anchor];
        }
      }
      assert out[..|out|] == out;
    }

    /** `resolve_links`: every pair once, with the anchor it was first seen with. */
    method ResolveLinks(db: Store, resolve: Resolver) returns (links: Option<nat>)
      modifies this`linksResolved, db`links
      ensures links.Some? <==> !promoted
      ensures links.Some? ==>
        var found := AllLinks(urlToId, normalize, resolve, outbound);
        links == Some(|found|) && db.links == Written(old(db.links), found, run) && linksResolved
      ensures links.None? ==> db.links == old(db.links) && linksResolved == old(linksResolved)
    {
      if promoted { return None; }
      var found: Found := map[];
      WrittenNothing(db.links, run);
      for i := 0 to |outbound|
        invariant found == AllLinks(urlToId, normalize, resolve, outbound[..i])
        invariant db.links == Written(old(db.links), found, run)
        invariant linksResolved == old(linksResolved)
      {
        assert outbound[..i + 1][..i] == outbound[..i];
        WrittenTwice(old(db.links), found, run);
        var more := ResolveOutbound(db, resolve, outbound[i].0, outbound[i].1, found);
        LaterWritten(old(db.links), found, more, run, urlToId, normalize, resolve, outbound[i].0, outbound[i].1);
        found := more;
      }
      assert outbound[..|outbound|] == outbound;
      linksResolved := true;
      links := Some(|found|);
    }

    /** `promote`: only after both checks, and once. */
    method Promote(db: Store) returns (ok: bool)
      requires db.Valid()
      modifies this`promoted, db`rows, db`links, db`suggestions
      ensures db.Valid()
      ensures ok <==> old(validated && linksResolved && !promoted)
      ensures promoted == (old(promoted) || ok)
      ensures ok ==>
        && db.rows == ReconciledArticles(old(db.rows), site, run)
        && db.suggestions == ReconciledSuggestions(old(db.suggestions), old(db.rows), site, run)
        && db.links == ReconciledLinks(old(db.links), old(db.rows), site, run)
      ensures !ok ==> db.rows == old(db.rows) && db.links == old(db.links) && db.suggestions == old(db.suggestions)
    {
      ok := validated && linksResolved && !promoted;
      if ok {
        db.Reconcile(site, run);
        promoted := true;
      }
    }
  }

  predicate Complete(count: nat, previous: Option<nat>, minRatio: real) {
    count > 0 && !(previous.Some? && previous.value > 0 && count as real < previous.value as real * minRatio)
  }

  /** A crawl is taken for the site exactly when it found something and no fewer articles than
      the configured share of the last good crawl, if there was one. */
  lemma CompleteExactly(count: nat, previous: Option<nat>, minRatio: real)
    ensures Complete(count, previous, minRatio) <==>
      count >= 1 && (previous.None? || previous.value == 0 || previous.value as real * minRatio <= count as real)
  {
  }

  lemma OneMoreLink(urlToId: map<string, int>, normalize: string -> string, resolve: Resolver, seen: Found,
                    source: int, out: seq<OutLink>, j: nat)
    requires j < |out|
    ensures AddLinks(urlToId, normalize, resolve, seen, source, out[..j + 1]) ==
      AddLink(AddLinks(urlToId, normalize, resolve, seen, source, out[..j]), source,
              Target(urlToId, normalize, resolve, out[j].url), out[j].anchor)
  {
    assert out[..j + 1][..j] == out[..j];
  }

  lemma WrittenOneMore(links: Links, found: Found, run: int, l: (int, int), anchor: Option<string>)
    ensures Written(links, found[l := anchor], run) == Written(links, found, run)[l := Link(anchor, true, Some(run))]
  {
  }

  lemma WrittenNothing(links: Links, run: int)
    ensures Written(links, map[], run) == links
  {
  }

  lemma WrittenTwice(links: Links, found: Found, run: int)
    ensures var now := Written(links, found, run);
            now.Keys >= found.Keys && Written(now, found, run) == now
  {
  }

  lemma {:induction false} AddLinksKeeps(urlToId: map<string, int>, normalize: string -> string, resolve: Resolver,
                                         found: Found, source: int, links: seq<OutLink>)
    ensures var more := AddLinks(urlToId, normalize, resolve, found, source, links);
            found.Keys <= more.Keys && forall l :: l in found ==> more[l] == found[l]
    decreases |links|
  {
    if links != [] {
      AddLinksKeeps(urlToId, normalize, resolve, found, source, links[..|links| - 1]);
    }
  }

  /** Writing the links found so far and then more of them is writing them all. */
  lemma LaterWritten(links: Links, found: Found, more: Found, run: int, urlToId: map<string, int>,
                     normalize: string -> string, resolve: Resolver, source: int, out: seq<OutLink>)
    requires more == AddLinks(urlToId, normalize, resolve, found, source, out)
    ensures Written(Written(links, found, run), more, run) == Written(links, more, run)
  {
    AddLinksKeeps(urlToId, normalize, resolve, found, source, out);
  }
}
