/** The artifact a human approves, and the hash that binds them to it. */
module PlanArtifact {
  import opened Prelude
  import opened Sorting
  import opened CanonicalJson

  /** One link of a plan, as preparation rendered it. */
  datatype LinkItem = LinkItem(
    suggestionId: int, targetUrl: string, anchorText: Option<string>, outcome: string)

  /** The part of a stored item that publication reads back. */
  datatype ItemRef = ItemRef(suggestionId: int, outcome: string)

  datatype Artifact = Artifact(
    siteId: int, sourceId: int, sourceUrl: string,
    originalHtml: string, updatedHtml: string, items: Json)

  /** `items` is a `jsonb` column: its dictionaries have no order of keys, so a stored
      value is its own canonical form. */
  ghost predicate Jsonb(v: Json) { WellFormed(v) && Canon(v) == v }

  ghost predicate Storable(a: Artifact) { Jsonb(a.items) }

  const SCHEMA_VERSION := 1

  function CanonicalArtifact(a: Artifact): Json {
    JObject([
      Entry("schema_version", JInt(SCHEMA_VERSION)),
      Entry("site_id", JInt(a.siteId)),
      Entry("source_article_id", JInt(a.sourceId)),
      Entry("source_url", JString(a.sourceUrl)),
      Entry("original_html", JString(a.originalHtml)),
      Entry("updated_html", JString(a.updatedHtml)),
      Entry("items", a.items)])
  }

  /** SHA-256, taken to be collision-free: a digest is the text it was computed from. */
  datatype Digest = Sha256(payload: string)

  function ComputePlanHash(a: Artifact): Digest { Sha256(Payload(CanonicalArtifact(a))) }

  type Hash = Artifact -> Digest

  ghost predicate CollisionFree(hash: Hash) {
    forall a, b :: Storable(a) && Storable(b) && hash(a) == hash(b) ==> a == b
  }

  /** `verify_integrity`: the artifact still hashes to the stored hash and, once a human
      is bound to it, to the hash they approved. */
  predicate Intact(hash: Hash, a: Artifact, planHash: Digest, approvedHash: Option<Digest>) {
    var recomputed := hash(a);
    recomputed == planHash && (approvedHash.Some? ==> approvedHash.value == recomputed)
  }

  lemma SameEntry(es: seq<Entry>, fs: seq<Entry>, i: nat)
    requires SameValue(JObject(es), JObject(fs)) && i < |es| && i < |fs|
    requires es[i].key == fs[i].key
    requires forall k :: 0 <= k < |fs| && k != i ==> |fs[k].key| != |fs[i].key|
    ensures SameValue(es[i].value, fs[i].value)
  {
    var k :| 0 <= k < |fs| && fs[k].key == es[i].key && SameValue(es[i].value, fs[k].value);
    assert k == i;
  }

  /** The artifact's keys all have different lengths, which is the quickest way to tell
      them apart. */
  lemma ArtifactKeys(a: Artifact)
    requires Storable(a)
    ensures var es := CanonicalArtifact(a).entries;
            |es| == 7 && forall j, k :: 0 <= j < k < 7 ==> |es[j].key| != |es[k].key|
    ensures WellFormed(CanonicalArtifact(a))
  {
    var es := CanonicalArtifact(a).entries;
    assert |es[0].key| == 14 && |es[1].key| == 7 && |es[2].key| == 17 && |es[3].key| == 10;
    assert |es[4].key| == 13 && |es[5].key| == 12 && |es[6].key| == 5;
  }

  lemma SameArtifactField(a: Artifact, b: Artifact, i: nat)
    requires Storable(b) && i < 7
    requires SameValue(CanonicalArtifact(a), CanonicalArtifact(b))
    ensures SameValue(CanonicalArtifact(a).entries[i].value, CanonicalArtifact(b).entries[i].value)
  {
    ArtifactKeys(b);
    SameEntry(CanonicalArtifact(a).entries, CanonicalArtifact(b).entries, i);
  }

  lemma SameArtifactFields(a: Artifact, b: Artifact)
    requires Storable(b)
    requires SameValue(CanonicalArtifact(a), CanonicalArtifact(b))
    ensures a.siteId == b.siteId && a.sourceId == b.sourceId && a.sourceUrl == b.sourceUrl
    ensures a.originalHtml == b.originalHtml && a.updatedHtml == b.updatedHtml
    ensures SameValue(a.items, b.items)
  {
    SameArtifactField(a, b, 1);
    SameArtifactField(a, b, 2);
    SameArtifactField(a, b, 3);
    SameArtifactField(a, b, 4);
    SameArtifactField(a, b, 5);
    SameArtifactField(a, b, 6);
  }

  /** Two artifacts have one hash exactly when they are the same artifact. */
  lemma HashBinds(a: Artifact, b: Artifact)
    requires Storable(a) && Storable(b)
    ensures ComputePlanHash(a) == ComputePlanHash(b) <==> a == b
  {
    ArtifactKeys(a);
    ArtifactKeys(b);
    PayloadInjective(CanonicalArtifact(a), CanonicalArtifact(b));
    if ComputePlanHash(a) == ComputePlanHash(b) {
      SameArtifactFields(a, b);
      CanonSound(a.items, b.items);
    }
  }

  /** The plan hash tells any two stored artifacts apart. */
  lemma PlanHashIsCollisionFree()
    ensures CollisionFree(ComputePlanHash)
  {
    forall a, b | Storable(a) && Storable(b) && ComputePlanHash(a) == ComputePlanHash(b) ensures a == b {
      HashBinds(a, b);
    }
  }

  // ---- Items ----------------------------------------------------------------

  /** `d.get(key)` on a dictionary. */
  function Lookup(entries: seq<Entry>, key: string): Option<Json> {
    if entries == [] then None
    else if entries[0].key == key then Some(entries[0].value)
    else Lookup(entries[1..], key)
  }

  /** `item["suggestion_id"]` and `item["outcome"]`; None where the source would raise, and for an
      id or outcome of another type, which preparation never writes. */
  function ReadItem(v: Json): Option<ItemRef> {
    if !v.JObject? then None else
      match (Lookup(v.entries, "suggestion_id"), Lookup(v.entries, "outcome"))
      case (Some(JInt(id)), Some(JString(outcome))) => Some(ItemRef(id, outcome))
      case _ => None
  }

  function ReadAll(elems: seq<Json>): (r: Option<seq<ItemRef>>) {
    if elems == [] then Some([]) else
      match (ReadItem(elems[0]), ReadAll(elems[1..]))
      case (Some(item), Some(rest)) => Some([item] + rest)
      case _ => None
  }

  /** What Python takes for false. */
  predicate Falsy(v: Json) {
    match v
    case JNull => true
    case JBool(b) => !b
    case JInt(n) => n == 0
    case JString(s) => s == ""
    case JArray(elems) => elems == []
    case JObject(entries) => entries == []
  }

  /** `plan.items or []`, read item by item. */
  function ReadItems(items: Json): Option<seq<ItemRef>> {
    if Falsy(items) then Some([]) else if items.JArray? then ReadAll(items.elems) else None
  }

  /** The suggestions an artifact lists. */
  function Listed(a: Artifact): set<int> {
    match ReadItems(a.items)
    case None => {}
    case Some(refs) => set r | r in refs :: r.suggestionId
  }

  function ItemJson(position: int, link: LinkItem): Json {
    JObject([
      Entry("position", JInt(position)),
      Entry("suggestion_id", JInt(link.suggestionId)),
      Entry("target_url", JString(link.targetUrl)),
      Entry("anchor_text", if link.anchorText.Some? then JString(link.anchorText.value) else JNull),
      Entry("outcome", JString(link.outcome))])
  }

  function ItemsFrom(links: seq<LinkItem>, position: int): (r: seq<Json>)
    ensures |r| == |links|
    ensures forall i :: 0 <= i < |r| ==> r[i] == ItemJson(position + i, links[i])
  {
    if links == [] then [] else [ItemJson(position, links[0])] + ItemsFrom(links[1..], position + 1)
  }

  /** `snapshot_items`: one record per link, in rendering order, as the column stores it. */
  function SnapshotItems(links: seq<LinkItem>): Json { Canon(JArray(ItemsFrom(links, 0))) }

  function Refs(links: seq<LinkItem>): (r: seq<ItemRef>)
    ensures |r| == |links|
    ensures forall i :: 0 <= i < |r| ==> r[i] == ItemRef(links[i].suggestionId, links[i].outcome)
  {
    if links == [] then [] else [ItemRef(links[0].suggestionId, links[0].outcome)] + Refs(links[1..])
  }

  lemma {:induction false} LookupFinds(entries: seq<Entry>, i: nat)
    requires i < |entries|
    requires forall j, k :: 0 <= j < k < |entries| ==> entries[j].key != entries[k].key
    ensures Lookup(entries, entries[i].key) == Some(entries[i].value)
  {
    if i > 0 { LookupFinds(entries[1..], i - 1); }
  }

  lemma CanonKeys(entries: seq<Entry>)
    requires forall j, k :: 0 <= j < k < |entries| ==> entries[j].key != entries[k].key
    ensures var r := Sort(EntryLe, CanonEntries(entries));
            && |r| == |entries|
            && (forall j, k :: 0 <= j < k < |r| ==> r[j].key != r[k].key)
            && (forall i :: 0 <= i < |entries| ==> Entry(entries[i].key, Canon(entries[i].value)) in r)
            && (forall e :: e in r ==> e in CanonEntries(entries))
  {
    var xs := CanonEntries(entries);
    var r := Sort(EntryLe, xs);
    SameElements(xs, r);
    SortDistinct(EntryLe, xs);
    forall j, k | 0 <= j < k < |r| ensures r[j].key != r[k].key {
      assert r[j] in xs && r[k] in xs && r[j] != r[k];
      var a :| 0 <= a < |xs| && xs[a] == r[j];
      var b :| 0 <= b < |xs| && xs[b] == r[k];
      assert a != b;
    }
    forall i | 0 <= i < |entries| ensures Entry(entries[i].key, Canon(entries[i].value)) in r {
      assert xs[i] in xs;
    }
  }

  lemma CanonLookup(entries: seq<Entry>, i: nat)
    requires i < |entries|
    requires forall j, k :: 0 <= j < k < |entries| ==> entries[j].key != entries[k].key
    ensures Lookup(Sort(EntryLe, CanonEntries(entries)), entries[i].key) == Some(Canon(entries[i].value))
  {
    CanonKeys(entries);
    var r := Sort(EntryLe, CanonEntries(entries));
    var k :| 0 <= k < |r| && r[k] == Entry(entries[i].key, Canon(entries[i].value));
    LookupFinds(r, k);
  }

  lemma ItemKeys(position: int, link: LinkItem)
    ensures var es := ItemJson(position, link).entries;
            |es| == 5 && forall j, k :: 0 <= j < k < 5 ==> es[j].key != es[k].key
    ensures WellFormed(ItemJson(position, link))
  {
    var es := ItemJson(position, link).entries;
    assert |es[0].key| == 8 && |es[1].key| == 13 && |es[2].key| == 10;
    assert |es[3].key| == 11 && |es[4].key| == 7;
  }

  lemma ReadItemJson(position: int, link: LinkItem)
    ensures ReadItem(Canon(ItemJson(position, link))) == Some(ItemRef(link.suggestionId, link.outcome))
  {
    var entries := ItemJson(position, link).entries;
    ItemKeys(position, link);
    CanonLookup(entries, 1);
    CanonLookup(entries, 4);
    assert Canon(JInt(link.suggestionId)) == JInt(link.suggestionId);
    assert Canon(JString(link.outcome)) == JString(link.outcome);
  }

  lemma {:induction false} ReadAllSnapshot(links: seq<LinkItem>, position: int)
    ensures ReadAll(CanonElems(ItemsFrom(links, position))) == Some(Refs(links))
  {
    if links != [] {
      ReadItemJson(position, links[0]);
      ReadAllSnapshot(links[1..], position + 1);
      var items := ItemsFrom(links, position);
      assert items[1..] == ItemsFrom(links[1..], position + 1);
      assert CanonElems(items)[1..] == CanonElems(items[1..]);
    }
  }

  /** Canonical form is stable, so a snapshot is a value the column can hold. */
  lemma {:induction false} CanonIdempotent(v: Json)
    requires WellFormed(v)
    ensures WellFormed(Canon(v)) && Canon(Canon(v)) == Canon(v)
    decreases v, 2
  {
    if v.JArray? {
      var elems := CanonElems(v.elems);
      forall i | 0 <= i < |elems| ensures WellFormed(elems[i]) && Canon(elems[i]) == elems[i] {
        CanonIdempotent(v.elems[i]);
      }
      assert CanonElems(elems) == elems;
    } else if v.JObject? {
      CanonIdempotentObject(v);
    }
  }

  lemma CanonIdempotentObject(v: Json)
    requires WellFormed(v) && v.JObject?
    ensures WellFormed(Canon(v)) && Canon(Canon(v)) == Canon(v)
    decreases v, 1
  {
    CanonKeys(v.entries);
    StableValues(v);
    StableObject(Sort(EntryLe, CanonEntries(v.entries)));
    SortedTwice(CanonEntries(v.entries));
  }

  lemma StableValues(v: Json)
    requires WellFormed(v) && v.JObject?
    ensures var r := Sort(EntryLe, CanonEntries(v.entries));
            forall i :: 0 <= i < |r| ==> WellFormed(r[i].value) && Canon(r[i].value) == r[i].value
    decreases v, 0
  {
    var xs := CanonEntries(v.entries);
    var r := Sort(EntryLe, xs);
    SameElements(xs, r);
    forall i | 0 <= i < |r| ensures WellFormed(r[i].value) && Canon(r[i].value) == r[i].value {
      assert r[i] in xs;
      var j :| 0 <= j < |xs| && xs[j] == r[i];
      CanonIdempotent(v.entries[j].value);
    }
  }

  lemma StableObject(r: seq<Entry>)
    requires forall i :: 0 <= i < |r| ==> Canon(r[i].value) == r[i].value
    ensures CanonEntries(r) == r
  {
    forall i | 0 <= i < |r| ensures CanonEntries(r)[i] == r[i] {}
  }

  lemma SortedTwice(xs: seq<Entry>)
    requires forall i, j :: 0 <= i < j < |xs| ==> xs[i].key != xs[j].key
    requires forall i, j :: 0 <= i < j < |Sort(EntryLe, xs)| ==> Sort(EntryLe, xs)[i].key != Sort(EntryLe, xs)[j].key
    ensures Sort(EntryLe, Sort(EntryLe, xs)) == Sort(EntryLe, xs)
  {
    var r := Sort(EntryLe, xs);
    EntryLeLinear(xs);
    EntryLeLinear(r);
    SortOrders(EntryLe, xs);
    SortOrders(EntryLe, r);
    OrderedUnique(EntryLe, r, Sort(EntryLe, r));
  }

  /** What publication reads back from a snapshot is what preparation recorded, in order. */
  lemma SnapshotRoundTrip(links: seq<LinkItem>)
    ensures Jsonb(SnapshotItems(links))
    ensures ReadItems(SnapshotItems(links)) == Some(Refs(links))
  {
    var items := ItemsFrom(links, 0);
    forall i | 0 <= i < |items| ensures WellFormed(items[i]) { ItemKeys(i, links[i]); }
    CanonIdempotent(JArray(items));
    ReadAllSnapshot(links, 0);
  }
}
