/** What the text under a plan's hash looks like, and what the hash check detects. */
module ArtifactMeaning {
  import opened Prelude
  import opened Sorting
  import opened CanonicalJson
  import opened PlanArtifact

  // ---- Text -----------------------------------------------------------------

  predicate Plain(c: char) { c as int >= 32 && c != '\"' && c != '\\' }

  /** Text stands in the payload as itself, whatever its alphabet, exactly when it has no quote,
      no backslash and no control character. */
  lemma {:induction false} PlainTextKept(s: string)
    ensures EscapeAll(s) == s <==> forall i :: 0 <= i < |s| ==> Plain(s[i])
    ensures |EscapeAll(s)| >= |s|
  {
    if s != "" {
      PlainTextKept(s[1..]);
      EscapeOne(s[0]);
      var first, rest := Escape(s[0]), EscapeAll(s[1..]);
      assert s == [s[0]] + s[1..];
      if Plain(s[0]) {
        assert (first + rest)[1..] == rest;
        assert forall i :: 1 <= i < |s| ==> s[i] == s[1..][i - 1];
      }
    }
  }

  lemma EscapeOne(c: char)
    ensures Plain(c) ==> Escape(c) == [c]
    ensures !Plain(c) ==> |Escape(c)| >= 2 && Escape(c)[0] == '\\'
  {
  }

  // ---- The order of the keys ------------------------------------------------

  /** `a` is the beginning of `b`, or has the lower character where they first differ. */
  ghost predicate CodePointLe(a: string, b: string) {
    a <= b || exists k :: 0 <= k < |a| && k < |b| && DiffersLowerAt(a, b, k)
  }

  predicate DiffersLowerAt(a: string, b: string, k: nat)
    requires k < |a| && k < |b|
  {
    a[..k] == b[..k] && a[k] < b[k]
  }

  lemma {:induction false} KeyLeMeans(a: string, b: string)
    ensures KeyLe(a, b) <==> CodePointLe(a, b)
  {
    if a != "" && b != "" && a[0] == b[0] {
      var x, y := a[1..], b[1..];
      KeyLeMeans(x, y);
      assert a == [a[0]] + x && b == [b[0]] + y;
      if k :| 0 <= k < |x| && k < |y| && DiffersLowerAt(x, y, k) {
        assert a[..k + 1] == [a[0]] + x[..k] && b[..k + 1] == [b[0]] + y[..k];
        assert DiffersLowerAt(a, b, k + 1);
      }
      if k :| 0 <= k < |a| && k < |b| && DiffersLowerAt(a, b, k) {
        assert x[..k - 1] == a[..k][1..] && y[..k - 1] == b[..k][1..];
        assert DiffersLowerAt(x, y, k - 1);
      }
      if a <= b { assert x <= y; }
    } else if a != "" && b != "" {
      if a[0] < b[0] {
        assert DiffersLowerAt(a, b, 0);
      } else {
        forall k | 0 <= k < |a| && k < |b| ensures !DiffersLowerAt(a, b, k) {
          if k > 0 { assert a[..k][0] == a[0] && b[..k][0] == b[0]; }
        }
      }
    }
  }

  /** The keys of every hashed dictionary come in code-point order. */
  lemma KeysInOrder(entries: seq<Entry>, i: nat, j: nat)
    requires WellFormed(JObject(entries)) && i < j < |entries|
    ensures Canon(JObject(entries)).JObject? && |Canon(JObject(entries)).entries| == |entries|
    ensures CodePointLe(Canon(JObject(entries)).entries[i].key, Canon(JObject(entries)).entries[j].key)
  {
    var xs := CanonEntries(entries);
    EntryLeLinear(xs);
    SortOrders(EntryLe, xs);
    KeyLeMeans(Sort(EntryLe, xs)[i].key, Sort(EntryLe, xs)[j].key);
  }

  // ---- The fields -----------------------------------------------------------

  /** What a decoder finds in the hashed text of an artifact, under the names of the columns. */
  lemma PayloadFields(a: Artifact)
    requires Storable(a)
    ensures var text := Parse(Payload(CanonicalArtifact(a)));
      && text.Some? && text.value.JObject?
      && Lookup(text.value.entries, "schema_version") == Some(JInt(1))
      && Lookup(text.value.entries, "site_id") == Some(JInt(a.siteId))
      && Lookup(text.value.entries, "source_article_id") == Some(JInt(a.sourceId))
      && Lookup(text.value.entries, "source_url") == Some(JString(a.sourceUrl))
      && Lookup(text.value.entries, "original_html") == Some(JString(a.originalHtml))
      && Lookup(text.value.entries, "updated_html") == Some(JString(a.updatedHtml))
      && Lookup(text.value.entries, "items") == Some(a.items)
  {
    DecodePayload(CanonicalArtifact(a));
    PayloadField(a, 0);
    PayloadField(a, 1);
    PayloadField(a, 2);
    PayloadField(a, 3);
    PayloadField(a, 4);
    PayloadField(a, 5);
    PayloadField(a, 6);
  }

  lemma PayloadField(a: Artifact, i: nat)
    requires Storable(a) && i < 7
    ensures Canon(CanonicalArtifact(a)).JObject?
    ensures Lookup(Canon(CanonicalArtifact(a)).entries, CanonicalArtifact(a).entries[i].key) == Some(CanonicalArtifact(a).entries[i].value)
  {
    ArtifactKeys(a);
    StableField(a, i);
    FieldOf(CanonicalArtifact(a).entries, i);
  }

  lemma StableField(a: Artifact, i: nat)
    requires Storable(a) && i < 7
    ensures Canon(CanonicalArtifact(a).entries[i].value) == CanonicalArtifact(a).entries[i].value
  {
  }

  lemma FieldOf(es: seq<Entry>, i: nat)
    requires i < |es| && Canon(es[i].value) == es[i].value
    requires forall j, k :: 0 <= j < k < |es| ==> |es[j].key| != |es[k].key|
    ensures Canon(JObject(es)).JObject? && Lookup(Canon(JObject(es)).entries, es[i].key) == Some(es[i].value)
  {
    KeysApart(es);
    CanonLookup(es, i);
  }

  lemma KeysApart(es: seq<Entry>)
    requires forall j, k :: 0 <= j < k < |es| ==> |es[j].key| != |es[k].key|
    ensures forall j, k :: 0 <= j < k < |es| ==> es[j].key != es[k].key
  {
  }

  /** The record of one link: its place in rendering order and everything preparation knew. */
  lemma SnapshotFields(links: seq<LinkItem>, i: nat)
    requires i < |links|
    ensures var items := SnapshotItems(links);
      && items.JArray? && |items.elems| == |links| && items.elems[i].JObject?
      && var fields := items.elems[i].entries;
      && Lookup(fields, "position") == Some(JInt(i))
      && Lookup(fields, "suggestion_id") == Some(JInt(links[i].suggestionId))
      && Lookup(fields, "target_url") == Some(JString(links[i].targetUrl))
      && Lookup(fields, "anchor_text") == Some(if links[i].anchorText.Some? then JString(links[i].anchorText.value) else JNull)
      && Lookup(fields, "outcome") == Some(JString(links[i].outcome))
  {
    assert SnapshotItems(links).elems[i] == Canon(ItemJson(i, links[i]));
    RecordField(i, links[i], 0);
    RecordField(i, links[i], 1);
    RecordField(i, links[i], 2);
    RecordField(i, links[i], 3);
    RecordField(i, links[i], 4);
  }

  lemma RecordField(position: nat, link: LinkItem, i: nat)
    requires i < 5
    ensures Canon(ItemJson(position, link)).JObject?
    ensures Lookup(Canon(ItemJson(position, link)).entries, ItemJson(position, link).entries[i].key)
            == Some(ItemJson(position, link).entries[i].value)
  {
    var es := ItemJson(position, link).entries;
    assert |es[0].key| == 8 && |es[1].key| == 13 && |es[2].key| == 10 && |es[3].key| == 11 && |es[4].key| == 7;
    StableRecord(position, link, i);
    FieldOf(es, i);
  }

  lemma StableRecord(position: nat, link: LinkItem, i: nat)
    requires i < 5
    ensures Canon(ItemJson(position, link).entries[i].value) == ItemJson(position, link).entries[i].value
  {
  }

  /** A record names this suggestion and this outcome. */
  predicate Names(v: Json, r: ItemRef) {
    && v.JObject? && Lookup(v.entries, "suggestion_id") == Some(JInt(r.suggestionId))
    && Lookup(v.entries, "outcome") == Some(JString(r.outcome))
  }

  /** Publication reads one suggestion and outcome off each record, in order, or nothing at all:
      an empty column lists nothing, and anything but a list of such records is refused. */
  lemma ItemsExactly(items: Json, refs: seq<ItemRef>)
    ensures ReadItems(items) == Some(refs) <==>
      if items in {JNull, JBool(false), JInt(0), JString(""), JArray([]), JObject([])} then refs == []
      else items.JArray? && |refs| == |items.elems| && forall i :: 0 <= i < |refs| ==> Names(items.elems[i], refs[i])
  {
    if items.JArray? { AllExactly(items.elems, refs); }
  }

  lemma {:induction false} AllExactly(elems: seq<Json>, refs: seq<ItemRef>)
    ensures ReadAll(elems) == Some(refs) <==> |refs| == |elems| && forall i :: 0 <= i < |refs| ==> Names(elems[i], refs[i])
    decreases |elems|
  {
    if elems != [] && refs != [] {
      AllExactly(elems[1..], refs[1..]);
      assert refs == [refs[0]] + refs[1..];
      assert forall i :: 1 <= i < |refs| && i < |elems| ==> elems[i] == elems[1..][i - 1] && refs[i] == refs[1..][i - 1];
    }
  }

  // ---- The hash check -------------------------------------------------------

  /** A plan passes the check exactly when its stored artifact is the one it was stored with
      and, once approved, the one that was approved. */
  lemma IntactExactly(now: Artifact, stored: Artifact, approved: Option<Artifact>)
    requires Storable(now) && Storable(stored) && (approved.Some? ==> Storable(approved.value))
    ensures Intact(ComputePlanHash, now, ComputePlanHash(stored),
                   if approved.Some? then Some(ComputePlanHash(approved.value)) else None)
            <==> now == stored && (approved.Some? ==> now == approved.value)
  {
    HashBinds(now, stored);
    if approved.Some? { HashBinds(now, approved.value); }
  }
}
