/** Synchronizing a skill pack into the marketplace catalogue of an
    organization (backend/app/api/skills_marketplace.py). */
module PackSync {
  import opened Prelude

  type SourceUrl = string
  type Metadata = string  // JSON text; "{}" when there is none

  datatype SkillFields = SkillFields(
    name: string,
    description: Option<string>,
    category: Option<string>,
    risk: Option<string>,
    source: Option<string>,
    metadata: Metadata)

  datatype Candidate = Candidate(
    url: SourceUrl,
    name: string,
    description: Option<string>,
    category: Option<string>,
    risk: Option<string>,
    source: Option<string>,
    metadata: Option<Metadata>)
  {
    function Wanted(): SkillFields {
      SkillFields(name, description, category, risk, source, if metadata.Some? then metadata.value else "{}")
    }
  }

  type Catalogue = map<SourceUrl, SkillFields>

  predicate DistinctUrls(s: seq<Candidate>) {
    forall i, j :: 0 <= i < j < |s| ==> s[i].url != s[j].url
  }

  function Urls(s: seq<Candidate>): (r: set<SourceUrl>)
    ensures forall c :: c in s ==> c.url in r
  {
    if s == [] then {}
    else
      assert s == s[..|s| - 1] + [s[|s| - 1]];
      Urls(s[..|s| - 1]) + {s[|s| - 1].url}
  }

  /** The catalogue with every candidate's fields in place, in order. */
  function Upserted(catalogue: Catalogue, discovered: seq<Candidate>): Catalogue {
    if discovered == [] then catalogue
    else
      var last := discovered[|discovered| - 1];
      Upserted(catalogue, discovered[..|discovered| - 1])[last.url := last.Wanted()]
  }

  function Created(catalogue: Catalogue, discovered: seq<Candidate>): nat {
    if discovered == [] then 0
    else Created(catalogue, discovered[..|discovered| - 1])
         + if discovered[|discovered| - 1].url in catalogue then 0 else 1
  }

  function Updated(catalogue: Catalogue, discovered: seq<Candidate>): nat {
    if discovered == [] then 0
    else
      var last := discovered[|discovered| - 1];
      Updated(catalogue, discovered[..|discovered| - 1])
      + if last.url in catalogue && catalogue[last.url] != last.Wanted() then 1 else 0
  }

  // ---- discovery ----------------------------------------------------------------

  /** The last of the entries with a URL. */
  function LastWith(entries: seq<Candidate>, url: SourceUrl): Option<Candidate> {
    if entries == [] then None
    else if entries[|entries| - 1].url == url then Some(entries[|entries| - 1])
    else LastWith(entries[..|entries| - 1], url)
  }

  /** No entry behind it has the URL. */
  lemma {:induction false} LastIsLast(entries: seq<Candidate>, url: SourceUrl)
    ensures LastWith(entries, url).None? <==> forall c :: c in entries ==> c.url != url
    ensures LastWith(entries, url).Some? ==>
      exists i :: 0 <= i < |entries| && entries[i] == LastWith(entries, url).value && entries[i].url == url
                  && forall j :: i < j < |entries| ==> entries[j].url != url
  {
    if entries != [] {
      var front := entries[..|entries| - 1];
      LastIsLast(front, url);
      assert entries == front + [entries[|entries| - 1]];
    }
  }

  /** `found[url] = candidate` in a dictionary that keeps the order of first insertion. */
  method Collect(entries: seq<Candidate>) returns (found: seq<Candidate>)
    ensures DistinctUrls(found)
    ensures forall c :: c in found <==> LastWith(entries, c.url) == Some(c)
  {
    hide LastWith, DistinctUrls;
    found := [];
    NothingFound();
    for i := 0 to |entries|
      invariant IsFound(found, entries[..i])
    {
      var c := entries[i];
      var j := IndexOf(found, c.url);
      OneMoreEntry(found, entries, i, j);
      found := if j == |found| then found + [c] else found[j := c];
    }
    assert entries[..|entries|] == entries;
  }

  /** One candidate per URL of the entries, the last one. */
  ghost predicate IsFound(found: seq<Candidate>, entries: seq<Candidate>) {
    DistinctUrls(found) && forall c :: c in found <==> LastWith(entries, c.url) == Some(c)
  }

  lemma NothingFound()
    ensures IsFound([], [])
  {
  }

  lemma OneMoreEntry(found: seq<Candidate>, entries: seq<Candidate>, i: nat, j: nat)
    requires i < |entries| && IsFound(found, entries[..i])
    requires j <= |found| && (j < |found| ==> found[j].url == entries[i].url)
    requires forall k :: 0 <= k < j ==> found[k].url != entries[i].url
    ensures var c := entries[i];
      IsFound(if j == |found| then found + [c] else found[j := c], entries[..i + 1])
  {
    var c := entries[i];
    var after := if j == |found| then found + [c] else found[j := c];
    ReplacedIsDistinct(found, c, j);
    hide DistinctUrls;
    forall d ensures d in after <==> LastWith(entries[..i + 1], d.url) == Some(d) {
      Replaced(found, c, j, d);
      LastWithSnoc(entries, i, d.url);
    }
  }

  lemma LastWithSnoc(entries: seq<Candidate>, i: nat, url: SourceUrl)
    requires i < |entries|
    ensures LastWith(entries[..i + 1], url) ==
      if entries[i].url == url then Some(entries[i]) else LastWith(entries[..i], url)
  {
    assert entries[..i + 1][..i] == entries[..i];
  }

  lemma ReplacedIsDistinct(before: seq<Candidate>, c: Candidate, j: nat)
    requires DistinctUrls(before) && j <= |before| && (j < |before| ==> before[j].url == c.url)
    requires forall k :: 0 <= k < j ==> before[k].url != c.url
    ensures DistinctUrls(if j == |before| then before + [c] else before[j := c])
  {
  }

  method IndexOf(found: seq<Candidate>, url: SourceUrl) returns (j: nat)
    ensures j <= |found| && (j < |found| ==> found[j].url == url)
    ensures forall k :: 0 <= k < j ==> found[k].url != url
  {
    for k := 0 to |found|
      invariant forall l :: 0 <= l < k ==> found[l].url != url
    {
      if found[k].url == url {
        return k;
      }
    }
    return |found|;
  }

  lemma Replaced(before: seq<Candidate>, c: Candidate, j: nat, d: Candidate)
    requires DistinctUrls(before) && j <= |before| && (j < |before| ==> before[j].url == c.url)
    requires forall k :: 0 <= k < j ==> before[k].url != c.url
    ensures var found := if j == |before| then before + [c] else before[j := c];
      d in found <==> if d.url == c.url then d == c else d in before
  {
    var found := if j == |before| then before + [c] else before[j := c];
    assert found[j] == c;
    if d in before && d.url != c.url {
      var k :| 0 <= k < |before| && before[k] == d;
      assert found[k] == d;
    }
  }

  // ---- the sync -------------------------------------------------------------------

  class SkillRecord {
    var name: string
    var description: Option<string>
    var category: Option<string>
    var risk: Option<string>
    var source: Option<string>
    var metadata: Metadata

    function View(): SkillFields
      reads this
    {
      SkillFields(name, description, category, risk, source, metadata)
    }

    constructor (candidate: Candidate)
      ensures View() == candidate.Wanted()
      ensures name == candidate.name && description == candidate.description && category == candidate.category
      ensures risk == candidate.risk && source == candidate.source
      ensures metadata == if candidate.metadata.Some? then candidate.metadata.value else "{}"
    {
      name, description, category := candidate.name, candidate.description, candidate.category;
      risk, source, metadata := candidate.risk, candidate.source, candidate.Wanted().metadata;
    }

    /** Copies the fields that differ and tells whether there was one. */
    method ApplyUpdates(candidate: Candidate) returns (changed: bool)
      modifies this
      ensures View() == candidate.Wanted()
      ensures changed <==> old(View()) != candidate.Wanted()
      ensures name == candidate.name && description == candidate.description && category == candidate.category
      ensures risk == candidate.risk && source == candidate.source
      ensures metadata == if candidate.metadata.Some? then candidate.metadata.value else "{}"
      ensures !changed ==> unchanged(this)
    {
      changed := false;
      if name != candidate.name {
        name := candidate.name;
        changed := true;
      }
      if description != candidate.description {
        description := candidate.description;
        changed := true;
      }
      if category != candidate.category {
        category := candidate.category;
        changed := true;
      }
      if risk != candidate.risk {
        risk := candidate.risk;
        changed := true;
      }
      if source != candidate.source {
        source := candidate.source;
        changed := true;
      }
      var wanted := if candidate.metadata.Some? then candidate.metadata.value else "{}";
      if metadata != wanted {
        metadata := wanted;
        changed := true;
      }
    }
  }

  class Marketplace {
    var rows: map<SourceUrl, SkillRecord>

    ghost predicate Valid()
      reads this
    {
      forall u, v :: u in rows && v in rows && u != v ==> rows[u] != rows[v]
    }

    ghost function View(): Catalogue
      reads this, rows.Values
    {
      map u | u in rows :: rows[u].View()
    }

    constructor ()
      ensures Valid() && View() == map[]
    {
      rows := map[];
    }

    /** Adds the skills that are new and updates the others in place. */
    method Sync(discovered: seq<Candidate>) returns (created: nat, updated: nat)
      requires Valid() && DistinctUrls(discovered)
      modifies this, rows.Values
      ensures Valid() && fresh(rows.Values - old(rows.Values))
      ensures View() == Upserted(old(View()), discovered)
      ensures created == Created(old(View()), discovered) && updated == Updated(old(View()), discovered)
    {
      hide Upserted, Created, Updated, Urls, DistinctUrls;
      ghost var before := View();
      var existing := rows;
      NothingToDo(before, []);
      created, updated := 0, 0;
      for i := 0 to |discovered|
        invariant Valid() && fresh(rows.Values - existing.Values)
        invariant forall u :: u in existing ==> u in rows && rows[u] == existing[u]
        invariant View() == Upserted(before, discovered[..i])
        invariant created == Created(before, discovered[..i]) && updated == Updated(before, discovered[..i])
      {
        UpsertStep(before, discovered, i);
        assert rows.Keys == View().Keys;
        hide Valid, View;
        var isNew, changed := UpsertOne(existing, discovered[i]);
        if isNew {
          created := created + 1;
        } else if changed {
          updated := updated + 1;
        }
      }
      assert discovered[..|discovered|] == discovered;
    }

    method UpsertOne(existing: map<SourceUrl, SkillRecord>, candidate: Candidate) returns (isNew: bool, changed: bool)
      requires Valid()
      requires forall u :: u in existing ==> u in rows && rows[u] == existing[u]
      requires candidate.url in rows ==> candidate.url in existing
      modifies this, rows.Values
      ensures Valid() && fresh(rows.Values - old(rows.Values))
      ensures forall u :: u in existing ==> u in rows && rows[u] == existing[u]
      ensures View() == old(View())[candidate.url := candidate.Wanted()]
      ensures isNew <==> candidate.url !in existing
      ensures changed <==> candidate.url in existing && old(View())[candidate.url] != candidate.Wanted()
    {
      isNew, changed := candidate.url !in existing, false;
      if isNew {
        AddRecord(candidate);
      } else {
        changed := ChangeRecord(candidate);
      }
    }

    method AddRecord(candidate: Candidate)
      requires Valid() && candidate.url !in rows
      modifies this
      ensures Valid() && fresh(rows.Values - old(rows.Values))
      ensures forall u :: u in old(rows) ==> u in rows && rows[u] == old(rows[u])
      ensures View() == old(View())[candidate.url := candidate.Wanted()]
    {
      var record := new SkillRecord(candidate);
      rows := rows[candidate.url := record];
    }

    method ChangeRecord(candidate: Candidate) returns (changed: bool)
      requires Valid() && candidate.url in rows
      modifies rows.Values
      ensures Valid() && rows == old(rows)
      ensures View() == old(View())[candidate.url := candidate.Wanted()]
      ensures changed <==> old(View())[candidate.url] != candidate.Wanted()
    {
      changed := rows[candidate.url].ApplyUpdates(candidate);
    }
  }

  lemma {:induction false} UrlNotBefore(s: seq<Candidate>, url: SourceUrl)
    requires forall c :: c in s ==> c.url != url
    ensures url !in Urls(s)
  {
    if s != [] {
      UrlNotBefore(s[..|s| - 1], url);
    }
  }

  lemma UrlsSnoc(s: seq<Candidate>, i: nat)
    requires DistinctUrls(s) && i < |s|
    ensures Urls(s[..i + 1]) == Urls(s[..i]) + {s[i].url} && s[i].url !in Urls(s[..i])
    ensures DistinctUrls(s[..i])
  {
    assert s[..i + 1][..i] == s[..i];
    forall c | c in s[..i] ensures c.url != s[i].url {
      var k :| 0 <= k < i && s[..i][k] == c;
    }
    UrlNotBefore(s[..i], s[i].url);
  }

  // ---- what a sync amounts to --------------------------------------------------------

  lemma {:induction false} UpsertedAt(catalogue: Catalogue, discovered: seq<Candidate>, u: SourceUrl)
    requires DistinctUrls(discovered)
    ensures var after := Upserted(catalogue, discovered);
      && (u in after <==> u in catalogue || u in Urls(discovered))
      && (u in catalogue && u !in Urls(discovered) ==> after[u] == catalogue[u])
      && (forall c :: c in discovered && c.url == u ==> u in after && after[u] == c.Wanted())
  {
    if discovered != [] {
      var n := |discovered| - 1;
      assert discovered[..n + 1] == discovered;
      UrlsSnoc(discovered, n);
      hide DistinctUrls, Urls;
      UpsertedAt(catalogue, discovered[..n], u);
      assert discovered == discovered[..n] + [discovered[n]];
    }
  }

  /** The URLs are the old ones and the discovered ones; discovered URLs hold
      their candidate's fields and the others what they held before. */
  lemma UpsertIs(catalogue: Catalogue, discovered: seq<Candidate>)
    requires DistinctUrls(discovered)
    ensures var after := Upserted(catalogue, discovered);
      && after.Keys == catalogue.Keys + Urls(discovered)
      && (forall c :: c in discovered ==>
            var row := after[c.url];
            && row.name == c.name && row.description == c.description && row.category == c.category
            && row.risk == c.risk && row.source == c.source
            && row.metadata == (if c.metadata.Some? then c.metadata.value else "{}"))
      && (forall c :: c in discovered ==> after[c.url] == c.Wanted())
      && (forall u :: u in catalogue && u !in Urls(discovered) ==> after[u] == catalogue[u])
  {
    hide Upserted, Urls, DistinctUrls;
    forall u ensures u in Upserted(catalogue, discovered) <==> u in catalogue || u in Urls(discovered) {
      UpsertedAt(catalogue, discovered, u);
    }
    forall c | c in discovered ensures c.url in Upserted(catalogue, discovered)
      && Upserted(catalogue, discovered)[c.url] == c.Wanted()
    {
      UpsertedAt(catalogue, discovered, c.url);
    }
    forall u | u in catalogue && u !in Urls(discovered) ensures Upserted(catalogue, discovered)[u] == catalogue[u] {
      UpsertedAt(catalogue, discovered, u);
    }
  }

  /** One more candidate: its URL is as it was before the sync. */
  lemma UpsertStep(catalogue: Catalogue, discovered: seq<Candidate>, i: nat)
    requires DistinctUrls(discovered) && i < |discovered|
    ensures var c, done, more := discovered[i], discovered[..i], discovered[..i + 1];
      && Upserted(catalogue, more) == Upserted(catalogue, done)[c.url := c.Wanted()]
      && (c.url in Upserted(catalogue, done) <==> c.url in catalogue)
      && (c.url in catalogue ==> Upserted(catalogue, done)[c.url] == catalogue[c.url])
      && Created(catalogue, more) == Created(catalogue, done) + (if c.url in catalogue then 0 else 1)
      && Updated(catalogue, more) == Updated(catalogue, done) + (if c.url in catalogue
        && catalogue[c.url] != c.Wanted() then 1 else 0)
  {
    assert discovered[..i + 1][..i] == discovered[..i];
    UrlsSnoc(discovered, i);
    hide Urls, DistinctUrls;
    UpsertIs(catalogue, discovered[..i]);
  }

  lemma {:induction false} CountsFit(catalogue: Catalogue, discovered: seq<Candidate>)
    ensures Created(catalogue, discovered) + Updated(catalogue, discovered) <= |discovered|
  {
    if discovered != [] {
      CountsFit(catalogue, discovered[..|discovered| - 1]);
    }
  }

  lemma {:induction false} CreatedAreNew(catalogue: Catalogue, discovered: seq<Candidate>)
    requires DistinctUrls(discovered)
    ensures Created(catalogue, discovered) == |Urls(discovered) - catalogue.Keys|
  {
    if discovered != [] {
      var n := |discovered| - 1;
      assert discovered[..n + 1] == discovered;
      UrlsSnoc(discovered, n);
      hide Urls, DistinctUrls;
      CreatedAreNew(catalogue, discovered[..n]);
      OneMoreUrl(Urls(discovered[..n]), discovered[n].url, catalogue.Keys);
    }
  }

  lemma OneMoreUrl(urls: set<SourceUrl>, url: SourceUrl, known: set<SourceUrl>)
    requires url !in urls
    ensures |urls + {url} - known| == |urls - known| + if url in known then 0 else 1
  {
    if url in known {
      assert urls + {url} - known == urls - known;
    } else {
      assert urls + {url} - known == (urls - known) + {url};
    }
  }

  /** The discovered URLs whose fields in the catalogue are not their candidate's. */
  function Stale(catalogue: Catalogue, discovered: seq<Candidate>): set<SourceUrl> {
    if discovered == [] then {}
    else
      var last := discovered[|discovered| - 1];
      Stale(catalogue, discovered[..|discovered| - 1])
      + if last.url in catalogue && catalogue[last.url] != last.Wanted() then {last.url} else {}
  }

  lemma {:induction false} StaleAreUrls(catalogue: Catalogue, discovered: seq<Candidate>)
    requires DistinctUrls(discovered)
    ensures Stale(catalogue, discovered) <= Urls(discovered)
    ensures forall c :: c in discovered ==>
      (c.url in Stale(catalogue, discovered) <==> c.url in catalogue && catalogue[c.url] != c.Wanted())
  {
    if discovered != [] {
      var n := |discovered| - 1;
      assert discovered[..n + 1] == discovered;
      UrlsSnoc(discovered, n);
      hide DistinctUrls, Urls;
      StaleAreUrls(catalogue, discovered[..n]);
      assert discovered == discovered[..n] + [discovered[n]];
    }
  }

  lemma {:induction false} UpdatedAreStale(catalogue: Catalogue, discovered: seq<Candidate>)
    requires DistinctUrls(discovered)
    ensures Updated(catalogue, discovered) == |Stale(catalogue, discovered)|
    ensures forall c :: c in discovered ==>
      (c.url in Stale(catalogue, discovered) <==> c.url in catalogue && catalogue[c.url] != c.Wanted())
  {
    StaleAreUrls(catalogue, discovered);
    if discovered != [] {
      var n := |discovered| - 1;
      assert discovered[..n + 1] == discovered;
      UrlsSnoc(discovered, n);
      StaleAreUrls(catalogue, discovered[..n]);
      hide DistinctUrls, Urls;
      UpdatedAreStale(catalogue, discovered[..n]);
    }
  }

  lemma {:induction false} NothingToDo(catalogue: Catalogue, discovered: seq<Candidate>)
    requires forall c :: c in discovered ==> c.url in catalogue && catalogue[c.url] == c.Wanted()
    ensures Upserted(catalogue, discovered) == catalogue
    ensures Created(catalogue, discovered) == 0 && Updated(catalogue, discovered) == 0
  {
    if discovered != [] {
      NothingToDo(catalogue, discovered[..|discovered| - 1]);
    }
  }

  /** A second identical sync creates and updates nothing. */
  lemma SecondSyncIsQuiet(catalogue: Catalogue, discovered: seq<Candidate>)
    requires DistinctUrls(discovered)
    ensures var after := Upserted(catalogue, discovered);
      && Upserted(after, discovered) == after
      && Created(after, discovered) == 0 && Updated(after, discovered) == 0
  {
    UpsertIs(catalogue, discovered);
    assert forall c :: c in discovered ==> c.url in Urls(discovered);
    NothingToDo(Upserted(catalogue, discovered), discovered);
  }
}
