/** The in-memory stores, and their agreement with the durable ones. */
module MemoryStores {
  import opened Types
  import opened Trust
  import opened Protect
  import opened FileSystem
  import opened FileStores

  /** The two tables of the in-memory identity store. */
  datatype Tables = Tables(retained: map<Site, Identity>, replaced: map<Site, seq<Key>>)

  function ReplacedKeys(t: Tables, site: Site): seq<Key> {
    if site in t.replaced then t.replaced[site] else []
  }

  function InMemory(t: Tables, site: Site): Option<SiteRecord> {
    if site in t.retained then Some(SiteRecord(t.retained[site], ReplacedKeys(t, site))) else None
  }

  /** Only sites with a retained identity have replaced keys. */
  ghost predicate NoOrphans(t: Tables) {
    t.replaced.Keys <= t.retained.Keys
  }

  class MemoryIdentityStore {
    var tables: Tables

    constructor ()
      ensures NoOrphans(tables) && forall site :: InMemory(tables, site) == None
    {
      tables := Tables(map[], map[]);
    }

    method LoadIdentity(site: Site) returns (r: Option<Identity>)
      ensures r == IdentityOf(InMemory(tables, site))
    {
      r := if site in tables.retained then Some(tables.retained[site]) else None;
    }

    method Insert(site: Site, id: Identity)
      modifies this
      ensures tables == old(tables).(retained := old(tables).retained[site := id])
    {
      tables := tables.(retained := tables.retained[site := id]);
    }

    /** The same record change as the seam promises, as long as no site has replaced
        keys without a retained identity; and that stays so. */
    method Apply(site: Site, intent: Intent)
      requires NoOrphans(tables)
      modifies this
      ensures NoOrphans(tables)
      ensures InMemory(tables, site) == ApplyIntent(old(InMemory(tables, site)), intent)
      ensures forall s :: s != site ==> InMemory(tables, s) == old(InMemory(tables, s))
      ensures tables == TablesAfter(old(tables), site, intent)
    {
      match intent {
        case NoIntent =>
        case RecordObservation(k) =>
          if site !in tables.retained {
            Insert(site, Identity(k, Observed));
          }
        case PinIdentity(k) =>
          if site in tables.retained {
            if tables.retained[site].provenance == Observed {
              Insert(site, Identity(k, Pinned));
            }
          } else {
            Insert(site, Identity(k, Pinned));
          }
        case MarkExternallyVerified(k) =>
          Insert(site, Identity(k, Verified));
        case ReplaceIdentity(k, prior, verified) =>
          tables := tables.(replaced := tables.replaced[site := [prior] + ReplacedKeys(tables, site)]);
          Insert(site, Identity(k, if verified then Verified else Pinned));
      }
    }
  }

  /** What `Apply` makes of the two tables, whatever they hold. */
  function TablesAfter(t: Tables, site: Site, intent: Intent): Tables {
    match intent
    case NoIntent => t
    case RecordObservation(k) =>
      if site in t.retained then t else t.(retained := t.retained[site := Identity(k, Observed)])
    case PinIdentity(k) =>
      if site in t.retained && t.retained[site].provenance != Observed then t
      else t.(retained := t.retained[site := Identity(k, Pinned)])
    case MarkExternallyVerified(k) => t.(retained := t.retained[site := Identity(k, Verified)])
    case ReplaceIdentity(k, prior, verified) =>
      Tables(t.retained[site := Identity(k, if verified then Verified else Pinned)],
             t.replaced[site := [prior] + ReplacedKeys(t, site)])
  }

  /** The two tables stand for one record exactly when the site has no orphaned
      replaced keys: otherwise the next first contact resurrects them. */
  lemma OrphansResurface(t: Tables, site: Site)
    ensures (forall intent :: InMemory(TablesAfter(t, site, intent), site) == ApplyIntent(InMemory(t, site), intent))
            <==> site in t.retained || ReplacedKeys(t, site) == []
  {
    if site !in t.retained && ReplacedKeys(t, site) != [] {
      var k := ReplacedKeys(t, site)[0];
      var intent := MarkExternallyVerified(k);
      assert InMemory(TablesAfter(t, site, intent), site).value.replaced != ApplyIntent(InMemory(t, site), intent).value.replaced;
    }
  }

  // ----- Both stores over any sequence of calls -----

  /** A call, and whether the file store's reported success. */
  datatype Call = Call(site: Site, intent: Intent, ok: bool)

  /** The tables after the calls that succeeded. */
  function MemoryRun(t: Tables, calls: seq<Call>): Tables {
    if calls == [] then t
    else
      var last, earlier := calls[|calls| - 1], MemoryRun(t, calls[..|calls| - 1]);
      if last.ok then TablesAfter(earlier, last.site, last.intent) else earlier
  }

  /** What `FileIdentityStore.Apply` promises of one call. */
  ghost predicate Called(vault: Vault, before: Files, after: Files, call: Call) {
    if call.ok then AppliedAt(vault, before, after, call.site, call.intent)
    else Records(after) == Records(before)
  }

  /** The durable and the in-memory store hold the same records for every site. */
  ghost predicate Agree(vault: Vault, files: Files, t: Tables) {
    NoOrphans(t) && forall site :: SiteAt(vault, files, site) == Ok(InMemory(t, site))
  }

  /** Store refinement: starting in agreement (with any mix of version 1 and version
      2 files), after the first `m` calls of any sequence over all sites, of which
      any may fail, the file store holds the identities and replaced keys that the
      memory store holds after those that succeeded. */
  lemma {:induction false} StoresStayRelated(vault: Vault, snapshots: seq<Files>, t: Tables, calls: seq<Call>, m: nat)
    requires |snapshots| == |calls| + 1 && m <= |calls|
    requires Agree(vault, snapshots[0], t)
    requires forall i :: 0 <= i < |calls| ==> Called(vault, snapshots[i], snapshots[i + 1], calls[i])
    ensures Agree(vault, snapshots[m], MemoryRun(t, calls[..m]))
  {
    hide Agree, TablesAfter, Called;
    if m > 0 {
      StoresStayRelated(vault, snapshots, t, calls, m - 1);
      assert calls[..m][..m - 1] == calls[..m - 1];
      AgreeStep(vault, snapshots[m - 1], snapshots[m], MemoryRun(t, calls[..m - 1]), calls[m - 1]);
    }
  }

  lemma AgreeStep(vault: Vault, before: Files, after: Files, t: Tables, call: Call)
    requires Agree(vault, before, t) && Called(vault, before, after, call)
    ensures Agree(vault, after, if call.ok then TablesAfter(t, call.site, call.intent) else t)
  {
    hide SiteAt, HistoryIn;
    if call.ok {
      OrphansResurface(t, call.site);
      var t' := TablesAfter(t, call.site, call.intent);
      assert forall s :: s != call.site ==> InMemory(t', s) == InMemory(t, s);
    } else {
      ViewsReadRecords(vault, before, after);
    }
  }

  // ----- Histories -----

  class MemoryHistoryStore {
    var table: map<Key, seq<Record>>

    constructor ()
      ensures table == map[]
    {
      table := map[];
    }

    method LoadHistory(publisher: Key) returns (rs: seq<Record>)
      ensures rs == InTable(table, publisher)
    {
      rs := if publisher in table then table[publisher] else [];
    }

    method AppendRecord(publisher: Key, record: Record)
      modifies this
      ensures InTable(table, publisher) == [record] + InTable(old(table), publisher)
      ensures forall k :: k != publisher ==> InTable(table, k) == InTable(old(table), k)
    {
      table := table[publisher := [record] + (if publisher in table then table[publisher] else [])];
    }
  }

  function InTable(table: map<Key, seq<Record>>, publisher: Key): seq<Record> {
    if publisher in table then table[publisher] else []
  }

  /** What a publisher's history holds after a list of (publisher, record) appends:
      its own records, the last appended first. */
  function AppendedTo(publisher: Key, appends: seq<(Key, Record)>): seq<Record> {
    if appends == [] then []
    else
      var last, earlier := appends[|appends| - 1], AppendedTo(publisher, appends[..|appends| - 1]);
      if last.0 == publisher then [last.1] + earlier else earlier
  }

  /** Durable histories: after any first `m` successful appends, over any publishers
      and any number of reopenings with the same key, loading a publisher's history
      gives its appended records in reverse order, before what was there at first. */
  lemma {:induction false} AppendsReload(vault: Vault, snapshots: seq<Files>, appends: seq<(Key, Record)>, publisher: Key, m: nat)
    requires |snapshots| == |appends| + 1 && m <= |appends|
    requires forall i :: 0 <= i < |appends| ==> AppendedInTurn(vault, snapshots, appends, i)
    requires HistoryIn(vault, snapshots[0], publisher).Ok?
    ensures HistoryIn(vault, snapshots[m], publisher)
              == Ok(AppendedTo(publisher, appends[..m]) + HistoryIn(vault, snapshots[0], publisher).value)
  {
    hide HistoryIn, AppendedAt, AppendedTo;
    var h := HistoryIn(vault, snapshots[0], publisher).value;
    if m == 0 {
      NothingAppended(publisher, h);
      assert appends[..m] == [];
    } else {
      AppendsReload(vault, snapshots, appends, publisher, m - 1);
      assert AppendedInTurn(vault, snapshots, appends, m - 1);
      var earlier, last := AppendedTo(publisher, appends[..m - 1]), appends[m - 1];
      AppendedToSnoc(publisher, appends, m);
      AppendStep(vault, snapshots[m - 1], snapshots[m], last.0, last.1, publisher);
      PrependAssociates(last.1, earlier, h);
    }
  }

  /** What `FileHistoryStore.AppendRecord` promises of call `i`. */
  ghost predicate AppendedInTurn(vault: Vault, snapshots: seq<Files>, appends: seq<(Key, Record)>, i: nat)
    requires i < |appends| == |snapshots| - 1
  {
    AppendedAt(vault, snapshots[i], snapshots[i + 1], appends[i].0, appends[i].1)
  }

  lemma PrependAssociates(r: Record, a: seq<Record>, b: seq<Record>)
    ensures [r] + (a + b) == [r] + a + b
  {
  }

  lemma NothingAppended(publisher: Key, h: seq<Record>)
    ensures AppendedTo(publisher, []) + h == h
  {
  }

  lemma AppendedToSnoc(publisher: Key, appends: seq<(Key, Record)>, m: nat)
    requires 0 < m <= |appends|
    ensures var last, earlier := appends[m - 1], AppendedTo(publisher, appends[..m - 1]);
            AppendedTo(publisher, appends[..m]) == if last.0 == publisher then [last.1] + earlier else earlier
  {
    assert appends[..m][..m - 1] == appends[..m - 1];
  }

  lemma AppendStep(vault: Vault, before: Files, after: Files, publisher: Key, r: Record, k: Key)
    requires AppendedAt(vault, before, after, publisher, r) && HistoryIn(vault, before, k).Ok?
    ensures HistoryIn(vault, after, k) ==
              Ok(if k == publisher then [r] + HistoryIn(vault, before, k).value else HistoryIn(vault, before, k).value)
  {
  }
}
