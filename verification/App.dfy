/** The running shell over the durable stores, proved to move as the state
    machine of module Client does. */
module App {
  import opened Types
  import opened Trust
  import opened Client
  import opened Encoding
  import opened Dto
  import opened Protect
  import opened FileSystem
  import opened FileStores

  /** Every file that can be read says what this disk says. Nothing is asked of a
      file that does not verify or decode. */
  ghost predicate Holds(vault: Vault, files: Files, d: Disk) {
    && (forall site :: SiteAt(vault, files, site).Ok? ==> SiteAt(vault, files, site).value == RecordAt(d, site))
    && (forall key :: HistoryIn(vault, files, key).Ok? ==> HistoryIn(vault, files, key).value == HistoryAt(d, key))
  }

  /** ... and the files hold the store's key. */
  ghost predicate Shows(vault: Vault, files: Files, d: Disk) {
    Lookup(Records(files), KEY_PATH) == Some(vault.key) && Holds(vault, files, d)
  }

  /** Not an envelope the key holder writes for any payload. */
  ghost predicate NeverSealed(vault: Vault, junk: Bytes) {
    forall payload :: vault.format.envelopeFromJson(junk) !=
      Some(Envelope(ENVELOPE_V, Base64Encode(payload), Base64Encode(vault.format.mac(vault.key, payload))))
  }

  /** Tampering is contained: a file overwritten with something the key holder never
      sealed reads as an error, and everything else goes on showing the same disk. */
  lemma TamperingIsContained(vault: Vault, files: Files, d: Disk, p: Path, junk: Bytes)
    requires Shows(vault, files, d) && p.dir != Base && NeverSealed(vault, junk)
    ensures var after := files[p := junk];
            && Shows(vault, after, d)
            && (forall site :: SiteAt(vault, after, site)
                  == if IdentityPath(site) == p then Err(Corrupt) else SiteAt(vault, files, site))
            && (forall key :: HistoryIn(vault, after, key)
                  == if HistoryPath(key) == p then Err(Corrupt) else HistoryIn(vault, files, key))
  {
    hide Unseal, ToSiteRecord, IntoRecords;
    NeverSealedIsCorrupt(vault, junk);
    var after := files[p := junk];
    assert forall q: Path :: q != p ==> Lookup(after, q) == Lookup(files, q);
    assert Lookup(Records(after), KEY_PATH) == Lookup(Records(files), KEY_PATH);
  }

  lemma NeverSealedIsCorrupt(vault: Vault, junk: Bytes)
    requires NeverSealed(vault, junk)
    ensures Unseal(vault, junk) == Err(Corrupt)
  {
    var payload := Unseal(vault, junk);
    if payload.Ok? {
      UnsealsOnlyWhatWasSealed(vault, junk, payload.value);
      assert false;
    }
  }

  /** The site written to must be readable: a verification or a replacement also
      overwrites a file whose shape makes no sense. */
  lemma ShowsApplied(vault: Vault, before: Files, after: Files, d: Disk, site: Site, intent: Intent)
    requires Shows(vault, before, d) && AppliedAt(vault, before, after, site, intent)
    requires SiteAt(vault, before, site).Ok?
    ensures Shows(vault, after, WithIntent(d, site, intent)) && SiteAt(vault, after, site).Ok?
  {
    hide SiteAt, HistoryIn;
  }

  lemma ShowsAppended(vault: Vault, before: Files, after: Files, d: Disk, key: Key, r: Record)
    requires Shows(vault, before, d) && AppendedAt(vault, before, after, key, r)
    ensures Shows(vault, after, WithRecord(d, key, r))
  {
    hide SiteAt, HistoryIn;
  }

  lemma ShowsRecords(vault: Vault, before: Files, after: Files, d: Disk)
    requires Shows(vault, before, d) && Records(after) == Records(before)
    ensures Shows(vault, after, d)
    ensures forall site :: SiteAt(vault, after, site) == SiteAt(vault, before, site)
  {
    ViewsReadRecords(vault, before, after);
  }

  /** Every disk state `more` adds to `past` is one the machine's `Persist` can be
      caught in: untouched, with the identity written, or with the record too. */
  ghost predicate CaughtIn(vault: Vault, past: seq<Files>, more: seq<Files>,
                           d: Disk, site: Site, intent: Intent, record: Option<Record>) {
    && |past| <= |more| && more[..|past|] == past
    && forall k :: |past| <= k < |more| ==>
         || Shows(vault, more[k], Persist(d, site, intent, record, Io(false, false, false, true)))
         || Shows(vault, more[k], Persist(d, site, intent, record, Io(true, false, false, true)))
         || Shows(vault, more[k], Persist(d, site, intent, record, Io(true, true, false, true)))
  }

  /** The states `more` adds to `past` all show one of two disks. */
  ghost predicate OneOf(vault: Vault, past: seq<Files>, more: seq<Files>, da: Disk, db: Disk) {
    && |past| <= |more| && more[..|past|] == past
    && forall k :: |past| <= k < |more| ==> Shows(vault, more[k], da) || Shows(vault, more[k], db)
  }

  lemma PassedThroughShows(vault: Vault, past: seq<Files>, more: seq<Files>, a: Files, b: Files, da: Disk, db: Disk)
    requires PassedThrough(past, more, a, b) && Shows(vault, a, da) && Shows(vault, b, db)
    ensures OneOf(vault, past, more, da, db)
  {
    forall k | |past| <= k < |more| ensures Shows(vault, more[k], da) || Shows(vault, more[k], db) {
      if Records(more[k]) == Records(a) {
        ShowsRecords(vault, a, more[k], da);
      } else {
        ShowsRecords(vault, b, more[k], db);
      }
    }
  }

  /** The identity write, then the history write. */
  lemma CaughtInEither(vault: Vault, s0: seq<Files>, s1: seq<Files>, s2: seq<Files>,
                       d: Disk, site: Site, intent: Intent, record: Option<Record>)
    requires OneOf(vault, s0, s1, d, WithIntent(d, site, intent))
    requires OneOf(vault, s1, s2, WithIntent(d, site, intent), Persist(d, site, intent, record, Io(true, true, false, true)))
    ensures CaughtIn(vault, s0, s2, d, site, intent, record)
  {
    var d1 := WithIntent(d, site, intent);
    assert Persist(d, site, intent, record, Io(false, false, false, true)) == d;
    assert Persist(d, site, intent, record, Io(true, false, false, true)) == d1;
    assert s2[..|s0|] == s1[..|s0|];
    forall k | |s0| <= k < |s2|
      ensures Shows(vault, s2[k], d) || Shows(vault, s2[k], d1)
              || Shows(vault, s2[k], Persist(d, site, intent, record, Io(true, true, false, true)))
    {
      if k < |s1| { assert s2[k] == s1[k]; }
    }
  }

  /** What a document was loaded with asks for its own publisher. */
  lemma OpensForPublisher(core: Core, d: Disk, bytes: Bytes, content: Option<Bytes>, site: Site, now: int)
    ensures var l := LoadFrom(core, d, bytes, content, site, now);
            l.Some? && !l.value.initialIntent.NoIntent? ==> IntentKey(l.value.initialIntent) == l.value.publisher
  {
  }

  lemma IdentityReadable(vault: Vault, files: Files, site: Site)
    requires SiteAt(vault, files, site).Ok?
    ensures IdentityDtoAt(vault, files, site).Ok?
  {
  }

  lemma ReloadLeavesDisk(d: Disk, site: Site, intent: Intent, record: Option<Record>, io: Io, reloaded: bool)
    ensures Persist(d, site, intent, record, io.(reloaded := reloaded)) == Persist(d, site, intent, record, io)
  {
  }

  /** Nothing but the disk can keep a site's record and a publisher's history from
      being written: the history file, if there, decodes, and no temporary name of
      theirs is taken. */
  ghost predicate Writable(vault: Vault, files: Files, site: Site, publisher: Key) {
    && HistoryDtoAt(vault, files, publisher).Ok?
    && !StrayTemp(files, IdentityPath(site)) && !StrayTemp(files, HistoryPath(publisher))
  }

  class Shell {
    const core: Core
    const root: StoreRoot
    const identities: FileIdentityStore
    const histories: FileHistoryStore
    var loaded: Loaded
    var pinPrompt: bool
    var mismatchPrompt: bool
    /** The machine state this shell stands for. */
    ghost var state: State

    function PromptShown(): Prompt
      reads this
    {
      if pinPrompt then Pinning else if mismatchPrompt then Mismatch else NoPrompt
    }

    ghost predicate Wired()
      reads this
    {
      identities.root == root && histories.root == root && Lossless(root.vault.format)
    }

    /** The files show `d`, and the file of the loaded site can be read. */
    ghost predicate Backed(d: Disk)
      reads this, root.volume
    {
      && Wired()
      && Shows(root.vault, root.volume.files, d)
      && SiteAt(root.vault, root.volume.files, loaded.site).Ok?
    }

    ghost predicate Valid()
      reads this, root.volume
    {
      && Backed(state.disk)
      && state.session == Some(Session(loaded, PromptShown()))
    }

    /** Opens the prompt the load calls for, persists the load-time intent, and
        reloads the snapshot: one `Open` step of the machine. */
    constructor (core: Core, root: StoreRoot, loaded: Loaded, ghost disk: Disk,
                 ghost bytes: Bytes, ghost content: Option<Bytes>, ghost now: int)
      requires Lossless(root.vault.format) && Shows(root.vault, root.volume.files, disk)
      requires SiteAt(root.vault, root.volume.files, loaded.site).Ok?
      requires LoadFrom(core, disk, bytes, content, loaded.site, now) == Some(loaded)
      modifies root.volume
      ensures Valid() && this.core == core && this.root == root
      ensures pinPrompt == (loaded.requiredAction == PinPrompt) && mismatchPrompt == (loaded.requiredAction == MismatchWarning)
      ensures root.volume.ops >= old(root.volume.ops)
      ensures Writable(root.vault, old(root.volume.files), loaded.site, loaded.publisher)
              && !Failed(root.volume.failing, old(root.volume.ops), root.volume.ops) ==>
                state == Step(core, State(disk, None), Open(loaded.site, bytes, content, now, FAULTLESS))
      ensures exists io: Io :: !io.crashed && state == Step(core, State(disk, None), Open(loaded.site, bytes, content, now, io))
      ensures CaughtIn(root.vault, old(root.volume.seen), root.volume.seen, disk, loaded.site, loaded.initialIntent, loaded.record)
    {
      hide SiteAt, HistoryIn, CaughtIn, Client.Persist, Shows, Writable, Failed, Resolve;
      this.core := core;
      this.root := root;
      this.loaded := loaded;
      identities := new FileIdentityStore(root);
      histories := new FileHistoryStore(root);
      pinPrompt := loaded.requiredAction == PinPrompt;
      mismatchPrompt := loaded.requiredAction == MismatchWarning;
      state := State(disk, None);
      new;
      ghost var first := root.volume.ops;
      OpensForPublisher(core, disk, bytes, content, loaded.site, now);
      var _, io := PersistIntent(loaded.initialIntent, disk);
      ReloadLeavesDisk(disk, loaded.site, loaded.initialIntent, loaded.record, io, true);
      ReloadLeavesDisk(disk, loaded.site, loaded.initialIntent, loaded.record, io, false);
      ghost var written := root.volume.ops;
      io := Reload(io, Client.Persist(disk, loaded.site, loaded.initialIntent, loaded.record, io));
      FailedSplits(root.volume.failing, first, written, root.volume.ops);
      state := Step(core, State(disk, None), Open(loaded.site, bytes, content, now, io));
    }

    /** Re-resolves with the user's decision and persists the outcome. */
    method ApplyAndPersist(decision: Decision)
      requires Valid()
      modifies this, root.volume
      ensures Valid() && !pinPrompt && !mismatchPrompt
      ensures root.volume.ops >= old(root.volume.ops)
      ensures Writable(root.vault, old(root.volume.files), old(loaded).site, old(loaded).publisher)
              && !Failed(root.volume.failing, old(root.volume.ops), root.volume.ops) ==>
                state == Settle(old(state).disk, Redecided(old(loaded), decision),
                                Resolve(old(loaded).publisher, old(loaded).retained, decision).intent, NoPrompt, FAULTLESS)
      ensures exists io: Io :: !io.crashed
                && state == Settle(old(state).disk, Redecided(old(loaded), decision),
                                   Resolve(old(loaded).publisher, old(loaded).retained, decision).intent, NoPrompt, io)
                && (Enabled(old(state), Decide(decision, io)) ==>
                      state == Step(core, old(state), Decide(decision, io)))
      ensures CaughtIn(root.vault, old(root.volume.seen), root.volume.seen, old(state).disk, old(loaded).site,
                       Resolve(old(loaded).publisher, old(loaded).retained, decision).intent, old(loaded).record)
    {
      hide SiteAt, HistoryIn, Shows, CaughtIn, Resolve, Writable, Failed;
      ghost var disk, first := state.disk, root.volume.ops;
      IntentNamesPresented(loaded.publisher, loaded.retained, decision);
      var intent := ApplyDecision(decision);
      var _, io := PersistIntent(intent, disk);
      ghost var written := root.volume.ops;
      io := Reload(io, Client.Persist(disk, loaded.site, intent, loaded.record, io));
      FailedSplits(root.volume.failing, first, written, root.volume.ops);
      pinPrompt := false;
      mismatchPrompt := false;
      state := Settle(disk, Redecided(old(loaded), decision), intent, NoPrompt, io);
    }

    method ApplyDecision(decision: Decision) returns (intent: Intent)
      modifies this`loaded
      ensures loaded == Redecided(old(loaded), decision)
      ensures intent == Resolve(old(loaded).publisher, old(loaded).retained, decision).intent
    {
      var resolution := Resolve(loaded.publisher, loaded.retained, decision);
      loaded := loaded.(trustState := resolution.state, requiredAction := resolution.action);
      intent := resolution.intent;
    }

    /** The prompt closes; nothing is persisted. */
    method Decline()
      requires Valid()
      modifies this
      ensures Valid() && loaded == old(loaded) && !pinPrompt && !mismatchPrompt
      ensures Enabled(old(state), Event.Decline) ==> state == Step(core, old(state), Event.Decline)
    {
      pinPrompt := false;
      mismatchPrompt := false;
      state := state.(session := Some(Session(loaded, NoPrompt)));
    }

    /** Applies the intent for the site and then, if there was one, appends the
        manifest's record under the intent's publisher. Wherever it fails or dies,
        the disk is one `Client.Persist` describes; and only the disk, a temporary
        name or an undecodable history can make it fail. */
    method PersistIntent(intent: Intent, ghost disk: Disk) returns (r: StoreResult<()>, ghost io: Io)
      requires Backed(disk)
      modifies root.volume
      ensures !io.crashed
      ensures r.Ok? ==> io.applied && io.appended
      ensures root.volume.ops >= old(root.volume.ops) && io.reloaded
      ensures (intent.NoIntent? || IntentKey(intent) == loaded.publisher)
              && Writable(root.vault, old(root.volume.files), loaded.site, loaded.publisher)
              && !Failed(root.volume.failing, old(root.volume.ops), root.volume.ops) ==>
                r.Ok? && io == FAULTLESS
      ensures Backed(Client.Persist(disk, loaded.site, intent, loaded.record, io))
      ensures CaughtIn(root.vault, old(root.volume.seen), root.volume.seen, disk, loaded.site, intent, loaded.record)
    {
      hide SiteAt, HistoryIn, HistoryDtoAt, Shows, CaughtIn, Failed, StrayTemp;
      ghost var first := root.volume.ops;
      ghost var d1 := WithIntent(disk, loaded.site, intent);
      ghost var d2 := Client.Persist(disk, loaded.site, intent, loaded.record, Io(true, true, false, true));
      r := ApplyIdentity(intent, disk);
      ghost var seen1, applied := root.volume.seen, root.volume.ops;
      if r.Err? {
        io := Io(false, false, true, false);
        CaughtInEither(root.vault, old(root.volume.seen), seen1, seen1, disk, loaded.site, intent, loaded.record);
        return;
      }
      if intent.NoIntent? || loaded.record.None? {
        NoIntentWritesNothing(disk, loaded.site);
        io := Io(true, true, true, false);
        CaughtInEither(root.vault, old(root.volume.seen), seen1, seen1, disk, loaded.site, intent, loaded.record);
        return;
      }
      r := AppendHistory(IntentKey(intent), loaded.record.value, d1);
      FailedSplits(root.volume.failing, first, applied, root.volume.ops);
      io := Io(true, r.Ok?, true, false);
      CaughtInEither(root.vault, old(root.volume.seen), seen1, root.volume.seen, disk, loaded.site, intent, loaded.record);
    }

    method ApplyIdentity(intent: Intent, ghost disk: Disk) returns (r: StoreResult<()>)
      requires Backed(disk)
      modifies root.volume
      ensures Backed(if r.Ok? then WithIntent(disk, loaded.site, intent) else disk)
      ensures root.volume.ops >= old(root.volume.ops)
      ensures r.Err? ==> Failed(root.volume.failing, old(root.volume.ops), root.volume.ops)
                         || StrayTemp(old(root.volume.files), IdentityPath(loaded.site))
      ensures r.Ok? ==> forall p :: StrayTemp(root.volume.files, p) <==> StrayTemp(old(root.volume.files), p)
      ensures r.Ok? ==> forall key :: HistoryDtoAt(root.vault, root.volume.files, key) == HistoryDtoAt(root.vault, old(root.volume.files), key)
      ensures OneOf(root.vault, old(root.volume.seen), root.volume.seen, disk, WithIntent(disk, loaded.site, intent))
    {
      hide SiteAt, HistoryIn, HistoryDtoAt, Shows, Failed, StrayTemp, WithIntent;
      IdentityReadable(root.vault, root.volume.files, loaded.site);
      r := identities.Apply(loaded.site, intent);
      ghost var after := if r.Ok? then WithIntent(disk, loaded.site, intent) else disk;
      if r.Ok? {
        forall p ensures StrayTemp(root.volume.files, p) <==> StrayTemp(old(root.volume.files), p) {
          SameTempsSameStrays(old(root.volume.files), root.volume.files, p);
        }
        ShowsApplied(root.vault, old(root.volume.files), root.volume.files, disk, loaded.site, intent);
      } else {
        ShowsRecords(root.vault, old(root.volume.files), root.volume.files, disk);
      }
      PassedThroughShows(root.vault, old(root.volume.seen), root.volume.seen, old(root.volume.files), root.volume.files, disk, after);
    }

    method AppendHistory(publisher: Key, record: Record, ghost disk: Disk) returns (r: StoreResult<()>)
      requires Backed(disk)
      modifies root.volume
      ensures Backed(if r.Ok? then WithRecord(disk, publisher, record) else disk)
      ensures root.volume.ops >= old(root.volume.ops)
      ensures r.Err? ==> Failed(root.volume.failing, old(root.volume.ops), root.volume.ops)
                         || StrayTemp(old(root.volume.files), HistoryPath(publisher))
                         || HistoryDtoAt(root.vault, old(root.volume.files), publisher).Err?
      ensures OneOf(root.vault, old(root.volume.seen), root.volume.seen, disk, WithRecord(disk, publisher, record))
    {
      r := histories.AppendRecord(publisher, record);
      ghost var after := if r.Ok? then WithRecord(disk, publisher, record) else disk;
      if r.Ok? {
        ShowsAppended(root.vault, old(root.volume.files), root.volume.files, disk, publisher, record);
      } else {
        ShowsRecords(root.vault, old(root.volume.files), root.volume.files, disk);
      }
      PassedThroughShows(root.vault, old(root.volume.seen), root.volume.seen, old(root.volume.files), root.volume.files, disk, after);
    }

    /** Refreshes the snapshot from the store, or leaves it if the store fails. */
    method Reload(ghost io: Io, ghost disk: Disk) returns (ghost io': Io)
      requires Backed(disk)
      modifies this`loaded, root.volume`ops
      ensures root.volume.ops == old(root.volume.ops) + 1
      ensures io'.reloaded <==> !Failed(root.volume.failing, old(root.volume.ops), root.volume.ops)
      ensures io' == io.(reloaded := io'.reloaded)
      ensures loaded == old(loaded).(retained := if io'.reloaded then IdentityOf(RecordAt(disk, old(loaded).site)) else old(loaded).retained)
    {
      OneFailed(root.volume.failing, root.volume.ops);
      var id := identities.LoadIdentity(loaded.site);
      if id.Ok? {
        loaded := loaded.(retained := id.value);
      }
      io' := io.(reloaded := id.Ok?);
    }
  }

  /** What became of a load: a document, a store that could not be read, or a
      manifest that was not accepted. */
  datatype Built = Opened(loaded: Loaded) | StoreFailed | Rejected

  /** Reads the store and loads the manifest. A document is what the machine's
      `LoadFrom` makes of the same disk, and a rejection is its rejection. A store
      that fails or does not verify stops the load; it is never read as first
      contact. */
  method Build(core: Core, root: StoreRoot, bytes: Bytes, content: Option<Bytes>, site: Site, now: int)
    returns (r: Built)
    modifies root.volume`ops
    ensures root.volume.ops >= old(root.volume.ops)
    ensures r.StoreFailed? <==>
              || Failed(root.volume.failing, old(root.volume.ops), root.volume.ops)
              || SiteAt(root.vault, root.volume.files, site).Err?
              || (core.peek(bytes).Some? && HistoryIn(root.vault, root.volume.files, core.peek(bytes).value).Err?)
    ensures !r.StoreFailed? ==>
              && SiteAt(root.vault, root.volume.files, site).Ok?
              && (core.peek(bytes).Some? ==> HistoryIn(root.vault, root.volume.files, core.peek(bytes).value).Ok?)
    ensures r.Opened? ==> r.loaded.site == site
    ensures forall d :: Shows(root.vault, root.volume.files, d) && !r.StoreFailed? ==>
              LoadFrom(core, d, bytes, content, site, now) == if r.Opened? then Some(r.loaded) else None
  {
    hide SiteAt, HistoryIn, VerifyManifest;
    ghost var first := root.volume.ops;
    OneFailed(root.volume.failing, first);
    OneFailed(root.volume.failing, first + 1);
    FailedSplits(root.volume.failing, first, first + 1, first + 2);
    var identities := new FileIdentityStore(root);
    var histories := new FileHistoryStore(root);
    var retained := identities.LoadIdentity(site);
    if retained.Err? {
      return StoreFailed;
    }
    var publisher := core.peek(bytes);
    if publisher.None? {
      return Rejected;
    }
    var history := histories.LoadHistory(publisher.value);
    if history.Err? {
      return StoreFailed;
    }
    var loaded := Load(core, bytes, content, site, now, retained.value, history.value);
    if loaded.Err? {
      return Rejected;
    }
    r := Opened(loaded.value);
  }
}
