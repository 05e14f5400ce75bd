/** The client's whole life on one disk: any number of starts, decisions, refusals
    and ends, with failures anywhere and the process dying anywhere. */
module Lifetime {
  import opened Types
  import opened Trust
  import opened History
  import opened Client
  import opened Invariant
  import opened Runs
  import opened Encoding
  import opened Dto
  import opened Protect
  import opened FileSystem
  import opened FileStores
  import opened App

  // ----- Which disk a store shows -----

  /** The store's key, or any key if it is still to be made. */
  ghost predicate MayHaveKey(files: Files, key: Bytes) {
    Lookup(Records(files), KEY_PATH) in {None, Some(key)}
  }

  /** Whatever key the store has, or will make if it has none, its files hold `d`. */
  ghost predicate Opens(format: Format, files: Files, d: Disk) {
    forall key :: MayHaveKey(files, key) ==> Holds(Vault(format, key), files, d)
  }

  lemma ShownOpens(vault: Vault, files: Files, d: Disk)
    requires Shows(vault, files, d)
    ensures Opens(vault.format, files, d)
  {
    hide Holds;
    assert vault == Vault(vault.format, vault.key);
  }

  /** A directory without identities and histories is the machine's initial state. */
  lemma FreshStoreOpens(format: Format, files: Files)
    requires forall p :: p in files ==> p.dir == Base
    ensures Opens(format, files, INITIAL.disk)
  {
  }

  function SiteNamed(name: string): Option<Site> {
    if |name| >= 5 && IsOnion(name[..|name| - 5]) then Some(Site(name[..|name| - 5])) else None
  }

  function PublisherNamed(name: string): Option<Key> {
    if |name| < 5 then None
    else
      match Base64Decode(name[..|name| - 5])
      case None => None
      case Some(bytes) => if |bytes| == 32 then Some(Key(bytes)) else None
  }

  /** The record a site's file stands for under whichever key opens it. */
  ghost function RecordIn(format: Format, files: Files, site: Site): Option<SiteRecord> {
    if exists key :: MayHaveKey(files, key) && SiteAt(Vault(format, key), files, site).Ok? then
      var key :| MayHaveKey(files, key) && SiteAt(Vault(format, key), files, site).Ok?;
      SiteAt(Vault(format, key), files, site).value
    else None
  }

  ghost function EntriesIn(format: Format, files: Files, publisher: Key): seq<Record> {
    if exists key :: MayHaveKey(files, key) && HistoryIn(Vault(format, key), files, publisher).Ok? then
      var key :| MayHaveKey(files, key) && HistoryIn(Vault(format, key), files, publisher).Ok?;
      HistoryIn(Vault(format, key), files, publisher).value
    else []
  }

  /** The disk a store's readable files make up. */
  ghost function DiskOf(format: Format, files: Files): Disk {
    var sites := set p | p in files && SiteNamed(p.name).Some? :: SiteNamed(p.name).value;
    var publishers := set p | p in files && PublisherNamed(p.name).Some? :: PublisherNamed(p.name).value;
    Disk(map site | site in sites && RecordIn(format, files, site).Some? :: RecordIn(format, files, site).value,
         map publisher | publisher in publishers :: EntriesIn(format, files, publisher))
  }

  lemma NamesReadBack(site: Site, key: Key)
    ensures SiteNamed(IdentityPath(site).name) == Some(site)
    ensures PublisherNamed(HistoryPath(key).name) == Some(key)
  {
    var a, b := IdentityPath(site).name, HistoryPath(key).name;
    assert a[..|a| - 5] == site.address;
    assert b[..|b| - 5] == Base64Encode(key.bytes);
    Base64RoundTrip(key.bytes);
  }

  /** Two keys that open a file open it to the same payload. */
  lemma KeysReadAlike(format: Format, files: Files, k1: Bytes, k2: Bytes, site: Site, publisher: Key)
    ensures var a, b := SiteAt(Vault(format, k1), files, site), SiteAt(Vault(format, k2), files, site);
            a.Ok? && b.Ok? ==> a == b
    ensures var a, b := HistoryIn(Vault(format, k1), files, publisher), HistoryIn(Vault(format, k2), files, publisher);
            a.Ok? && b.Ok? ==> a == b
  {
    hide ToSiteRecord, IntoRecords, CheckIdentityVersion, CheckHistoryVersion, Base64Decode;
  }

  /** Every store shows a disk, whatever files it holds, whether its key is there or
      not: the one its readable files make up. */
  lemma EveryStoreOpens(format: Format, files: Files)
    ensures Opens(format, files, DiskOf(format, files))
  {
    hide SiteAt, HistoryIn, HistoryDtoAt, SiteNamed, PublisherNamed, MayHaveKey;
    var d := DiskOf(format, files);
    forall key | MayHaveKey(files, key) ensures Holds(Vault(format, key), files, d) {
      var vault := Vault(format, key);
      forall site | SiteAt(vault, files, site).Ok? ensures SiteAt(vault, files, site).value == RecordAt(d, site) {
        RecordInIs(format, files, key, site);
      }
      forall publisher | HistoryIn(vault, files, publisher).Ok?
        ensures HistoryIn(vault, files, publisher).value == HistoryAt(d, publisher)
      {
        EntriesInIs(format, files, key, publisher);
      }
    }
  }

  lemma RecordInIs(format: Format, files: Files, key: Bytes, site: Site)
    requires MayHaveKey(files, key) && SiteAt(Vault(format, key), files, site).Ok?
    ensures RecordAt(DiskOf(format, files), site) == SiteAt(Vault(format, key), files, site).value
  {
    hide SiteAt, HistoryIn, HistoryDtoAt, SiteNamed, PublisherNamed, MayHaveKey;
    var publisher := Key(seq(32, _ => 0 as byte));
    var k :| MayHaveKey(files, k) && SiteAt(Vault(format, k), files, site).Ok?
             && RecordIn(format, files, site) == SiteAt(Vault(format, k), files, site).value;
    KeysReadAlike(format, files, key, k, site, publisher);
    NamesReadBack(site, publisher);
    PresentNeverReadsAbsent(Vault(format, key), files, site, publisher);
  }

  lemma EntriesInIs(format: Format, files: Files, key: Bytes, publisher: Key)
    requires MayHaveKey(files, key) && HistoryIn(Vault(format, key), files, publisher).Ok?
    ensures HistoryAt(DiskOf(format, files), publisher) == HistoryIn(Vault(format, key), files, publisher).value
  {
    hide SiteAt, HistoryIn, HistoryDtoAt, SiteNamed, PublisherNamed, MayHaveKey;
    var site := Site(ANY_ONION);
    var k :| MayHaveKey(files, k) && HistoryIn(Vault(format, k), files, publisher).Ok?
             && EntriesIn(format, files, publisher) == HistoryIn(Vault(format, k), files, publisher).value;
    KeysReadAlike(format, files, key, k, site, publisher);
    NamesReadBack(site, publisher);
    HistoryReadsIff(Vault(format, key), files, publisher, HistoryIn(Vault(format, key), files, publisher).value);
  }

  /** Opening the store, as far as it gets, leaves the disk it shows. */
  lemma FirstUseKeepsDisk(format: Format, made: Bytes, before: Files, after: Files, d: Disk)
    requires Opens(format, before, d) && Lookup(Records(before), KEY_PATH).None?
    requires InFirstUse(format, made, before, after)
    ensures Opens(format, after, d)
  {
    forall key | MayHaveKey(after, key) ensures Holds(Vault(format, key), after, d) {
      assert Holds(Vault(format, key), before, d);
      ViewsReadStores(Vault(format, key), before, after);
    }
  }

  lemma FirstUseKeepsViews(vault: Vault, made: Bytes, before: Files, after: Files)
    requires Records(after) == FirstUsed(vault.format, made, before)
    requires SameTemps(before, after)
    ensures SameViews(vault, before, after)
  {
    hide SiteAt, HistoryIn, HistoryDtoAt, SameTemps, StrayTemp;
    ViewsReadStores(vault, before, after);
    forall p: Path ensures StrayTemp(after, p) <==> StrayTemp(before, p) {
      SameTempsSameStrays(before, after, p);
    }
  }

  // ----- Runs -----

  /** One more event. */
  lemma Extend(core: Core, ss: seq<State>, es: seq<Event>, e: Event) returns (ss': seq<State>, es': seq<Event>)
    requires IsRun(core, ss, es) && Enabled(ss[|es|], e)
    ensures ss' == ss + [Step(core, ss[|es|], e)] && es' == es + [e]
    ensures IsRun(core, ss', es')
  {
    hide Step, Enabled;
    ss', es' := ss + [Step(core, ss[|es|], e)], es + [e];
  }

  lemma OpenStep(core: Core, s: State, site: Site, manifest: Bytes, content: Option<Bytes>, now: int, io: Io)
    requires s.session.None?
    ensures var l, s' := LoadFrom(core, s.disk, manifest, content, site, now),
                         Step(core, s, Event.Open(site, manifest, content, now, io));
            if l.None? then s' == s
            else s'.disk == Persist(s.disk, l.value.site, l.value.initialIntent, l.value.record, io)
                 && (io.crashed ==> s'.session.None?)
  {
    hide LoadFrom, Persist;
  }

  lemma CloseStep(core: Core, s: State)
    requires s.session.Some?
    ensures Step(core, s, Event.Close) == s.(session := None)
  {
  }

  lemma DecideStep(core: Core, s: State, decision: Decision, io: Io)
    requires Enabled(s, Event.Decide(decision, io))
    ensures var q, s' := s.session.value.loaded, Step(core, s, Event.Decide(decision, io));
            s'.disk == Persist(s.disk, q.site, Resolve(q.publisher, q.retained, decision).intent, q.record, io)
            && (io.crashed ==> s'.session.None?)
  {
    hide Persist, Resolve;
  }

  /** Wherever the process died in a persisting step, some crash of the machine's
      step leaves the same disk. */
  lemma CrashIsAnEvent(vault: Vault, past: seq<Files>, more: seq<Files>, now: Files, left: Files,
                       d: Disk, site: Site, intent: Intent, record: Option<Record>, io: Io) returns (crash: Io)
    requires CaughtIn(vault, past, more, d, site, intent, record)
    requires Shows(vault, now, Persist(d, site, intent, record, io))
    requires left == now || exists k :: |past| <= k < |more| && left == more[k]
    ensures crash.crashed && Shows(vault, left, Persist(d, site, intent, record, crash))
  {
    hide Shows;
    if left == now {
      crash := io.(crashed := true);
      assert Persist(d, site, intent, record, crash) == Persist(d, site, intent, record, io);
    } else {
      crash :| crash in {Io(false, false, false, true), Io(true, false, false, true), Io(true, true, false, true)}
               && Shows(vault, left, Persist(d, site, intent, record, crash));
    }
  }

  lemma CrashedOpen(core: Core, vault: Vault, past: seq<Files>, more: seq<Files>, final: Files, left: Files,
                    s: State, site: Site, manifest: Bytes, content: Option<Bytes>, now: int, io: Io) returns (crash: Io)
    requires s.session.None? && LoadFrom(core, s.disk, manifest, content, site, now).Some?
    requires LoadFrom(core, s.disk, manifest, content, site, now).value.site == site
    requires var l := LoadFrom(core, s.disk, manifest, content, site, now).value;
             CaughtIn(vault, past, more, s.disk, site, l.initialIntent, l.record)
    requires Shows(vault, final, Step(core, s, Event.Open(site, manifest, content, now, io)).disk)
    requires left == final || exists k :: |past| <= k < |more| && left == more[k]
    ensures var s' := Step(core, s, Event.Open(site, manifest, content, now, crash));
            s'.session.None? && Opens(vault.format, left, s'.disk)
  {
    hide Step, LoadFrom, CaughtIn, Shows, Opens;
    var l := LoadFrom(core, s.disk, manifest, content, site, now).value;
    OpenStep(core, s, site, manifest, content, now, io);
    crash := CrashIsAnEvent(vault, past, more, final, left, s.disk, site, l.initialIntent, l.record, io);
    OpenStep(core, s, site, manifest, content, now, crash);
    ShownOpens(vault, left, Step(core, s, Event.Open(site, manifest, content, now, crash)).disk);
  }

  lemma CrashedDecide(core: Core, vault: Vault, past: seq<Files>, more: seq<Files>, final: Files, left: Files,
                      s: State, decision: Decision, io: Io) returns (crash: Io)
    requires Enabled(s, Event.Decide(decision, io))
    requires var q := s.session.value.loaded;
             CaughtIn(vault, past, more, s.disk, q.site, Resolve(q.publisher, q.retained, decision).intent, q.record)
    requires Shows(vault, final, Step(core, s, Event.Decide(decision, io)).disk)
    requires left == final || exists k :: |past| <= k < |more| && left == more[k]
    ensures var s' := Step(core, s, Event.Decide(decision, crash));
            s'.session.None? && Opens(vault.format, left, s'.disk)
  {
    hide Step, CaughtIn, Shows, Opens, Resolve;
    var q := s.session.value.loaded;
    DecideStep(core, s, decision, io);
    crash := CrashIsAnEvent(vault, past, more, final, left,
                            s.disk, q.site, Resolve(q.publisher, q.retained, decision).intent, q.record, io);
    DecideStep(core, s, decision, crash);
    ShownOpens(vault, left, Step(core, s, Event.Decide(decision, crash)).disk);
  }

  /** The run so far ends in what is on the disk and, while a document is open, in
      the shell's own state. */
  ghost predicate At(core: Core, format: Format, volume: Volume, shell: Shell?, ss: seq<State>, es: seq<Event>)
    reads volume, shell
  {
    && IsRun(core, ss, es) && Lossless(format)
    && if shell == null then ss[|es|].session.None? && Opens(format, volume.files, ss[|es|].disk)
       else && shell.core == core && shell.root.volume == volume && shell.root.vault.format == format
            && shell.Valid() && shell.state == ss[|es|]
  }

  /** The store cannot be opened for this site and manifest even if the disk works:
      it is in another mode, a temporary name of its key or metadata is taken, or the
      site's or publisher's file is there and makes no sense. */
  ghost predicate Unopenable(core: Core, format: Format, files: Files, site: Site, manifest: Bytes) {
    || Unusable(format, files)
    || exists key :: MayHaveKey(files, key) && Unreadable(core, Vault(format, key), files, site, manifest)
  }

  ghost predicate Unusable(format: Format, files: Files) {
    if KEY_PATH in files then OtherMode(format, files)
    else StrayTemp(files, KEY_PATH) || StrayTemp(files, META_PATH)
  }

  ghost predicate Unreadable(core: Core, vault: Vault, files: Files, site: Site, manifest: Bytes) {
    || SiteAt(vault, files, site).Err?
    || (core.peek(manifest).Some? && HistoryIn(vault, files, core.peek(manifest).value).Err?)
  }

  /** Opens the store; however far it gets, the files go on holding the same disk,
      and what they say of sites and publishers stays. */
  method OpenStore(format: Format, volume: Volume, ghost d: Disk) returns (r: StoreResult<StoreRoot>)
    requires Lossless(format) && Opens(format, volume.files, d)
    modifies volume
    ensures r.Ok? ==>
              && r.value.volume == volume && r.value.vault.format == format
              && Shows(r.value.vault, volume.files, d)
              && MayHaveKey(old(volume.files), r.value.vault.key)
              && SameViews(r.value.vault, old(volume.files), volume.files)
    ensures volume.ops >= old(volume.ops)
    ensures r.Err? ==> Failed(volume.failing, old(volume.ops), volume.ops) || Unusable(format, old(volume.files))
    ensures Opens(format, volume.files, d)
    ensures old(volume.seen) <= volume.seen
    ensures forall k :: |old(volume.seen)| <= k < |volume.seen| ==> Opens(format, volume.seen[k], d)
  {
    hide Opens, Holds, InFirstUse, FirstUsed, Failed, StrayTemp, OtherMode, SameViews;
    RootIsRecord(volume.files);
    r := StoreRoot.OpenIntegrity(volume, format);
    if KEY_PATH !in old(volume.files) {
      ghost var made := volume.entropy(old(volume.ops) + 1);
      FirstUseKeepsDisk(format, made, old(volume.files), volume.files, d);
      forall k | |old(volume.seen)| <= k < |volume.seen| ensures Opens(format, volume.seen[k], d) {
        FirstUseKeepsDisk(format, made, old(volume.files), volume.seen[k], d);
      }
      if r.Ok? {
        FirstUseKeepsViews(r.value.vault, made, old(volume.files), volume.files);
      }
    } else if r.Ok? {
      UnchangedViews(r.value.vault, volume.files);
    }
    if r.Ok? {
      OpenedShows(r.value.vault, volume.files, d);
    }
  }

  /** Sites, publishers and temporary names are as they were. */
  ghost predicate SameViews(vault: Vault, before: Files, after: Files) {
    && SameSites(vault, before, after) && SameHistories(vault, before, after)
    && forall p: Path :: p.dir != Base ==> (StrayTemp(after, p) <==> StrayTemp(before, p))
  }

  lemma UnchangedViews(vault: Vault, files: Files)
    ensures SameViews(vault, files, files)
  {
  }

  lemma OpenedShows(vault: Vault, files: Files, d: Disk)
    requires Opens(vault.format, files, d) && Lookup(Records(files), KEY_PATH) == Some(vault.key)
    ensures Shows(vault, files, d)
  {
    hide Holds;
    assert vault == Vault(vault.format, vault.key);
  }

  // ----- What the user does -----

  /** Start the program on a manifest, press a button of a prompt, refuse it, end
      the program. */
  datatype Action =
    | Launch(site: Site, manifest: Bytes, content: Option<Bytes>, now: int)
    | Press(decision: Decision)
    | Refuse
    | Quit

  /** The event is what the action asks for. */
  predicate Answers(a: Action, e: Event) {
    match e
    case Open(site, manifest, content, now, _) => a == Launch(site, manifest, content, now)
    case Decide(decision, _) => a == Press(decision)
    case Decline => a == Refuse
    case Close => a == Quit
  }

  /** How far the run and the disk had got before an action. */
  datatype Moment = Moment(events: nat, ops: nat, files: Files)

  predicate Offers(s: State, a: Action) {
    match a
    case Launch(site, manifest, content, now) => Enabled(s, Open(site, manifest, content, now, FAULTLESS))
    case Press(decision) => Enabled(s, Decide(decision, FAULTLESS))
    case Refuse => Enabled(s, Decline)
    case Quit => Enabled(s, Close)
  }

  /** The action came to nothing: it was not on offer, or the program was to start
      and the disk failed, the process died, or the store cannot be opened. */
  ghost predicate Idle(core: Core, format: Format, failing: nat -> bool, s: State, a: Action, m: Moment, m': Moment) {
    || !Offers(s, a)
    || (a.Launch? && (Failed(failing, m.ops, m'.ops) || Unopenable(core, format, m.files, a.site, a.manifest)))
  }

  /** No disk operation fails, the process does not die, and what the action wants
      to write can be written. */
  ghost predicate Calm(core: Core, format: Format, failing: nat -> bool, s: State, a: Action, m: Moment, m': Moment) {
    && !Failed(failing, m.ops, m'.ops)
    && forall key :: MayHaveKey(m.files, key) ==> CanWrite(core, Vault(format, key), s, a, m.files)
  }

  ghost predicate CanWrite(core: Core, vault: Vault, s: State, a: Action, files: Files) {
    match a
    case Launch(site, manifest, _, now) =>
      core.signature(manifest, now).Ok? ==> Writable(vault, files, site, core.signature(manifest, now).value.publisher)
    case Press(_) =>
      s.session.Some? ==> Writable(vault, files, s.session.value.loaded.site, s.session.value.loaded.publisher)
    case _ => true
  }

  predicate Untroubled(e: Event) {
    e.Open? || e.Decide? ==> e.io == FAULTLESS
  }

  /** An action yields its own event, untroubled if the turn is calm, or is idle. */
  ghost predicate Turn(core: Core, format: Format, failing: nat -> bool, ss: seq<State>, es: seq<Event>,
                       a: Action, m: Moment, m': Moment)
    requires |ss| == |es| + 1
  {
    && m.ops <= m'.ops && m.events <= |es|
    && if m'.events == m.events then Idle(core, format, failing, ss[m.events], a, m, m')
       else && m'.events == m.events + 1 <= |es|
            && Answers(a, es[m.events])
            && (Calm(core, format, failing, ss[m.events], a, m, m') ==> Untroubled(es[m.events]))
  }

  lemma LaunchIdles(core: Core, format: Format, failing: nat -> bool, ss: seq<State>, es: seq<Event>,
                    a: Action, m: Moment, m': Moment)
    requires |ss| == |es| + 1 && a.Launch? && m.events == m'.events == |es| && m.ops <= m'.ops
    requires Failed(failing, m.ops, m'.ops) || Unopenable(core, format, m.files, a.site, a.manifest)
    ensures Turn(core, format, failing, ss, es, a, m, m')
  {
    hide Failed, Unopenable;
  }

  lemma EventTurns(core: Core, vault: Vault, failing: nat -> bool, ss: seq<State>, es: seq<Event>,
                   ss': seq<State>, es': seq<Event>, e: Event, a: Action, m: Moment, m': Moment)
    requires |ss| == |es| + 1 && |ss'| == |es'| + 1 && ss <= ss' && es' == es + [e]
    requires m.events == |es| && m'.events == |es'| && m.ops <= m'.ops && Answers(a, e)
    requires MayHaveKey(m.files, vault.key)
    requires CanWrite(core, vault, ss[|es|], a, m.files) && !Failed(failing, m.ops, m'.ops) ==> Untroubled(e)
    ensures Turn(core, vault.format, failing, ss', es', a, m, m')
  {
    hide CanWrite, Failed, Untroubled, Answers, MayHaveKey;
    assert Vault(vault.format, vault.key) == vault;
  }

  /** The events of the run are those of the first `n` actions, turn by turn. */
  ghost predicate Follows(core: Core, format: Format, failing: nat -> bool, actions: seq<Action>, n: nat,
                          trace: seq<Moment>, ss: seq<State>, es: seq<Event>)
  {
    && |ss| == |es| + 1 && |trace| == n + 1 && n <= |actions|
    && trace[0].events == 0 && trace[n].events == |es|
    && forall i :: 0 <= i < n ==> Turn(core, format, failing, ss, es, actions[i], trace[i], trace[i + 1])
  }

  lemma TurnStays(core: Core, format: Format, failing: nat -> bool, ss: seq<State>, es: seq<Event>,
                  ss': seq<State>, es': seq<Event>, a: Action, m: Moment, m': Moment)
    requires |ss| == |es| + 1 && |ss'| == |es'| + 1 && ss <= ss' && es <= es'
    requires Turn(core, format, failing, ss, es, a, m, m')
    ensures Turn(core, format, failing, ss', es', a, m, m')
  {
    hide Idle, Calm, Answers;
  }

  lemma FollowsOn(core: Core, format: Format, failing: nat -> bool, actions: seq<Action>, n: nat,
                  trace: seq<Moment>, ss: seq<State>, es: seq<Event>, ss': seq<State>, es': seq<Event>, m': Moment)
    requires Follows(core, format, failing, actions, n, trace, ss, es) && n < |actions|
    requires |ss'| == |es'| + 1 && ss <= ss' && es <= es' && m'.events == |es'|
    requires Turn(core, format, failing, ss', es', actions[n], trace[n], m')
    ensures Follows(core, format, failing, actions, n + 1, trace + [m'], ss', es')
  {
    hide Turn;
    var trace' := trace + [m'];
    forall i | 0 <= i < n + 1 ensures Turn(core, format, failing, ss', es', actions[i], trace'[i], trace'[i + 1]) {
      if i < n {
        assert Turn(core, format, failing, ss, es, actions[i], trace[i], trace[i + 1]);
        TurnStays(core, format, failing, ss, es, ss', es', actions[i], trace[i], trace[i + 1]);
      }
    }
  }

  // ----- The life of the client -----

  /** Starts the program on a manifest; it may die while opening the store and while
      the shell starts. */
  method Start(core: Core, format: Format, volume: Volume, site: Site, manifest: Bytes, content: Option<Bytes>, now: int,
               ghost ss: seq<State>, ghost es: seq<Event>)
    returns (shell: Shell?, ghost ss': seq<State>, ghost es': seq<Event>)
    requires At(core, format, volume, null, ss, es)
    modifies volume
    ensures At(core, format, volume, shell, ss', es') && ss <= ss' && es <= es'
    ensures Turn(core, format, volume.failing, ss', es', Launch(site, manifest, content, now),
                 Moment(|es|, old(volume.ops), old(volume.files)), Moment(|es'|, volume.ops, volume.files))
    ensures shell != null ==> fresh(shell)
  {
    hide Step, Opens, Shows, SiteAt, HistoryIn, LoadFrom, Client.Persist, Failed, MayHaveKey, SameViews, Unusable, Turn;
    shell, ss', es' := null, ss, es;
    ghost var disk, a, m := ss[|es|].disk, Launch(site, manifest, content, now), Moment(|es|, volume.ops, volume.files);
    var since := |volume.seen|;
    var root := OpenStore(format, volume, disk);
    var alive := StillAlive(volume, m.ops);
    if !alive || root.Err? {
      if !alive {
        volume.Crash(since);
      }
      LaunchIdles(core, format, volume.failing, ss, es, a, m, Moment(|es|, volume.ops, volume.files));
      return;
    }
    SameViewsReadAlike(core, root.value.vault, m.files, volume.files, site, manifest);
    ghost var ready := volume.ops;
    var built := Build(core, root.value, manifest, content, site, now);
    FailedSplits(volume.failing, m.ops, ready, volume.ops);
    if built.StoreFailed? {
      LaunchIdles(core, format, volume.failing, ss, es, a, m, Moment(|es|, volume.ops, volume.files));
      return;
    }
    if built.Rejected? {
      OpenStep(core, ss[|es|], site, manifest, content, now, FAULTLESS);
      ss', es' := Extend(core, ss, es, Event.Open(site, manifest, content, now, FAULTLESS));
      EventTurns(core, root.value.vault, volume.failing, ss, es, ss', es', es'[|es|], a, m, Moment(|es'|, volume.ops, volume.files));
      return;
    }
    shell, ss', es' := Show(core, root.value, built.loaded, manifest, content, now, ss, es, m);
  }

  /** Passes on, or dies: whether the next moment is one at which the process lives. */
  method StillAlive(volume: Volume, ghost first: nat) returns (alive: bool)
    requires first <= volume.ops
    modifies volume`ops
    ensures volume.ops == old(volume.ops) + 1
    ensures Failed(volume.failing, first, volume.ops) <==> Failed(volume.failing, first, old(volume.ops)) || !alive
  {
    alive := volume.Next();
    OneFailed(volume.failing, old(volume.ops));
    FailedSplits(volume.failing, first, old(volume.ops), volume.ops);
  }

  /** Starts the shell on a loaded document: the second half of `Start`, from a
      moment `m` at which the store said the same. */
  method Show(core: Core, root: StoreRoot, loaded: Loaded, manifest: Bytes, content: Option<Bytes>, now: int,
              ghost ss: seq<State>, ghost es: seq<Event>, ghost m: Moment)
    returns (shell: Shell?, ghost ss': seq<State>, ghost es': seq<Event>)
    requires At(core, root.vault.format, root.volume, null, ss, es)
    requires Shows(root.vault, root.volume.files, ss[|es|].disk) && SiteAt(root.vault, root.volume.files, loaded.site).Ok?
    requires LoadFrom(core, ss[|es|].disk, manifest, content, loaded.site, now) == Some(loaded)
    requires m.events == |es| && m.ops <= root.volume.ops
    requires MayHaveKey(m.files, root.vault.key) && SameViews(root.vault, m.files, root.volume.files)
    modifies root.volume
    ensures At(core, root.vault.format, root.volume, shell, ss', es') && ss <= ss' && es <= es'
    ensures Turn(core, root.vault.format, root.volume.failing, ss', es', Launch(loaded.site, manifest, content, now),
                 m, Moment(|es'|, root.volume.ops, root.volume.files))
    ensures shell != null ==> fresh(shell)
  {
    hide Step, Opens, Shows, SiteAt, HistoryIn, LoadFrom, Client.Persist, Failed, Writable, MayHaveKey, SameViews, Turn;
    var volume := root.volume;
    ghost var disk, past, first := ss[|es|].disk, volume.seen, volume.ops;
    LoadedPublisher(core, disk, manifest, content, loaded.site, now);
    SameViewsWriteAlike(root.vault, m.files, volume.files, loaded.site, loaded.publisher);
    var since := |volume.seen|;
    var started := new Shell(core, root, loaded, disk, manifest, content, now);
    assert State(disk, None) == ss[|es|];
    ghost var calm := Writable(root.vault, m.files, loaded.site, loaded.publisher) && !Failed(volume.failing, first, volume.ops);
    ghost var io: Io :| !io.crashed && started.state == Step(core, ss[|es|], Event.Open(loaded.site, manifest, content, now, io))
                        && (calm ==> io == FAULTLESS);
    FailedSplits(volume.failing, m.ops, first, volume.ops);
    var alive := StillAlive(volume, m.ops);
    if alive {
      shell := started;
    } else {
      ghost var final := volume.files;
      volume.Crash(since);
      io := CrashedOpen(core, root.vault, past, volume.seen, final, volume.files,
                        ss[|es|], loaded.site, manifest, content, now, io);
      shell := null;
    }
    ss', es' := Extend(core, ss, es, Event.Open(loaded.site, manifest, content, now, io));
    EventTurns(core, root.vault, volume.failing, ss, es, ss', es', es'[|es|], Launch(loaded.site, manifest, content, now),
               m, Moment(|es'|, volume.ops, volume.files));
  }

  lemma LoadedPublisher(core: Core, d: Disk, manifest: Bytes, content: Option<Bytes>, site: Site, now: int)
    ensures var l := LoadFrom(core, d, manifest, content, site, now);
            l.Some? ==> core.signature(manifest, now).Ok? && l.value.publisher == core.signature(manifest, now).value.publisher
  {
  }

  lemma SameViewsReadAlike(core: Core, vault: Vault, before: Files, after: Files, site: Site, manifest: Bytes)
    requires SameViews(vault, before, after)
    ensures Unreadable(core, vault, before, site, manifest) <==> Unreadable(core, vault, after, site, manifest)
  {
    hide SiteAt, HistoryIn, HistoryDtoAt;
  }

  lemma SameViewsWriteAlike(vault: Vault, before: Files, after: Files, site: Site, publisher: Key)
    requires SameViews(vault, before, after)
    ensures Writable(vault, before, site, publisher) <==> Writable(vault, after, site, publisher)
  {
    hide SiteAt, HistoryIn, HistoryDtoAt, StrayTemp;
  }

  /** A button of the open prompt; the process may die while the decision is written. */
  method Choose(core: Core, format: Format, volume: Volume, open: Shell, decision: Decision,
                ghost ss: seq<State>, ghost es: seq<Event>)
    returns (shell: Shell?, ghost ss': seq<State>, ghost es': seq<Event>)
    requires At(core, format, volume, open, ss, es) && decision in Offered(open.PromptShown())
    modifies open, volume
    ensures At(core, format, volume, shell, ss', es') && ss <= ss' && es <= es'
    ensures Turn(core, format, volume.failing, ss', es', Press(decision),
                 Moment(|es|, old(volume.ops), old(volume.files)), Moment(|es'|, volume.ops, volume.files))
    ensures shell == null || shell == open
  {
    hide Step, Opens, Shows, SiteAt, HistoryIn, LoadFrom, Client.Persist, Resolve, Failed, Writable, MayHaveKey, Turn;
    ghost var s, q, past, vault := open.state, open.loaded, volume.seen, open.root.vault;
    ghost var m := Moment(|es|, volume.ops, volume.files);
    ShownKey(vault, volume.files, s.disk);
    var since := |volume.seen|;
    open.ApplyAndPersist(decision);
    ghost var calm := Writable(vault, m.files, q.site, q.publisher) && !Failed(volume.failing, m.ops, volume.ops);
    DecideIsSettle(core, s, decision);
    ghost var io: Io :| !io.crashed && open.state == Step(core, s, Event.Decide(decision, io)) && (calm ==> io == FAULTLESS);
    var alive := StillAlive(volume, m.ops);
    if alive {
      shell := open;
    } else {
      ghost var final := volume.files;
      volume.Crash(since);
      io := CrashedDecide(core, vault, past, volume.seen, final, volume.files, s, decision, io);
      shell := null;
    }
    ss', es' := Extend(core, ss, es, Event.Decide(decision, io));
    EventTurns(core, vault, volume.failing, ss, es, ss', es', es'[|es|], Press(decision), m, Moment(|es'|, volume.ops, volume.files));
  }

  lemma ShownKey(vault: Vault, files: Files, d: Disk)
    requires Shows(vault, files, d)
    ensures MayHaveKey(files, vault.key)
  {
    hide Holds;
  }

  lemma DecideIsSettle(core: Core, s: State, decision: Decision)
    requires Enabled(s, Event.Decide(decision, FAULTLESS))
    ensures var q := s.session.value.loaded;
            Step(core, s, Event.Decide(decision, FAULTLESS)) ==
              Settle(s.disk, Redecided(q, decision), Resolve(q.publisher, q.retained, decision).intent, NoPrompt, FAULTLESS)
  {
    hide Resolve, Persist;
  }

  /** The client's life: whatever the user does, whatever fails and wherever the
      process dies, there is a run of the machine that ends in what the files show.
      Each action in turn yields its event, untroubled if nothing fails in its turn,
      unless it was not on offer or the program could not start. */
  method Live(core: Core, format: Format, volume: Volume, actions: seq<Action>, ghost d: Disk)
    returns (ghost ss: seq<State>, ghost es: seq<Event>, ghost trace: seq<Moment>)
    requires Lossless(format) && Opens(format, volume.files, d)
    modifies volume
    ensures IsRun(core, ss, es) && ss[0] == State(d, None)
    ensures Follows(core, format, volume.failing, actions, |actions|, trace, ss, es)
    ensures trace[0] == Moment(0, old(volume.ops), old(volume.files))
    ensures trace[|actions|] == Moment(|es|, volume.ops, volume.files)
    ensures Opens(format, volume.files, ss[|es|].disk)
  {
    hide Step, Opens, Shows, SiteAt, Follows, Failed, Unopenable, Calm;
    var shell: Shell? := null;
    ss, es, trace := [State(d, None)], [], [Moment(0, volume.ops, volume.files)];
    FollowsNone(core, format, volume.failing, actions, trace, ss);
    for i := 0 to |actions|
      invariant At(core, format, volume, shell, ss, es) && ss[0] == State(d, None)
      invariant Follows(core, format, volume.failing, actions, i, trace, ss, es)
      invariant |trace| == i + 1 && trace[i] == Moment(|es|, volume.ops, volume.files)
      invariant trace[0] == Moment(0, old(volume.ops), old(volume.files))
      invariant shell != null ==> fresh(shell)
    {
      ghost var ss0, es0 := ss, es;
      match actions[i] {
        case Launch(site, manifest, content, now) =>
          if shell == null {
            shell, ss, es := Start(core, format, volume, site, manifest, content, now, ss, es);
          }
        case Press(decision) =>
          if shell != null && decision in Offered(shell.PromptShown()) {
            shell, ss, es := Choose(core, format, volume, shell, decision, ss, es);
          }
        case Refuse =>
          if shell != null && shell.PromptShown() != NoPrompt {
            shell.Decline();
            ss, es := Extend(core, ss, es, Event.Decline);
          }
        case Quit =>
          if shell != null {
            ShownOpens(shell.root.vault, volume.files, shell.state.disk);
            CloseStep(core, shell.state);
            ss, es := Extend(core, ss, es, Event.Close);
            shell := null;
          }
      }
      ghost var m' := Moment(|es|, volume.ops, volume.files);
      FollowsOn(core, format, volume.failing, actions, i, trace, ss0, es0, ss, es, m');
      trace := trace + [m'];
    }
    if shell != null {
      ShownOpens(shell.root.vault, volume.files, shell.state.disk);
    }
  }

  lemma FollowsNone(core: Core, format: Format, failing: nat -> bool, actions: seq<Action>, trace: seq<Moment>, ss: seq<State>)
    requires |trace| == 1 && |ss| == 1 && trace[0].events == 0
    ensures Follows(core, format, failing, actions, 0, trace, ss, [])
  {
  }

  ghost predicate OnceOpened(core: Core, ss: seq<State>, es: seq<Event>, key: Key, r: Record)
    requires |ss| == |es| + 1
  {
    exists j :: PresentedBy(core, ss, es, j, key, r)
  }

  /** Every entry gained stems from an accepted manifest of its publisher. */
  ghost predicate GainedByOpens(core: Core, ss: seq<State>, es: seq<Event>, key: Key, h: seq<Record>)
    requires |ss| == |es| + 1
  {
    forall i :: 0 <= i < |h| - |HistoryAt(ss[0].disk, key)| ==> OnceOpened(core, ss, es, key, h[i])
  }

  lemma HistoryGained(core: Core, ss: seq<State>, es: seq<Event>, key: Key)
    requires PeekAgrees(core) && IsRun(core, ss, es)
    ensures GainedByOpens(core, ss, es, key, HistoryAt(ss[|es|].disk, key))
  {
    hide HistoryAt, PresentedBy, Step, Enabled;
    var h := HistoryAt(ss[|es|].disk, key);
    forall i | 0 <= i < |h| - |HistoryAt(ss[0].disk, key)| ensures OnceOpened(core, ss, es, key, h[i]) {
      var j := HistoryOrigin(core, ss, es, key, |es|, i);
    }
  }

  /** What the files of such a life say. Each identity file reads as an error or as
      a record grown from the one there at first; if it is pinned or verified and
      not the first one, the user decided so while a verified manifest of that key
      was open. Each history reads as an error or has grown at the front, by records
      of manifests of that publisher that passed every stage. */
  lemma FilesTellTheRun(core: Core, vault: Vault, files: Files, ss: seq<State>, es: seq<Event>, site: Site, key: Key)
    requires PeekAgrees(core) && IsRun(core, ss, es)
    requires Opens(vault.format, files, ss[|es|].disk) && Lookup(Records(files), KEY_PATH) == Some(vault.key)
    ensures SiteAt(vault, files, site).Ok? ==>
              var first, rec := RecordAt(ss[0].disk, site), SiteAt(vault, files, site).value;
              && RecordGrew(first, rec)
              && (rec.Some? && rec != first && rec.value.identity.provenance != Observed ==>
                    var id := rec.value.identity;
                    exists i, j :: 0 <= j < i < |es|
                                   && DecidedAt(ss, es, i, site, id.pubkey, id.provenance)
                                   && VerifiedOpen(core, ss, es, j, site, id.pubkey)
                                   && forall k :: j < k < i ==> !es[k].Open?)
    ensures HistoryIn(vault, files, key).Ok? ==>
              var h := HistoryIn(vault, files, key).value;
              && GrewFrom(h, HistoryAt(ss[0].disk, key))
              && GainedByOpens(core, ss, es, key, h)
              && (HistoriesGood(core, ss[0].disk) && (core.strict ==> CollisionFree(Presented(core, ss[0].disk, es, |es|))) ==>
                    Good(core.strict, h))
  {
    hide SiteAt, HistoryIn, RecordGrew, GrewFrom, Good, HistoriesGood, DecidedAt, VerifiedOpen, CollisionFree;
    hide Step, Enabled, GainedByOpens, RecordAt, HistoryAt;
    var n := |es|;
    OpenedShows(vault, files, ss[n].disk);
    RecordsOnlyGrow(core, ss, es, site, 0, n);
    HistoriesOnlyGrow(core, ss, es, key, 0, n);
    HistoryGained(core, ss, es, key);
    if RecordAt(ss[n].disk, site).Some? {
      NoSilentTrust(core, ss, es, site, n);
    }
    if HistoriesGood(core, ss[0].disk) && (core.strict ==> CollisionFree(Presented(core, ss[0].disk, es, n))) {
      HistoriesOrdered(core, ss, es, key, n);
    }
  }
}
