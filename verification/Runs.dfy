/** What holds over whole runs of the client. */
module Runs {
  import opened Types
  import opened Trust
  import opened History
  import opened Client
  import opened Invariant

  /** `older` is the tail of `newer`: newest-first lists grow at the front. */
  ghost predicate GrewFrom<T>(newer: seq<T>, older: seq<T>) {
    |older| <= |newer| && newer[|newer| - |older|..] == older
  }

  lemma GrewFromItself<T>(a: seq<T>)
    ensures GrewFrom(a, a)
  {
  }

  lemma GrewFromTransitive<T>(c: seq<T>, b: seq<T>, a: seq<T>)
    requires GrewFrom(c, b) && GrewFrom(b, a)
    ensures GrewFrom(c, a)
  {
  }

  // ----- What one step does to a site -----

  /** The resolution a step carries out, if any: which document, on which decision. */
  datatype Act = Act(loaded: Loaded, decision: Decision, io: Io)

  function ActOf(core: Core, s: State, e: Event): Option<Act>
    requires Enabled(s, e)
  {
    match e
    case Open(site, bytes, content, now, io) =>
      (match LoadFrom(core, s.disk, bytes, content, site, now)
       case None => None
       case Some(loaded) => Some(Act(loaded, NoDecision, io)))
    case Decide(decision, io) => Some(Act(s.session.value.loaded, decision, io))
    case _ => None
  }

  function ResolutionOf(a: Act): Resolution {
    Resolve(a.loaded.publisher, a.loaded.retained, a.decision)
  }

  /** A step changes only the record of the site it acts on, and changes it as if
      its resolution had been made against the stored record. */
  lemma StepSite(core: Core, s: State, e: Event, site: Site)
    requires PeekAgrees(core) && Enabled(s, e) && SessionCoherent(core, s)
    ensures var act := ActOf(core, s, e);
            var rec, rec' := RecordAt(s.disk, site), RecordAt(Step(core, s, e).disk, site);
            if act.Some? && act.value.io.applied && act.value.loaded.site == site
            then ResolutionOf(act.value) == Resolve(act.value.loaded.publisher, IdentityOf(rec), act.value.decision)
                 && rec' == ApplyIntent(rec, ResolutionOf(act.value).intent)
            else rec' == rec
  {
    var act := ActOf(core, s, e);
    if act.Some? {
      var l := act.value.loaded;
      if e.Open? {
        LoadedFacts(core, s.disk, e.manifest, e.content, e.site, e.now);
      } else {
        SnapshotIsGoodEnough(core, s, e.decision);
      }
      PersistSite(s.disk, l.site, ResolutionOf(act.value).intent, l.record, act.value.io, site);
    }
  }

  lemma StepEvolves(core: Core, s: State, e: Event, site: Site)
    requires PeekAgrees(core) && Enabled(s, e) && SessionCoherent(core, s)
    ensures var rec, rec' := RecordAt(s.disk, site), RecordAt(Step(core, s, e).disk, site);
            Evolves(rec, rec') && Starts(rec, rec')
  {
    StepSite(core, s, e, site);
    var act := ActOf(core, s, e);
    if act.Some? {
      ResolveThenApply(act.value.loaded.publisher, RecordAt(s.disk, site), act.value.decision);
    }
  }

  // ----- Key ledger -----

  ghost predicate NeighboursDiffer(keys: seq<Key>) {
    forall i :: 0 <= i < |keys| - 1 ==> keys[i] != keys[i + 1]
  }

  /** The ledger a site started the run with, and before it the keys retained there
      during the first `n` events, newest first, told from the identities alone: one
      entry each time the retained key changes. */
  ghost function KeysRetained(ss: seq<State>, site: Site, n: nat): seq<Key>
    requires n < |ss|
  {
    if n == 0 then Ledger(RecordAt(ss[0].disk, site))
    else
      var earlier := KeysRetained(ss, site, n - 1);
      var prior, current := IdentityOf(RecordAt(ss[n - 1].disk, site)), IdentityOf(RecordAt(ss[n].disk, site));
      if current.None? || (prior.Some? && prior.value.pubkey == current.value.pubkey) then earlier
      else [current.value.pubkey] + earlier
  }

  /** Key ledger conservation: with any failures and crashes, a site's current key
      followed by its replaced keys lists every key ever retained there, newest
      first, and no key replaces itself if none did before the run. */
  lemma {:induction false} LedgerConserved(core: Core, ss: seq<State>, es: seq<Event>, site: Site, n: nat)
    requires PeekAgrees(core) && IsRun(core, ss, es) && n <= |es|
    ensures Ledger(RecordAt(ss[n].disk, site)) == KeysRetained(ss, site, n)
    ensures NeighboursDiffer(Ledger(RecordAt(ss[0].disk, site))) ==> NeighboursDiffer(KeysRetained(ss, site, n))
  {
    hide SessionCoherent, Step, Enabled;
    if n > 0 {
      LedgerConserved(core, ss, es, site, n - 1);
      ReachableCoherent(core, ss, es, n - 1);
      StepEvolves(core, ss[n - 1], es[n - 1], site);
    }
  }

  /** Monotone provenance and a ledger that only grows: between any two states of
      a run the older ledger is a suffix of the newer, and while no key was added
      the record is still there, for the same key, with no lesser provenance. */
  lemma {:induction false} RecordsOnlyGrow(core: Core, ss: seq<State>, es: seq<Event>, site: Site, n: nat, m: nat)
    requires PeekAgrees(core) && IsRun(core, ss, es) && n <= m <= |es|
    ensures RecordGrew(RecordAt(ss[n].disk, site), RecordAt(ss[m].disk, site))
  {
    hide RecordGrew, Evolves, Starts, SessionCoherent, Step, Enabled, RecordAt;
    if n == m {
      RecordGrewFromItself(RecordAt(ss[n].disk, site));
    } else {
      RecordsOnlyGrow(core, ss, es, site, n, m - 1);
      ReachableCoherent(core, ss, es, m - 1);
      StepEvolves(core, ss[m - 1], es[m - 1], site);
      RecordGrewStep(RecordAt(ss[n].disk, site), RecordAt(ss[m - 1].disk, site), RecordAt(ss[m].disk, site));
    }
  }

  ghost predicate RecordGrew(before: Option<SiteRecord>, after: Option<SiteRecord>) {
    && GrewFrom(Ledger(after), Ledger(before))
    && (before.Some? ==> after.Some?)
    && (before.Some? && |Ledger(after)| == |Ledger(before)| ==>
          && after.value.identity.pubkey == before.value.identity.pubkey
          && Rank(before.value.identity.provenance) <= Rank(after.value.identity.provenance))
  }

  lemma RecordGrewFromItself(a: Option<SiteRecord>)
    ensures RecordGrew(a, a)
  {
  }

  lemma RecordGrewStep(a: Option<SiteRecord>, b: Option<SiteRecord>, c: Option<SiteRecord>)
    requires RecordGrew(a, b) && Evolves(b, c)
    ensures RecordGrew(a, c)
  {
    if b.Some? {
      assert Ledger(c)[|Ledger(c)| - |Ledger(b)|..] == Ledger(b);
      GrewFromTransitive(Ledger(c), Ledger(b), Ledger(a));
    }
  }

  // ----- No silent trust -----

  /** The manifest opened by event `j` presented `key` at `site`, passed each stage
      of the pipeline in turn, and passed the checks against the history recorded
      for that key. */
  ghost predicate VerifiedOpen(core: Core, ss: seq<State>, es: seq<Event>, j: nat, site: Site, key: Key)
    requires |ss| == |es| + 1
  {
    && j < |es| && es[j].Open? && es[j].site == site
    && core.signature(es[j].manifest, es[j].now).Ok?
    && var m := core.signature(es[j].manifest, es[j].now).value;
       && m.publisher == key
       && core.canary(m, es[j].now).Ok?
       && core.origin(m, site, es[j].now).Ok?
       && core.contentIndex(m, None).Ok?
       && (m.issuedAt.Some? ==>
             CheckRecord(core.strict, Record(m.issuedAt.value, m.runtimeKey, m.payloadHash), HistoryAt(ss[j].disk, key)).Ok?)
  }

  /** Event `i` is the user's decision about `key` at `site`. */
  ghost predicate DecidedAt(ss: seq<State>, es: seq<Event>, i: nat, site: Site, key: Key, prov: Provenance)
    requires |ss| == |es| + 1
  {
    && i < |es| && es[i].Decide? && ss[i].session.Some?
    && ss[i].session.value.loaded.site == site && ss[i].session.value.loaded.publisher == key
    && match prov
       case Observed => true
       case Pinned => es[i].decision == PinFirstContact || es[i].decision == ConfirmNewIdentity
       case Verified => es[i].decision == ConfirmPip
  }

  /** An open session was opened by an earlier verified manifest, whose record it
      holds, and no other manifest was opened since. */
  lemma {:induction false} SessionOrigin(core: Core, ss: seq<State>, es: seq<Event>, n: nat) returns (j: nat)
    requires PeekAgrees(core) && IsRun(core, ss, es) && n <= |es| && ss[n].session.Some?
    ensures j < n
    ensures VerifiedOpen(core, ss, es, j, ss[n].session.value.loaded.site, ss[n].session.value.loaded.publisher)
    ensures ss[n].session.value.loaded.record == RecordFor(core.signature(es[j].manifest, es[j].now).value)
    ensures forall k :: j < k < n ==> !es[k].Open?
  {
    hide CheckRecord, LoadFrom, Persist, Resolve;
    if n > 0 {
      var s, e := ss[n - 1], es[n - 1];
      if e.Open? {
        LoadedFacts(core, s.disk, e.manifest, e.content, e.site, e.now);
        j := n - 1;
      } else {
        j := SessionOrigin(core, ss, es, n - 1);
      }
    }
  }

  lemma {:induction false} TrustOrigin(core: Core, ss: seq<State>, es: seq<Event>, site: Site, n: nat)
    returns (i: nat, j: nat)
    requires PeekAgrees(core) && IsRun(core, ss, es) && n <= |es|
    requires RecordAt(ss[n].disk, site).Some? && RecordAt(ss[n].disk, site) != RecordAt(ss[0].disk, site)
    requires RecordAt(ss[n].disk, site).value.identity.provenance != Observed
    ensures var id := RecordAt(ss[n].disk, site).value.identity;
            && j < i < n
            && DecidedAt(ss, es, i, site, id.pubkey, id.provenance)
            && VerifiedOpen(core, ss, es, j, site, id.pubkey)
            && forall k :: j < k < i ==> !es[k].Open?
  {
    hide Resolve, ApplyIntent, CheckRecord, SessionCoherent;
    if n > 0 {
      var s, e := ss[n - 1], es[n - 1];
      ReachableCoherent(core, ss, es, n - 1);
      StepSite(core, s, e, site);
      if RecordAt(ss[n].disk, site) == RecordAt(s.disk, site) {
        i, j := TrustOrigin(core, ss, es, site, n - 1);
      } else {
        var act := ActOf(core, s, e).value;
        ResolveThenApply(act.loaded.publisher, RecordAt(s.disk, site), act.decision);
        i := n - 1;
        j := SessionOrigin(core, ss, es, n - 1);
      }
    }
  }

  /** An observation the run did not start with was made by an earlier verified open
      of that key, at a time when the site had no record. */
  lemma {:induction false} ObservationOrigin(core: Core, ss: seq<State>, es: seq<Event>, site: Site, n: nat)
    returns (j: nat)
    requires PeekAgrees(core) && IsRun(core, ss, es) && n <= |es|
    requires RecordAt(ss[n].disk, site).Some? && RecordAt(ss[n].disk, site) != RecordAt(ss[0].disk, site)
    requires RecordAt(ss[n].disk, site).value.identity.provenance == Observed
    ensures j < n && RecordAt(ss[j].disk, site).None?
    ensures VerifiedOpen(core, ss, es, j, site, RecordAt(ss[n].disk, site).value.identity.pubkey)
  {
    hide CheckRecord, SessionCoherent, Step, Enabled;
    var s, e := ss[n - 1], es[n - 1];
    ReachableCoherent(core, ss, es, n - 1);
    StepSite(core, s, e, site);
    if RecordAt(ss[n].disk, site) == RecordAt(s.disk, site) {
      j := ObservationOrigin(core, ss, es, site, n - 1);
    } else {
      j := n - 1;
      OnlyOpensObserve(core, s, e, site);
      LoadedFacts(core, s.disk, e.manifest, e.content, e.site, e.now);
    }
  }

  lemma OnlyOpensObserve(core: Core, s: State, e: Event, site: Site)
    requires PeekAgrees(core) && Enabled(s, e) && SessionCoherent(core, s)
    requires RecordAt(Step(core, s, e).disk, site) != RecordAt(s.disk, site)
    requires RecordAt(Step(core, s, e).disk, site).value.identity.provenance == Observed
    ensures e.Open? && e.site == site && RecordAt(s.disk, site).None?
    ensures LoadFrom(core, s.disk, e.manifest, e.content, e.site, e.now).Some?
    ensures RecordAt(Step(core, s, e).disk, site).value.identity.pubkey
              == LoadFrom(core, s.disk, e.manifest, e.content, e.site, e.now).value.publisher
  {
    hide Step, LoadFrom;
    StepSite(core, s, e, site);
    if e.Open? {
      LoadedFacts(core, s.disk, e.manifest, e.content, e.site, e.now);
    }
  }

  /** No silent trust: whatever failed or crashed, a pinned or verified record for
      a key that the run did not start with comes from an earlier decision by the
      user at that site, taken while a manifest presenting that key was open that
      had passed every stage and the history check; a verified record comes from a
      PIP confirmation. A new record merely observed comes from such a manifest too,
      opened while nothing was recorded for the site. */
  lemma NoSilentTrust(core: Core, ss: seq<State>, es: seq<Event>, site: Site, n: nat)
    requires PeekAgrees(core) && IsRun(core, ss, es) && n <= |es|
    requires RecordAt(ss[n].disk, site).Some?
    ensures var id := RecordAt(ss[n].disk, site).value.identity;
            id.provenance != Observed && RecordAt(ss[n].disk, site) != RecordAt(ss[0].disk, site) ==>
              exists i, j :: 0 <= j < i < n
                             && DecidedAt(ss, es, i, site, id.pubkey, id.provenance)
                             && VerifiedOpen(core, ss, es, j, site, id.pubkey)
                             && forall k :: j < k < i ==> !es[k].Open?
    ensures var id := RecordAt(ss[n].disk, site).value.identity;
            id.provenance == Observed && RecordAt(ss[n].disk, site) != RecordAt(ss[0].disk, site) ==>
              exists j :: 0 <= j < n && VerifiedOpen(core, ss, es, j, site, id.pubkey) && RecordAt(ss[j].disk, site).None?
  {
    hide VerifiedOpen, DecidedAt, Step, Enabled;
    if RecordAt(ss[n].disk, site).value.identity.provenance == Observed
       && RecordAt(ss[n].disk, site) != RecordAt(ss[0].disk, site)
    {
      var j := ObservationOrigin(core, ss, es, site, n);
    }
    if RecordAt(ss[n].disk, site).value.identity.provenance != Observed
       && RecordAt(ss[n].disk, site) != RecordAt(ss[0].disk, site)
    {
      var i, j := TrustOrigin(core, ss, es, site, n);
    }
  }

  // ----- Armed mismatch -----

  /** Once a key is retained at a site, any later accepted load there with another
      key than the retained one is a mismatch that touches nothing and offers no
      pinning, never a first contact. */
  lemma MismatchStaysArmed(core: Core, ss: seq<State>, es: seq<Event>, site: Site, n: nat, m: nat)
    requires PeekAgrees(core) && IsRun(core, ss, es) && n <= m < |es|
    requires RecordAt(ss[n].disk, site).Some?
    requires es[m].Open? && es[m].site == site && !es[m].io.crashed
    ensures RecordAt(ss[m].disk, site).Some?
    ensures ss[m + 1].session.Some? ==>
              var l := ss[m + 1].session.value.loaded;
              l.publisher != RecordAt(ss[m].disk, site).value.identity.pubkey ==>
                && l.trustState == ChangedMismatch && l.requiredAction == MismatchWarning
                && ss[m + 1].session.value.prompt == Mismatch
                && ss[m + 1].disk == ss[m].disk
  {
    RecordsOnlyGrow(core, ss, es, site, n, m);
    LoadedFacts(core, ss[m].disk, es[m].manifest, es[m].content, site, es[m].now);
  }

  // ----- Event replay -----

  datatype LogEntry = LogEntry(site: Site, presented: Key, code: TrustCode)

  /** The diagnostic a step surfaces: it sees the resolution and the decision, not
      whether the write that follows takes effect. */
  function Surfaced(core: Core, s: State, e: Event): Option<TrustCode>
    requires Enabled(s, e)
  {
    match ActOf(core, s, e)
    case None => None
    case Some(act) => TrustDiagnostic(ResolutionOf(act), act.decision)
  }

  predicate WriteTookEffect(e: Event) {
    (e.Open? || e.Decide?) && e.io.applied
  }

  /** The log entry of a step: its info diagnostic, if the write took effect. */
  function Logged(core: Core, s: State, e: Event): seq<LogEntry>
    requires Enabled(s, e)
  {
    var code := Surfaced(core, s, e);
    if IsInfo(code) && WriteTookEffect(e)
    then var loaded := ActOf(core, s, e).value.loaded; [LogEntry(loaded.site, loaded.publisher, code.value)]
    else []
  }

  ghost function EventLog(core: Core, ss: seq<State>, es: seq<Event>, n: nat): seq<LogEntry>
    requires IsRun(core, ss, es) && n <= |es|
  {
    if n == 0 then [] else EventLog(core, ss, es, n - 1) + Logged(core, ss[n - 1], es[n - 1])
  }

  function ReplayOne(identities: map<Site, SiteRecord>, entry: LogEntry): map<Site, SiteRecord> {
    var rec := if entry.site in identities then Some(identities[entry.site]) else None;
    match ReplayEvent(rec, entry.presented, entry.code)
    case None => identities
    case Some(after) => identities[entry.site := after]
  }

  function Replay(start: map<Site, SiteRecord>, log: seq<LogEntry>): map<Site, SiteRecord> {
    if log == [] then start else ReplayOne(Replay(start, log[..|log| - 1]), log[|log| - 1])
  }

  /** A step writes identities only by applying its resolution's intent. */
  lemma StepIdentities(core: Core, s: State, e: Event)
    requires PeekAgrees(core) && Enabled(s, e)
    ensures var act := ActOf(core, s, e);
            Step(core, s, e).disk.identities ==
              if act.Some? && act.value.io.applied
              then WithIntent(s.disk, act.value.loaded.site, ResolutionOf(act.value).intent).identities
              else s.disk.identities
  {
  }

  /** A step changes some site's record exactly when it surfaces an info event and
      its write took effect: a change is never silent, and the events are exactly
      the changes except where a write failed. The event alone tells the change. */
  lemma EventIffChange(core: Core, s: State, e: Event)
    requires PeekAgrees(core) && Enabled(s, e) && SessionCoherent(core, s)
    ensures var info, identities' := IsInfo(Surfaced(core, s, e)), Step(core, s, e).disk.identities;
            var changed := identities' != s.disk.identities;
            && (changed ==> info)
            && ((info <==> changed) <==> (WriteTookEffect(e) || !info))
    ensures var log, identities' := Logged(core, s, e), Step(core, s, e).disk.identities;
            && |log| <= 1
            && (log != [] <==> identities' != s.disk.identities)
            && (log != [] ==> identities' == ReplayOne(s.disk.identities, log[0]))
  {
    hide Step, LoadFrom, Resolve, ApplyIntent, ReplayEvent, TrustDiagnostic;
    var act := ActOf(core, s, e);
    StepIdentities(core, s, e);
    if act.Some? {
      var site, presented := act.value.loaded.site, act.value.loaded.publisher;
      StepSite(core, s, e, site);
      ResolveThenApply(presented, RecordAt(s.disk, site), act.value.decision);
      EventDeterminesChange(presented, RecordAt(s.disk, site), act.value.decision);
    }
  }

  /** An observation whose write failed still surfaces its event. */
  lemma FailedWriteStillSurfaces(core: Core, s: State, e: Event)
    requires PeekAgrees(core) && Enabled(s, e) && e.Open? && !e.io.applied
    requires LoadFrom(core, s.disk, e.manifest, e.content, e.site, e.now).Some?
    ensures RecordAt(s.disk, e.site).None? ==> Surfaced(core, s, e) == Some(IFirstContact)
    ensures Step(core, s, e).disk == s.disk
  {
    LoadedFacts(core, s.disk, e.manifest, e.content, e.site, e.now);
  }

  /** Event replay: the info events of a run whose writes took effect, each only a
      site, a presented key and a code, rebuild every identity record on the disk
      from those the run started with. */
  lemma {:induction false} ReplayRebuildsDisk(core: Core, ss: seq<State>, es: seq<Event>, n: nat)
    requires PeekAgrees(core) && IsRun(core, ss, es) && n <= |es|
    ensures Replay(ss[0].disk.identities, EventLog(core, ss, es, n)) == ss[n].disk.identities
  {
    hide SessionCoherent, Step, Enabled, Logged, ReplayOne;
    if n > 0 {
      ReplayRebuildsDisk(core, ss, es, n - 1);
      ReachableCoherent(core, ss, es, n - 1);
      EventIffChange(core, ss[n - 1], es[n - 1]);
      var before, more := EventLog(core, ss, es, n - 1), Logged(core, ss[n - 1], es[n - 1]);
      if more == [] {
        assert before + more == before;
      } else {
        assert (before + more)[..|before|] == before;
      }
    }
  }

  // ----- Publisher histories -----

  lemma PersistHistory(d: Disk, site: Site, intent: Intent, record: Option<Record>, io: Io, key: Key)
    ensures HistoryAt(Persist(d, site, intent, record, io), key) ==
              (if !intent.NoIntent? && io.applied && io.appended && record.Some? && key == IntentKey(intent)
               then [record.value] + HistoryAt(d, key) else HistoryAt(d, key))
  {
    hide ApplyIntent;
  }

  lemma PersistGrowsHistory(d: Disk, site: Site, intent: Intent, record: Option<Record>, io: Io, key: Key)
    ensures GrewFrom(HistoryAt(Persist(d, site, intent, record, io), key), HistoryAt(d, key))
  {
    PersistHistory(d, site, intent, record, io, key);
  }

  lemma StepGrowsHistory(core: Core, s: State, e: Event, key: Key)
    requires Enabled(s, e)
    ensures GrewFrom(HistoryAt(Step(core, s, e).disk, key), HistoryAt(s.disk, key))
  {
    hide Persist, Resolve, LoadFrom, HistoryAt;
    var act := ActOf(core, s, e);
    if e.Open? && act.Some? {
      PersistGrowsHistory(s.disk, act.value.loaded.site, act.value.loaded.initialIntent, act.value.loaded.record, e.io, key);
    } else if e.Decide? {
      var l := s.session.value.loaded;
      PersistGrowsHistory(s.disk, l.site, Resolve(l.publisher, l.retained, e.decision).intent, l.record, e.io, key);
    }
  }

  lemma {:induction false} HistoriesOnlyGrow(core: Core, ss: seq<State>, es: seq<Event>, key: Key, n: nat, m: nat)
    requires IsRun(core, ss, es) && n <= m <= |es|
    ensures GrewFrom(HistoryAt(ss[m].disk, key), HistoryAt(ss[n].disk, key))
  {
    hide HistoryAt, Step, Enabled, GrewFrom;
    if n == m {
      GrewFromItself(HistoryAt(ss[n].disk, key));
    } else {
      HistoriesOnlyGrow(core, ss, es, key, n, m - 1);
      StepGrowsHistory(core, ss[m - 1], es[m - 1], key);
      GrewFromTransitive(HistoryAt(ss[m].disk, key), HistoryAt(ss[m - 1].disk, key), HistoryAt(ss[n].disk, key));
    }
  }

  /** Every history of every reachable state is ordered, also when a crash fell
      between the identity write and the history write. */
  lemma HistoriesOrdered(core: Core, ss: seq<State>, es: seq<Event>, key: Key, n: nat)
    requires PeekAgrees(core) && IsRun(core, ss, es) && n <= |es| && HistoriesGood(core, ss[0].disk)
    requires core.strict ==> CollisionFree(Presented(core, ss[0].disk, es, n))
    ensures Good(core.strict, HistoryAt(ss[n].disk, key))
  {
    Reachable(core, ss, es, n);
  }

  lemma RetainedIsFunctional(core: Core, ss: seq<State>, es: seq<Event>, key: Key, n: nat)
    requires PeekAgrees(core) && IsRun(core, ss, es) && n <= |es| && HistoriesGood(core, ss[0].disk)
    requires CollisionFree(Presented(core, ss[0].disk, es, n))
    ensures var h := HistoryAt(ss[n].disk, key);
            && Good(core.strict, h)
            && forall a, b :: 0 <= a < |h| && 0 <= b < |h| && h[a].payloadHash == h[b].payloadHash ==> h[a] == h[b]
  {
    Reachable(core, ss, es, n);
    var h := HistoryAt(ss[n].disk, key);
    assert Within(h, Presented(core, ss[0].disk, es, n));
  }

  /** No rollback, forever: a manifest whose record was ever superseded in the
      publisher's history is rejected as a downgrade in every later state, and
      opening it changes nothing; the newest recorded one is accepted as long as
      it is the newest. */
  lemma NoRollback(core: Core, ss: seq<State>, es: seq<Event>, key: Key, r: Record, n: nat, m: nat)
    requires PeekAgrees(core) && IsRun(core, ss, es) && n <= m <= |es| && HistoriesGood(core, ss[0].disk)
    requires CollisionFree(Presented(core, ss[0].disk, es, m))
    requires r in HistoryAt(ss[n].disk, key)
    ensures HistoryAt(ss[m].disk, key) != []
    ensures CheckRecord(core.strict, r, HistoryAt(ss[m].disk, key)) ==
              if r.payloadHash == HistoryAt(ss[m].disk, key)[0].payloadHash then Ok(()) else Err(CanaryDowngrade)
    ensures r.payloadHash != HistoryAt(ss[n].disk, key)[0].payloadHash ==>
              CheckRecord(core.strict, r, HistoryAt(ss[m].disk, key)) == Err(CanaryDowngrade)
  {
    hide HistoryAt, Step, Presented, CheckRecord;
    RetainedIsFunctional(core, ss, es, key, m);
    HistoriesOnlyGrow(core, ss, es, key, n, m);
    Superseded(core.strict, r, HistoryAt(ss[n].disk, key), HistoryAt(ss[m].disk, key));
  }

  lemma Superseded(strict: bool, r: Record, h: seq<Record>, g: seq<Record>)
    requires Ordered(g) && GrewFrom(g, h) && r in h
    requires forall i :: 0 <= i < |g| && g[i].payloadHash == r.payloadHash ==> g[i] == r
    ensures CheckRecord(strict, r, g) == if r.payloadHash == g[0].payloadHash then Ok(()) else Err(CanaryDowngrade)
    ensures r.payloadHash != h[0].payloadHash ==> r.payloadHash != g[0].payloadHash
  {
    var i :| 0 <= i < |h| && h[i] == r;
    assert g[|g| - |h| + i] == r;
    ExactRefetch(strict, r, g);
    assert g[|g| - |h|] == h[0];
  }

  /** Opening a superseded manifest is a rejected load: the state stays. */
  lemma RolledBackOpenIsRejected(core: Core, ss: seq<State>, es: seq<Event>, n: nat, m: nat)
    requires PeekAgrees(core) && IsRun(core, ss, es) && n <= m < |es| && HistoriesGood(core, ss[0].disk)
    requires CollisionFree(Presented(core, ss[0].disk, es, m))
    requires es[m].Open? && core.signature(es[m].manifest, es[m].now).Ok?
    requires var mf := core.signature(es[m].manifest, es[m].now).value;
             && RecordFor(mf).Some?
             && RecordFor(mf).value in HistoryAt(ss[n].disk, mf.publisher)
             && mf.payloadHash != HistoryAt(ss[n].disk, mf.publisher)[0].payloadHash
    ensures ss[m + 1] == ss[m]
  {
    var mf := core.signature(es[m].manifest, es[m].now).value;
    NoRollback(core, ss, es, mf.publisher, RecordFor(mf).value, n, m);
    LoadedFacts(core, ss[m].disk, es[m].manifest, es[m].content, es[m].site, es[m].now);
  }

  /** Rotation blocks: with the extended-history check enforced, every reachable
      history is a list of contiguous blocks of one record each, and two entries
      have the same runtime key exactly when they are in the same block. */
  lemma RotationBlocks(core: Core, ss: seq<State>, es: seq<Event>, key: Key, n: nat, i: nat, j: nat, k: nat)
    requires PeekAgrees(core) && IsRun(core, ss, es) && n <= |es| && HistoriesGood(core, ss[0].disk)
    requires core.strict && CollisionFree(Presented(core, ss[0].disk, es, n))
    requires i <= j <= k < |HistoryAt(ss[n].disk, key)|
    ensures var h := HistoryAt(ss[n].disk, key);
            && (h[i] == h[k] ==> h[j] == h[i])
            && (h[i] == h[k] <==> h[i].runtimeKey == h[k].runtimeKey)
  {
    RetainedIsFunctional(core, ss, es, key, n);
    PayloadBlocks(HistoryAt(ss[n].disk, key), i, j, k);
  }

  // ----- Sessions against the store -----

  /** Whether a failed reload has left the session's snapshot behind the store: the
      last store access that failed to reload followed a write, and no later one
      reloaded. At the opening only a first contact writes. */
  ghost predicate Stale(ss: seq<State>, es: seq<Event>, n: nat)
    requires |ss| == |es| + 1 && n <= |es|
  {
    n > 0 &&
      match es[n - 1]
      case Open(site, _, _, _, io) => !io.reloaded && io.applied && RecordAt(ss[n - 1].disk, site).None?
      case Decide(_, io) => !io.reloaded && (io.applied || Stale(ss, es, n - 1))
      case Decline => Stale(ss, es, n - 1)
      case Close => Stale(ss, es, n - 1)
  }

  /** The identity a session holds is the stored one exactly when no failed reload
      left it behind. */
  lemma {:induction false} SnapshotIsStoredIff(core: Core, ss: seq<State>, es: seq<Event>, n: nat)
    requires PeekAgrees(core) && IsRun(core, ss, es) && n <= |es| && ss[n].session.Some?
    ensures var q := ss[n].session.value.loaded;
            q.retained == IdentityOf(RecordAt(ss[n].disk, q.site)) <==> !Stale(ss, es, n)
  {
    hide CheckRecord, LoadFrom, Persist;
    if n > 0 {
      var s, e := ss[n - 1], es[n - 1];
      ReachableCoherent(core, ss, es, n - 1);
      match e
      case Open(site, bytes, content, now, io) =>
        LoadedFacts(core, s.disk, bytes, content, site, now);
        var l := LoadFrom(core, s.disk, bytes, content, site, now).value;
        PersistSite(s.disk, site, l.initialIntent, l.record, io, site);
      case Decide(decision, io) =>
        var q := s.session.value.loaded;
        SnapshotIsStoredIff(core, ss, es, n - 1);
        SnapshotIsGoodEnough(core, s, decision);
        PersistSite(s.disk, q.site, Resolve(q.publisher, q.retained, decision).intent, q.record, io, q.site);
      case Decline => SnapshotIsStoredIff(core, ss, es, n - 1);
      case Close =>
    }
  }

  /** Whether a load succeeds depends on the disk only through the history check. */
  lemma LoadTransfers(core: Core, d1: Disk, d2: Disk, bytes: Bytes, content: Option<Bytes>, site: Site, now: int)
    requires PeekAgrees(core) && LoadFrom(core, d1, bytes, content, site, now).Some?
    requires var l := LoadFrom(core, d1, bytes, content, site, now).value;
             l.record.Some? ==> CheckRecord(core.strict, l.record.value, HistoryAt(d2, l.publisher)).Ok?
    ensures var l1, l2 := LoadFrom(core, d1, bytes, content, site, now), LoadFrom(core, d2, bytes, content, site, now);
            && l2.Some? && l2.value.publisher == l1.value.publisher && l2.value.record == l1.value.record
  {
  }

  /** Whether what the session shows was not recorded: the first contact, or the
      decision, was not written. */
  ghost predicate Unsaved(ss: seq<State>, es: seq<Event>, n: nat)
    requires |ss| == |es| + 1 && n <= |es|
  {
    n > 0 &&
      match es[n - 1]
      case Open(site, _, _, _, io) => !io.applied && RecordAt(ss[n - 1].disk, site).None?
      case Decide(_, io) => !io.applied
      case Decline => Unsaved(ss, es, n - 1)
      case Close => false
  }

  /** Resolving the session's key against the store, undecided, wants nothing, asks
      for the action shown and shows the state shown; a replacement just confirmed,
      shown as First contact, is a TOFU pin. */
  ghost predicate Settled(q: Loaded, d: Disk, confirmed: bool) {
    var again := Resolve(q.publisher, IdentityOf(RecordAt(d, q.site)), NoDecision);
    && again.intent == NoIntent && again.action == q.requiredAction
    && if confirmed then q.trustState == FirstContact && again.state == TofuPinned
       else q.trustState == again.state
  }

  predicate ConfirmedLast(es: seq<Event>, n: nat)
    requires n <= |es|
  {
    n > 0 && es[n - 1].Decide? && es[n - 1].decision == ConfirmNewIdentity
  }

  /** A decision offered by a prompt changes the session's resolution: unless it is
      written, asking again does not give what it shows. */
  lemma UnwrittenDecisionShows(presented: Key, stored: Option<Identity>, decision: Decision)
    requires var moved := stored.Some? && stored.value.pubkey != presented;
             decision in Offered(if moved then Mismatch else Pinning)
    requires stored.Some? && stored.value.pubkey == presented ==> stored.value.provenance == Observed
    ensures Resolve(presented, stored, decision).action == NoAction
    ensures Resolve(presented, stored, NoDecision).action != NoAction
  {
  }

  lemma DecideSettles(core: Core, s: State, decision: Decision, io: Io)
    requires SessionCoherent(core, s) && Enabled(s, Decide(decision, io))
    ensures var s' := Step(core, s, Decide(decision, io));
            s'.session.Some? ==>
              (Settled(s'.session.value.loaded, s'.disk, decision == ConfirmNewIdentity) <==> io.applied)
  {
    hide Persist, ApplyIntent, CheckRecord, Resolve;
    var q := s.session.value.loaded;
    var rec := RecordAt(s.disk, q.site);
    SnapshotIsGoodEnough(core, s, decision);
    PersistSite(s.disk, q.site, Resolve(q.publisher, q.retained, decision).intent, q.record, io, q.site);
    AppliedIsSettled(q.publisher, rec, decision);
    UnwrittenDecisionShows(q.publisher, IdentityOf(rec), decision);
  }

  lemma OpenSettles(core: Core, s: State, e: Event)
    requires PeekAgrees(core) && Enabled(s, e) && e.Open?
    ensures var s' := Step(core, s, e);
            s'.session.Some? ==>
              (Settled(s'.session.value.loaded, s'.disk, false) <==> e.io.applied || RecordAt(s.disk, e.site).Some?)
  {
    hide Persist, LoadFrom, CheckRecord;
    var l := LoadFrom(core, s.disk, e.manifest, e.content, e.site, e.now);
    LoadedFacts(core, s.disk, e.manifest, e.content, e.site, e.now);
    if l.Some? {
      PersistSite(s.disk, e.site, l.value.initialIntent, l.value.record, e.io, e.site);
      AppliedIsSettled(l.value.publisher, RecordAt(s.disk, e.site), NoDecision);
    }
  }

  /** A refusal follows the opening: no prompt is open after a decision. */
  lemma {:induction false} SettledIff(core: Core, ss: seq<State>, es: seq<Event>, n: nat)
    requires PeekAgrees(core) && IsRun(core, ss, es) && n <= |es| && ss[n].session.Some?
    ensures Settled(ss[n].session.value.loaded, ss[n].disk, ConfirmedLast(es, n)) <==> !Unsaved(ss, es, n)
    ensures ConfirmedLast(es, n) ==> ss[n].session.value.prompt == NoPrompt
  {
    hide Settled, Resolve, Persist, LoadFrom, SessionCoherent;
    if n > 0 {
      var s, e := ss[n - 1], es[n - 1];
      ReachableCoherent(core, ss, es, n - 1);
      match e
      case Open(_, _, _, _, _) => OpenSettles(core, s, e);
      case Decide(decision, io) => DecideSettles(core, s, decision, io);
      case Decline => SettledIff(core, ss, es, n - 1);
      case Close =>
    }
  }

  /** The manifest that opened the session still loads from the store, as the same
      publisher's and with the same record. */
  lemma {:induction false} ReopenLoads(core: Core, ss: seq<State>, es: seq<Event>, n: nat) returns (j: nat)
    requires PeekAgrees(core) && IsRun(core, ss, es) && n <= |es| && ss[n].session.Some?
    ensures j < n && es[j].Open? && forall k :: j < k < n ==> !es[k].Open?
    ensures var q, again := ss[n].session.value.loaded,
                            LoadFrom(core, ss[n].disk, es[j].manifest, es[j].content, es[j].site, es[j].now);
            && q.site == es[j].site
            && again.Some? && again.value.publisher == q.publisher && again.value.record == q.record
  {
    hide LoadFrom, CheckRecord, Persist, Resolve, SessionCoherent;
    var s, e := ss[n - 1], es[n - 1];
    ReachableCoherent(core, ss, es, n);
    if e.Open? {
      j := n - 1;
      LoadedFacts(core, s.disk, e.manifest, e.content, e.site, e.now);
    } else {
      j := ReopenLoads(core, ss, es, n - 1);
    }
    var d := if e.Open? then s.disk else ss[n - 1].disk;
    AcceptedStays(core, ss[n]);
    LoadTransfers(core, d, ss[n].disk, es[j].manifest, es[j].content, es[j].site, es[j].now);
  }

  lemma AcceptedStays(core: Core, s: State)
    requires SessionCoherent(core, s) && s.session.Some?
    ensures var q := s.session.value.loaded;
            q.record.Some? ==> CheckRecord(core.strict, q.record.value, HistoryAt(s.disk, q.publisher)).Ok?
  {
  }

  /** Reload agreement: whatever failed, the manifest of an open session loads again
      from the store as it is. That load leaves the disk alone, asks what the session
      asks and shows what it shows exactly when what the session shows was written;
      a replacement just confirmed, shown as First contact, comes back as a TOFU pin.
      It holds the session's own snapshot exactly when that is not stale. */
  lemma ReopenAgrees(core: Core, ss: seq<State>, es: seq<Event>, n: nat) returns (j: nat)
    requires PeekAgrees(core) && IsRun(core, ss, es) && n <= |es| && ss[n].session.Some?
    ensures j < n && es[j].Open? && forall k :: j < k < n ==> !es[k].Open?
    ensures var q, l := ss[n].session.value.loaded,
                        LoadFrom(core, ss[n].disk, es[j].manifest, es[j].content, es[j].site, es[j].now);
            && l.Some?
            && var again := l.value;
               && again.site == q.site && again.publisher == q.publisher && again.record == q.record
               && (!Unsaved(ss, es, n) <==>
                     && again.initialIntent == NoIntent && again.requiredAction == q.requiredAction
                     && if ConfirmedLast(es, n) then q.trustState == FirstContact && again.trustState == TofuPinned
                        else again.trustState == q.trustState)
               && (again.retained == q.retained <==> !Stale(ss, es, n))
    ensures !Unsaved(ss, es, n) ==>
              forall io :: Step(core, State(ss[n].disk, None),
                                Open(es[j].site, es[j].manifest, es[j].content, es[j].now, io)).disk == ss[n].disk
  {
    hide LoadFrom, CheckRecord, Resolve, Stale, Unsaved;
    j := ReopenLoads(core, ss, es, n);
    LoadedFacts(core, ss[n].disk, es[j].manifest, es[j].content, es[j].site, es[j].now);
    SettledIff(core, ss, es, n);
    SnapshotIsStoredIff(core, ss, es, n);
  }

  // ----- Where recorded manifests come from -----

  lemma IntentIffInfo(presented: Key, retained: Option<Identity>, decision: Decision)
    ensures var r := Resolve(presented, retained, decision);
            && (r.intent != NoIntent <==> IsInfo(TrustDiagnostic(r, decision)))
            && (r.intent != NoIntent ==> IntentKey(r.intent) == presented)
  {
  }

  /** The anti-downgrade floor follows what was recorded, not what was accepted: a
      step puts the manifest's record in front of its publisher's history exactly
      when it surfaces an info event and both writes take effect, and changes no
      history otherwise. An accepted open surfaces one exactly when nothing was
      retained for the site, and a decision always does. */
  lemma FloorFollowsRecorded(core: Core, s: State, e: Event, key: Key)
    requires PeekAgrees(core) && Enabled(s, e) && SessionCoherent(core, s)
    ensures var act, h, h' := ActOf(core, s, e), HistoryAt(s.disk, key), HistoryAt(Step(core, s, e).disk, key);
            var recorded := IsInfo(Surfaced(core, s, e)) && e.io.applied && e.io.appended;
            if act.Some? && act.value.loaded.publisher == key && act.value.loaded.record.Some?
            then h' == (if recorded then [act.value.loaded.record.value] + h else h)
                 && (Newest(h') == act.value.loaded.record <==> recorded || Newest(h) == act.value.loaded.record)
            else h' == h
    ensures e.Open? && ActOf(core, s, e).Some? ==> (IsInfo(Surfaced(core, s, e)) <==> RecordAt(s.disk, e.site).None?)
    ensures e.Decide? ==> IsInfo(Surfaced(core, s, e))
  {
    hide LoadFrom, Persist, CheckRecord, HistoryAt, TrustDiagnostic;
    var act := ActOf(core, s, e);
    if act.Some? {
      var l, intent := act.value.loaded, ResolutionOf(act.value).intent;
      IntentIffInfo(l.publisher, l.retained, act.value.decision);
      if e.Open? {
        LoadedFacts(core, s.disk, e.manifest, e.content, e.site, e.now);
      }
      PersistHistory(s.disk, l.site, intent, l.record, e.io, key);
    }
  }

  /** Event `j` opened a manifest of this publisher, with this record, that passed
      every stage. */
  ghost predicate PresentedBy(core: Core, ss: seq<State>, es: seq<Event>, j: nat, key: Key, r: Record)
    requires |ss| == |es| + 1
  {
    j < |es| && es[j].Open? && VerifiedOpen(core, ss, es, j, es[j].site, key)
    && RecordFor(core.signature(es[j].manifest, es[j].now).value) == Some(r)
  }

  /** Persistence ordering: every entry a history has gained is the record of a
      manifest of that publisher that was opened and had passed every stage. */
  lemma {:induction false} HistoryOrigin(core: Core, ss: seq<State>, es: seq<Event>, key: Key, n: nat, i: nat) returns (j: nat)
    requires PeekAgrees(core) && IsRun(core, ss, es) && n <= |es|
    requires i < |HistoryAt(ss[n].disk, key)| - |HistoryAt(ss[0].disk, key)|
    ensures j < n && PresentedBy(core, ss, es, j, key, HistoryAt(ss[n].disk, key)[i])
  {
    hide HistoryAt, Step, SessionCoherent, LoadFrom, CheckRecord;
    var s, e := ss[n - 1], es[n - 1];
    var h, h' := HistoryAt(s.disk, key), HistoryAt(ss[n].disk, key);
    ReachableCoherent(core, ss, es, n - 1);
    FloorFollowsRecorded(core, s, e, key);
    if h' == h {
      j := HistoryOrigin(core, ss, es, key, n - 1, i);
    } else if i > 0 {
      j := HistoryOrigin(core, ss, es, key, n - 1, i - 1);
    } else if e.Open? {
      LoadedFacts(core, s.disk, e.manifest, e.content, e.site, e.now);
      j := n - 1;
    } else {
      j := SessionOrigin(core, ss, es, n - 1);
    }
  }

  // ----- Examples -----

  const PUBLISHER := Key(seq(32, _ => 1 as byte))
  const OTHER_KEY := Key(seq(32, _ => 2 as byte))
  const OLDER := Manifest(PUBLISHER, Some(1), PUBLISHER, PUBLISHER.bytes)
  const NEWER := Manifest(PUBLISHER, Some(2), OTHER_KEY, OTHER_KEY.bytes)

  /** A core that passes every manifest, and reads the empty one as `OLDER` and any
      other as `NEWER`. */
  function TwoManifests(): (core: Core)
    ensures PeekAgrees(core)
  {
    Core(
      (bytes: Bytes, now: int) => Ok(if bytes == [] then OLDER else NEWER),
      (m: Manifest, now: int) => Ok(()),
      (m: Manifest, site: Site, now: int) => Ok(()),
      (m: Manifest, index: Option<Bytes>) => Ok(()),
      (bytes: Bytes, key: Key) => Ok(()),
      (bytes: Bytes) => Some(PUBLISHER),
      false)
  }

  /** The documentation says the checks run against what was accepted before. They
      run against what was recorded: a run that pins nothing after first contact
      accepts a newer manifest of a known key and then the older one again. */
  lemma AcceptedIsNotRecorded() returns (core: Core, older: Event, newer: Event)
    ensures PeekAgrees(core) && older.Open? && newer.Open?
    ensures var s1 := Step(core, INITIAL, older);
            s1.session.Some?
            && var s2 := Step(core, Step(core, s1, Close), newer);
               s2.session.Some? && s2.session.value.loaded.record.Some?
               && var s3 := Step(core, Step(core, s2, Close), older);
                  s3.session.Some? && s3.session.value.loaded.record.Some?
                  && s3.session.value.loaded.record.value.issuedAt < s2.session.value.loaded.record.value.issuedAt
  {
    core := TwoManifests();
    assert PUBLISHER.bytes[0] != OTHER_KEY.bytes[0];
    var site := Site(ANY_ONION);
    older := Open(site, [], None, 0, FAULTLESS);
    newer := Open(site, [0], None, 0, FAULTLESS);
    var s1 := Step(core, INITIAL, older);
    var l1 := LoadFrom(core, INITIAL.disk, [], None, site, 0);
    assert l1.Some? && l1.value.initialIntent == RecordObservation(PUBLISHER);
    assert RecordAt(s1.disk, site) == Some(SiteRecord(Identity(PUBLISHER, Observed), []));
    assert HistoryAt(s1.disk, PUBLISHER) == [RecordFor(OLDER).value];
    var s2 := Step(core, Step(core, s1, Close), newer);
    assert LoadFrom(core, s1.disk, [0], None, site, 0).value.initialIntent == NoIntent;
    assert s2.disk == s1.disk;
  }

  /** A first open whose reload fails leaves a snapshot saying nothing is retained
      beside the observation it has just written. */
  lemma SnapshotCanBeStale() returns (core: Core, open: Event)
    ensures PeekAgrees(core) && open.Open? && open.io == Io(true, true, false, false)
    ensures var s1 := Step(core, INITIAL, open);
            s1.session.Some? && s1.session.value.loaded.retained.None? && RecordAt(s1.disk, open.site).Some?
  {
    core := TwoManifests();
    open := Open(Site(ANY_ONION), [], None, 0, Io(true, true, false, false));
    assert LoadFrom(core, INITIAL.disk, [], None, open.site, 0).value.initialIntent == RecordObservation(PUBLISHER);
  }

  /** A first open whose write fails surfaces an observation and records none. */
  lemma EventWithoutChange() returns (core: Core, open: Event)
    ensures PeekAgrees(core) && open.Open?
    ensures Surfaced(core, INITIAL, open) == Some(IFirstContact)
    ensures Step(core, INITIAL, open).disk == INITIAL.disk
  {
    core := TwoManifests();
    open := Open(Site(ANY_ONION), [], None, 0, Io(false, false, true, false));
    assert LoadFrom(core, INITIAL.disk, [], None, open.site, 0).Some?;
    FailedWriteStillSurfaces(core, INITIAL, open);
  }
}
