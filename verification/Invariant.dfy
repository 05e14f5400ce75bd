/** What every state of every run satisfies. */
module Invariant {
  import opened Types
  import opened Trust
  import opened History
  import opened Client

  /** The open session agrees with the store. While a prompt is open, the
      snapshot is the stored identity, or is the first-contact `None` that a
      failed reload left behind while the observation was being written. */
  ghost predicate SessionCoherent(core: Core, s: State) {
    s.session.Some? ==>
      var q := s.session.value.loaded;
      var rec := RecordAt(s.disk, q.site);
      && (q.record.Some? ==> CheckRecord(core.strict, q.record.value, HistoryAt(s.disk, q.publisher)).Ok?)
      && (s.session.value.prompt == Pinning ==>
            && (rec.None? || rec.value.identity == Identity(q.publisher, Observed))
            && (q.retained.None? || q.retained == IdentityOf(rec)))
      && (s.session.value.prompt == Mismatch ==>
            && rec.Some? && q.retained == IdentityOf(rec)
            && rec.value.identity.pubkey != q.publisher)
  }

  ghost predicate HistoriesGood(core: Core, d: Disk) {
    forall key :: Good(core.strict, HistoryAt(d, key))
  }

  /** Every stored record was there at first or presented by some manifest of the run. */
  ghost predicate Sourced(s: State, rs: set<Record>) {
    && (forall key :: Within(HistoryAt(s.disk, key), rs))
    && (s.session.Some? && s.session.value.loaded.record.Some? ==> s.session.value.loaded.record.value in rs)
  }

  ghost predicate Inv(core: Core, s: State, rs: set<Record>) {
    SessionCoherent(core, s) && HistoriesGood(core, s.disk) && Sourced(s, rs)
  }

  /** The prompt opened for a loaded document is the one its snapshot calls for. */
  lemma LoadedFacts(core: Core, d: Disk, bytes: Bytes, content: Option<Bytes>, site: Site, now: int)
    requires PeekAgrees(core)
    ensures var l := LoadFrom(core, d, bytes, content, site, now);
            l.Some? ==>
              && core.signature(bytes, now).Ok?
              && var m := core.signature(bytes, now).value;
                 && VerifyManifest(core, bytes, site, None, now, HistoryAt(d, m.publisher)) == Ok(m)
                 && l.value.site == site && l.value.publisher == m.publisher
                 && l.value.record == RecordFor(m)
                 && l.value.retained == IdentityOf(RecordAt(d, site))
                 && Resolve(m.publisher, l.value.retained, NoDecision)
                      == Resolution(l.value.trustState, l.value.requiredAction, l.value.initialIntent)
                 && (l.value.record.Some? ==>
                       CheckRecord(core.strict, l.value.record.value, HistoryAt(d, m.publisher)).Ok?)
  {
  }

  /** A load succeeds exactly when every stage passes, the record (if the canary's
      instant validates) passes the checks against the history of the manifest's own
      publisher, and the content, if any, verifies under the manifest's runtime key. */
  lemma LoadSucceedsIff(core: Core, d: Disk, bytes: Bytes, content: Option<Bytes>, site: Site, now: int)
    requires PeekAgrees(core)
    ensures LoadFrom(core, d, bytes, content, site, now).Some? <==>
              && core.signature(bytes, now).Ok?
              && var m := core.signature(bytes, now).value;
                 && core.canary(m, now).Ok? && core.origin(m, site, now).Ok? && core.contentIndex(m, None).Ok?
                 && (m.issuedAt.Some? ==>
                       CheckRecord(core.strict, Record(m.issuedAt.value, m.runtimeKey, m.payloadHash),
                                   HistoryAt(d, m.publisher)).Ok?)
                 && (content.Some? ==> core.content(content.value, m.runtimeKey).Ok?)
  {
  }

  /** The diagnostic of a rejected manifest is that of the first stage, in this
      order, that does not pass; the history check is the last. */
  lemma FirstFailingStage(core: Core, bytes: Bytes, site: Site, index: Option<Bytes>, now: int, h: seq<Record>)
    ensures var verdict, signed := VerifyManifest(core, bytes, site, index, now, h), core.signature(bytes, now);
            if signed.Err? then verdict == Err(signed.error)
            else
              var m := signed.value;
              && (core.canary(m, now).Err? ==> verdict == Err(core.canary(m, now).error))
              && (core.canary(m, now).Ok? && core.origin(m, site, now).Err? ==> verdict == Err(core.origin(m, site, now).error))
              && (core.canary(m, now).Ok? && core.origin(m, site, now).Ok? && core.contentIndex(m, index).Err? ==>
                    verdict == Err(core.contentIndex(m, index).error))
              && (core.canary(m, now).Ok? && core.origin(m, site, now).Ok? && core.contentIndex(m, index).Ok? ==>
                    verdict == match CheckAgainstHistory(core.strict, m, h) case Err(d) => Err(d) case Ok(_) => Ok(m))
  {
  }

  /** A load reports the manifest's rejection before the content's, and otherwise
      holds what was asked for, what was verified and what the store held. */
  lemma LoadReports(core: Core, bytes: Bytes, content: Option<Bytes>, site: Site, now: int,
                    retained: Option<Identity>, h: seq<Record>)
    ensures var verdict, l := VerifyManifest(core, bytes, site, None, now, h), Load(core, bytes, content, site, now, retained, h);
            && (verdict.Err? ==> l == Err(verdict.error))
            && (verdict.Ok? && content.Some? && core.content(content.value, verdict.value.runtimeKey).Err? ==>
                  l == Err(core.content(content.value, verdict.value.runtimeKey).error))
            && (verdict.Ok? && (content.None? || core.content(content.value, verdict.value.runtimeKey).Ok?) ==>
                  && l.Ok? && l.value.site == site && l.value.publisher == verdict.value.publisher
                  && l.value.retained == retained
                  && l.value.record == (if verdict.value.issuedAt.None? then None
                                        else Some(Record(verdict.value.issuedAt.value, verdict.value.runtimeKey, verdict.value.payloadHash)))
                  && Resolution(l.value.trustState, l.value.requiredAction, l.value.initialIntent)
                       == Resolve(verdict.value.publisher, retained, NoDecision))
  {
  }

  /** Which prompt an accepted open leaves, by what the store held before: the pin
      prompt for a site without a record or with a mere observation of this key, the
      mismatch prompt for a record of another key, none for a pinned or verified
      record of this key. And which buttons it offers. */
  lemma OpenPrompts(core: Core, s: State, e: Event, decision: Decision, io: Io)
    requires PeekAgrees(core) && Enabled(s, e) && e.Open? && !e.io.crashed
    requires LoadFrom(core, s.disk, e.manifest, e.content, e.site, e.now).Some?
    ensures var s', rec := Step(core, s, e), RecordAt(s.disk, e.site);
            var key := core.signature(e.manifest, e.now).value.publisher;
            var unpinned := rec.None? || rec.value.identity == Identity(key, Observed);
            var moved := rec.Some? && rec.value.identity.pubkey != key;
            && s'.session.Some?
            && (s'.session.value.prompt == Pinning <==> unpinned)
            && (s'.session.value.prompt == Mismatch <==> moved)
            && (s'.session.value.prompt == NoPrompt <==>
                  rec.Some? && rec.value.identity.pubkey == key && rec.value.identity.provenance in {Pinned, Verified})
            && (Enabled(s', Decide(decision, io)) <==>
                  || (unpinned && (decision == PinFirstContact || decision == ConfirmPip))
                  || (moved && (decision == ConfirmNewIdentity || decision == ConfirmPip)))
            && (Enabled(s', Decline) <==> unpinned || moved)
            && Enabled(s', Close)
  {
    hide CheckRecord, LoadFrom, Persist;
    LoadedFacts(core, s.disk, e.manifest, e.content, e.site, e.now);
  }

  /** A decision or a refusal closes the prompt, the end of the program or a crash
      the session; a refusal and an end write nothing, and an open that is rejected
      leaves no session. */
  lemma PromptsClose(core: Core, s: State, e: Event)
    requires Enabled(s, e)
    ensures var s' := Step(core, s, e);
            && (e.Decide? && !e.io.crashed ==>
                  s'.session.Some? && s'.session.value.prompt == NoPrompt
                  && s'.session.value.loaded.publisher == s.session.value.loaded.publisher
                  && s'.session.value.loaded.site == s.session.value.loaded.site
                  && s'.session.value.loaded.record == s.session.value.loaded.record)
            && ((e.Decide? || e.Open?) && e.io.crashed ==> s'.session.None?)
            && (e.Decline? ==> s' == State(s.disk, Some(Session(s.session.value.loaded, NoPrompt))))
            && (e.Close? ==> s' == State(s.disk, None))
            && (e.Open? && LoadFrom(core, s.disk, e.manifest, e.content, e.site, e.now).None? ==> s' == s)
  {
    hide LoadFrom, Persist;
  }

  /** One more accepted record keeps every history good. */
  lemma AppendKeepsHistories(core: Core, d: Disk, p: Key, r: Record, rs: set<Record>)
    requires HistoriesGood(core, d) && (forall key :: Within(HistoryAt(d, key), rs))
    requires r in rs && CheckRecord(core.strict, r, HistoryAt(d, p)).Ok?
    requires core.strict ==> CollisionFree(rs)
    ensures HistoriesGood(core, WithRecord(d, p, r))
    ensures forall key :: Within(HistoryAt(WithRecord(d, p, r), key), rs)
  {
    var h := HistoryAt(d, p);
    assert Good(core.strict, h) && Within(h, rs);
    assert core.strict ==> forall i :: 0 <= i < |h| && h[i].payloadHash == r.payloadHash ==> h[i] == r;
    PushKeepsGood(core.strict, r, h);
    forall key
      ensures Good(core.strict, HistoryAt(WithRecord(d, p, r), key))
      ensures Within(HistoryAt(WithRecord(d, p, r), key), rs)
    {
      if key == p {
        assert Within([r] + h, rs);
      } else {
        assert HistoryAt(WithRecord(d, p, r), key) == HistoryAt(d, key);
      }
    }
  }

  /** Persisting keeps the histories good. */
  lemma PersistKeepsHistories(core: Core, d: Disk, l: Loaded, intent: Intent, io: Io, rs: set<Record>)
    requires HistoriesGood(core, d) && (forall key :: Within(HistoryAt(d, key), rs))
    requires l.record.Some? ==> l.record.value in rs
                                && CheckRecord(core.strict, l.record.value, HistoryAt(d, l.publisher)).Ok?
    requires !intent.NoIntent? ==> IntentKey(intent) == l.publisher
    requires core.strict ==> CollisionFree(rs)
    ensures var d' := Persist(d, l.site, intent, l.record, io);
            && HistoriesGood(core, d')
            && (forall key :: Within(HistoryAt(d', key), rs))
  {
    var d1 := WithIntent(d, l.site, intent);
    assert forall key :: HistoryAt(d1, key) == HistoryAt(d, key);
    if l.record.Some? {
      AppendKeepsHistories(core, d1, l.publisher, l.record.value, rs);
    }
  }

  /** The record of the persisting step's own site, whatever failed. */
  lemma PersistSite(d: Disk, site: Site, intent: Intent, record: Option<Record>, io: Io, other: Site)
    ensures var d' := Persist(d, site, intent, record, io);
            RecordAt(d', other) ==
              if other == site && io.applied then ApplyIntent(RecordAt(d, site), intent) else RecordAt(d, other)
  {
  }

  /** A decision is resolved as if against the stored record, even when a failed
      reload left the snapshot behind. */
  lemma SnapshotIsGoodEnough(core: Core, s: State, decision: Decision)
    requires SessionCoherent(core, s) && s.session.Some? && decision in Offered(s.session.value.prompt)
    ensures var q := s.session.value.loaded;
            Resolve(q.publisher, q.retained, decision)
              == Resolve(q.publisher, IdentityOf(RecordAt(s.disk, q.site)), decision)
  {
  }

  /** A record that was acceptable stays so, recorded once more or not. */
  lemma PersistKeepsAcceptance(core: Core, d: Disk, l: Loaded, intent: Intent, io: Io)
    requires l.record.Some? ==> CheckRecord(core.strict, l.record.value, HistoryAt(d, l.publisher)).Ok?
    requires !intent.NoIntent? ==> IntentKey(intent) == l.publisher
    ensures var d' := Persist(d, l.site, intent, l.record, io);
            l.record.Some? ==> CheckRecord(core.strict, l.record.value, HistoryAt(d', l.publisher)).Ok?
  {
  }

  /** Coherence needs nothing about payload hashes. */
  lemma StepKeepsCoherence(core: Core, s: State, e: Event)
    requires PeekAgrees(core) && Enabled(s, e) && SessionCoherent(core, s)
    ensures SessionCoherent(core, Step(core, s, e))
  {
    hide CheckRecord, LoadFrom, HistoryAt, Persist;
    match e
    case Open(site, bytes, content, now, io) =>
      LoadedFacts(core, s.disk, bytes, content, site, now);
      var l := LoadFrom(core, s.disk, bytes, content, site, now);
      if l.Some? {
        PersistKeepsAcceptance(core, s.disk, l.value, l.value.initialIntent, io);
        PersistSite(s.disk, site, l.value.initialIntent, l.value.record, io, site);
      }
    case Decide(decision, io) =>
      var q := s.session.value.loaded;
      PersistKeepsAcceptance(core, s.disk, Redecided(q, decision), Resolve(q.publisher, q.retained, decision).intent, io);
    case Decline =>
    case Close =>
  }

  lemma StepKeepsHistories(core: Core, s: State, e: Event, rs: set<Record>)
    requires PeekAgrees(core) && Inv(core, s, rs) && Enabled(s, e)
    requires core.strict ==> CollisionFree(rs)
    requires e.Open? && core.signature(e.manifest, e.now).Ok? && RecordFor(core.signature(e.manifest, e.now).value).Some? ==>
               RecordFor(core.signature(e.manifest, e.now).value).value in rs
    ensures HistoriesGood(core, Step(core, s, e).disk) && Sourced(Step(core, s, e), rs)
  {
    hide CheckRecord, LoadFrom, HistoryAt, Persist, Within, Good, ApplyIntent;
    match e
    case Open(site, bytes, content, now, io) =>
      LoadedFacts(core, s.disk, bytes, content, site, now);
      var l := LoadFrom(core, s.disk, bytes, content, site, now);
      if l.Some? {
        PersistKeepsHistories(core, s.disk, l.value, l.value.initialIntent, io, rs);
      }
    case Decide(decision, io) =>
      var q := s.session.value.loaded;
      PersistKeepsHistories(core, s.disk, Redecided(q, decision), Resolve(q.publisher, q.retained, decision).intent, io, rs);
    case Decline =>
    case Close =>
  }

  lemma StepKeepsInv(core: Core, s: State, e: Event, rs: set<Record>, rs': set<Record>)
    requires PeekAgrees(core) && Inv(core, s, rs) && Enabled(s, e) && rs <= rs'
    requires core.strict ==> CollisionFree(rs')
    requires e.Open? && core.signature(e.manifest, e.now).Ok? && RecordFor(core.signature(e.manifest, e.now).value).Some? ==>
               RecordFor(core.signature(e.manifest, e.now).value).value in rs'
    ensures Inv(core, Step(core, s, e), rs')
  {
    hide Step, SessionCoherent, HistoriesGood, HistoryAt;
    assert Sourced(s, rs');
    StepKeepsCoherence(core, s, e);
    StepKeepsHistories(core, s, e, rs');
  }

  lemma {:induction false} Reachable(core: Core, ss: seq<State>, es: seq<Event>, n: nat)
    requires PeekAgrees(core) && IsRun(core, ss, es) && n <= |es|
    requires HistoriesGood(core, ss[0].disk)
    requires core.strict ==> CollisionFree(Presented(core, ss[0].disk, es, n))
    ensures Inv(core, ss[n], Presented(core, ss[0].disk, es, n))
  {
    hide HistoriesGood, SessionCoherent, Step, Enabled;
    var d := ss[0].disk;
    if n == 0 {
      StartsCoherent(core, ss[0]);
    } else {
      Reachable(core, ss, es, n - 1);
      StepKeepsInv(core, ss[n - 1], es[n - 1], Presented(core, d, es, n - 1), Presented(core, d, es, n));
    }
  }

  lemma StartsCoherent(core: Core, s: State)
    requires s.session.None?
    ensures SessionCoherent(core, s) && Sourced(s, HeldRecords(s.disk))
  {
  }

  lemma {:induction false} ReachableCoherent(core: Core, ss: seq<State>, es: seq<Event>, n: nat)
    requires PeekAgrees(core) && IsRun(core, ss, es) && n <= |es|
    ensures SessionCoherent(core, ss[n])
  {
    hide SessionCoherent, Step, Enabled;
    if n == 0 {
      StartsCoherent(core, ss[0]);
    } else {
      ReachableCoherent(core, ss, es, n - 1);
      StepKeepsCoherence(core, ss[n - 1], es[n - 1]);
    }
  }
}
