/** The client over many sessions: loading a site, asking for a trust decision,
    and persisting what was decided, with store failures and crashes. */
module Client {
  import opened Types
  import opened Trust
  import opened History

  /** The parts of entangled-core the client calls but does not define. `signature`
      parses and verifies a manifest; `peek` is the cheap top-level read of its
      publisher key; `strict` says whether the rotation check reads the extended
      history. */
  datatype Core = Core(
    signature: (Bytes, int) -> Result<Manifest, Diagnostic>,
    canary: (Manifest, int) -> Check,
    origin: (Manifest, Site, int) -> Check,
    contentIndex: (Manifest, Option<Bytes>) -> Check,
    content: (Bytes, Key) -> Check,
    peek: Bytes -> Option<Key>,
    strict: bool)

  /** The cheap parse reads the key the verified manifest carries. */
  ghost predicate PeekAgrees(core: Core) {
    forall bytes, now :: core.signature(bytes, now).Ok? ==>
      core.peek(bytes) == Some(core.signature(bytes, now).value.publisher)
  }

  /** The pipeline: each stage runs only if the ones before it passed, and the
      history checks come last. */
  function VerifyManifest(core: Core, bytes: Bytes, site: Site, index: Option<Bytes>, now: int, h: seq<Record>)
    : Result<Manifest, Diagnostic>
  {
    match core.signature(bytes, now)
    case Err(d) => Err(d)
    case Ok(m) =>
      match core.canary(m, now)
      case Err(d) => Err(d)
      case Ok(_) =>
        match core.origin(m, site, now)
        case Err(d) => Err(d)
        case Ok(_) =>
          match core.contentIndex(m, index)
          case Err(d) => Err(d)
          case Ok(_) =>
            match CheckAgainstHistory(core.strict, m, h)
            case Err(d) => Err(d)
            case Ok(_) => Ok(m)
  }

  /** A loaded document and what the trust flow needs of it. */
  datatype Loaded = Loaded(
    site: Site,
    publisher: Key,
    retained: Option<Identity>,
    trustState: TrustState,
    requiredAction: RequiredAction,
    initialIntent: Intent,
    record: Option<Record>)

  function Load(core: Core, bytes: Bytes, content: Option<Bytes>, site: Site, now: int,
                retained: Option<Identity>, h: seq<Record>): Result<Loaded, Diagnostic>
  {
    match VerifyManifest(core, bytes, site, None, now, h)
    case Err(d) => Err(d)
    case Ok(m) =>
      if content.Some? && core.content(content.value, m.runtimeKey).Err?
      then Err(core.content(content.value, m.runtimeKey).error)
      else
        var r := Resolve(m.publisher, retained, NoDecision);
        Ok(Loaded(site, m.publisher, retained, r.state, r.action, r.intent, RecordFor(m)))
  }

  // ----- The disk -----

  datatype Disk = Disk(identities: map<Site, SiteRecord>, histories: map<Key, seq<Record>>)

  function RecordAt(d: Disk, site: Site): Option<SiteRecord> {
    if site in d.identities then Some(d.identities[site]) else None
  }

  function HistoryAt(d: Disk, key: Key): seq<Record> {
    if key in d.histories then d.histories[key] else []
  }

  /** The disk after the identity store applied `intent` for `site`. */
  function WithIntent(d: Disk, site: Site, intent: Intent): Disk {
    match ApplyIntent(RecordAt(d, site), intent)
    case None => d
    case Some(rec) => d.(identities := d.identities[site := rec])
  }

  lemma NoIntentWritesNothing(d: Disk, site: Site)
    ensures WithIntent(d, site, NoIntent) == d
  {
  }

  function WithRecord(d: Disk, key: Key, r: Record): Disk {
    d.(histories := d.histories[key := [r] + HistoryAt(d, key)])
  }

  /** How far the store calls of one step got: the identity write took effect, the
      history write took effect, the snapshot was reloaded, the process then died.
      A failed write and a crash before its rename leave the same disk. */
  datatype Io = Io(applied: bool, appended: bool, reloaded: bool, crashed: bool)

  const FAULTLESS := Io(true, true, true, false)

  /** The key whose history an intent is recorded under. */
  function IntentKey(intent: Intent): Key
    requires !intent.NoIntent?
  {
    match intent
    case RecordObservation(k) => k
    case PinIdentity(k) => k
    case MarkExternallyVerified(k) => k
    case ReplaceIdentity(k, _, _) => k
  }

  lemma IntentNamesPresented(presented: Key, retained: Option<Identity>, decision: Decision)
    ensures var intent := Resolve(presented, retained, decision).intent;
            !intent.NoIntent? ==> IntentKey(intent) == presented
  {
  }

  function Persist(d: Disk, site: Site, intent: Intent, record: Option<Record>, io: Io): Disk {
    if intent.NoIntent? || !io.applied then d
    else
      var d1 := WithIntent(d, site, intent);
      if record.None? || !io.appended then d1 else WithRecord(d1, IntentKey(intent), record.value)
  }

  // ----- Sessions -----

  datatype Prompt = NoPrompt | Pinning | Mismatch

  datatype Session = Session(loaded: Loaded, prompt: Prompt)

  datatype State = State(disk: Disk, session: Option<Session>)

  datatype Event =
    | Open(site: Site, manifest: Bytes, content: Option<Bytes>, now: int, io: Io)
    | Decide(decision: Decision, io: Io)
    | Decline
    | Close

  /** The decisions the buttons of a prompt can send. */
  function Offered(prompt: Prompt): set<Decision> {
    match prompt
    case NoPrompt => {}
    case Pinning => {PinFirstContact, ConfirmPip}
    case Mismatch => {ConfirmNewIdentity, ConfirmPip}
  }

  predicate Enabled(s: State, e: Event) {
    match e
    case Open(_, _, _, _, _) => s.session.None?
    case Decide(d, _) => s.session.Some? && d in Offered(s.session.value.prompt)
    case Decline => s.session.Some? && s.session.value.prompt != NoPrompt
    case Close => s.session.Some?
  }

  function PromptFor(action: RequiredAction): Prompt {
    match action
    case NoAction => NoPrompt
    case PinPrompt => Pinning
    case MismatchWarning => Mismatch
  }

  /** What `build` and `load` make of a manifest against the disk. */
  function LoadFrom(core: Core, d: Disk, bytes: Bytes, content: Option<Bytes>, site: Site, now: int)
    : Option<Loaded>
  {
    match core.peek(bytes)
    case None => None
    case Some(publisher) =>
      match Load(core, bytes, content, site, now, IdentityOf(RecordAt(d, site)), HistoryAt(d, publisher))
      case Err(_) => None
      case Ok(loaded) => Some(loaded)
  }

  /** The tail every persisting step shares: persist, then reload the snapshot,
      unless the process died. */
  function Settle(d: Disk, loaded: Loaded, intent: Intent, prompt: Prompt, io: Io): State {
    var d' := Persist(d, loaded.site, intent, loaded.record, io);
    if io.crashed then State(d', None)
    else
      var retained := if io.reloaded then IdentityOf(RecordAt(d', loaded.site)) else loaded.retained;
      State(d', Some(Session(loaded.(retained := retained), prompt)))
  }

  /** The document with the trust state and action of a decision's resolution. */
  function Redecided(loaded: Loaded, decision: Decision): Loaded {
    var r := Resolve(loaded.publisher, loaded.retained, decision);
    loaded.(trustState := r.state, requiredAction := r.action)
  }

  function Step(core: Core, s: State, e: Event): State
    requires Enabled(s, e)
  {
    match e
    case Open(site, bytes, content, now, io) =>
      (match LoadFrom(core, s.disk, bytes, content, site, now)
       case None => s
       case Some(loaded) =>
         Settle(s.disk, loaded, loaded.initialIntent, PromptFor(loaded.requiredAction), io))
    case Decide(decision, io) =>
      var loaded := s.session.value.loaded;
      var r := Resolve(loaded.publisher, loaded.retained, decision);
      Settle(s.disk, Redecided(loaded, decision), r.intent, NoPrompt, io)
    case Decline => s.(session := Some(s.session.value.(prompt := NoPrompt)))
    case Close => s.(session := None)
  }

  /** The state of a store nothing was ever written to. */
  const INITIAL := State(Disk(map[], map[]), None)

  /** A run: the states it passes through and the events between them. It may start
      from any disk. */
  ghost predicate IsRun(core: Core, ss: seq<State>, es: seq<Event>) {
    && |ss| == |es| + 1
    && ss[0].session.None?
    && forall i :: 0 <= i < |es| ==> Enabled(ss[i], es[i]) && ss[i + 1] == Step(core, ss[i], es[i])
  }

  /** Every record some history of the disk holds. */
  ghost function HeldRecords(d: Disk): set<Record> {
    set key, i | key in d.histories && 0 <= i < |d.histories[key]| :: d.histories[key][i]
  }

  /** The records a run starting from `d` has met after `n` events: those the disk
      held, and those of the manifests presented since. */
  ghost function Presented(core: Core, d: Disk, es: seq<Event>, n: nat): set<Record>
    requires n <= |es|
  {
    if n == 0 then HeldRecords(d)
    else
      var e := es[n - 1];
      Presented(core, d, es, n - 1) +
      if e.Open? && core.signature(e.manifest, e.now).Ok? && RecordFor(core.signature(e.manifest, e.now).value).Some?
      then {RecordFor(core.signature(e.manifest, e.now).value).value} else {}
  }
}
