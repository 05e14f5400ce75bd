/** The section 10 Stage 7 trust-state machine, and what a store does with the
    persistence intents it returns. */
module Trust {
  import opened Types

  datatype TrustState = FirstContact | TofuPinned | ExternallyVerified | ChangedMismatch

  datatype Provenance = Observed | Pinned | Verified

  datatype Identity = Identity(pubkey: Key, provenance: Provenance)

  datatype Decision = NoDecision | PinFirstContact | ConfirmPip | ConfirmNewIdentity | RejectNewIdentity

  datatype RequiredAction = NoAction | PinPrompt | MismatchWarning

  datatype Intent =
    | NoIntent
    | RecordObservation(pubkey: Key)
    | PinIdentity(pubkey: Key)
    | MarkExternallyVerified(pubkey: Key)
    | ReplaceIdentity(newPubkey: Key, replaced: Key, externallyVerified: bool)

  datatype Resolution = Resolution(state: TrustState, action: RequiredAction, intent: Intent)

  function Resolve(presented: Key, retained: Option<Identity>, decision: Decision): Resolution {
    match retained
    case None => ResolveFirstContact(presented, decision)
    case Some(r) =>
      if r.pubkey == presented then ResolveMatched(presented, r, decision)
      else ResolveMismatch(presented, r, decision)
  }

  function ResolveFirstContact(presented: Key, decision: Decision): Resolution {
    match decision
    case ConfirmPip =>
      Resolution(TrustState.ExternallyVerified, NoAction, MarkExternallyVerified(presented))
    case PinFirstContact =>
      Resolution(TofuPinned, NoAction, PinIdentity(presented))
    case _ =>
      Resolution(FirstContact, PinPrompt, RecordObservation(presented))
  }

  function ResolveMatched(presented: Key, retained: Identity, decision: Decision): Resolution {
    if decision == ConfirmPip && retained.provenance != Verified then
      Resolution(TrustState.ExternallyVerified, NoAction, MarkExternallyVerified(presented))
    else if decision == PinFirstContact && retained.provenance == Observed then
      Resolution(TofuPinned, NoAction, PinIdentity(presented))
    else
      match retained.provenance
      case Observed => Resolution(FirstContact, PinPrompt, NoIntent)
      case Pinned => Resolution(TofuPinned, NoAction, NoIntent)
      case Verified => Resolution(TrustState.ExternallyVerified, NoAction, NoIntent)
  }

  function ResolveMismatch(presented: Key, retained: Identity, decision: Decision): Resolution {
    match decision
    case ConfirmNewIdentity =>
      Resolution(FirstContact, NoAction, ReplaceIdentity(presented, retained.pubkey, false))
    case ConfirmPip =>
      Resolution(TrustState.ExternallyVerified, NoAction, ReplaceIdentity(presented, retained.pubkey, true))
    case RejectNewIdentity =>
      Resolution(ChangedMismatch, NoAction, NoIntent)
    case _ =>
      Resolution(ChangedMismatch, MismatchWarning, NoIntent)
  }

  /** The section 11 trust diagnostics. */
  datatype TrustCode = EUserRejected | EMismatch | IFirstContact | ITofuPinned | IVerified

  function TrustDiagnostic(r: Resolution, decision: Decision): Option<TrustCode> {
    match r.state
    case ChangedMismatch => Some(if decision == RejectNewIdentity then EUserRejected else EMismatch)
    case FirstContact =>
      if r.intent.RecordObservation? || r.intent.ReplaceIdentity? then Some(IFirstContact) else None
    case TofuPinned =>
      if r.intent.PinIdentity? then Some(ITofuPinned) else None
    case ExternallyVerified =>
      if r.intent.MarkExternallyVerified? || (r.intent.ReplaceIdentity? && r.intent.externallyVerified)
      then Some(IVerified) else None
  }

  /** The I_TRUST_* codes: events, as opposed to E_TRUST_* errors. */
  predicate IsInfo(code: Option<TrustCode>) {
    code.Some? && (code.value.IFirstContact? || code.value.ITofuPinned? || code.value.IVerified?)
  }

  // ----- What a store retains for one site -----

  /** The retained identity with the keys it replaced, newest first. */
  datatype SiteRecord = SiteRecord(identity: Identity, replaced: seq<Key>)

  function IdentityOf(rec: Option<SiteRecord>): Option<Identity> {
    if rec.Some? then Some(rec.value.identity) else None
  }

  function ReplacedOf(rec: Option<SiteRecord>): seq<Key> {
    if rec.Some? then rec.value.replaced else []
  }

  /** The current key followed by the keys it replaced, newest first. */
  function Ledger(rec: Option<SiteRecord>): seq<Key> {
    if rec.Some? then [rec.value.identity.pubkey] + rec.value.replaced else []
  }

  function Rank(p: Provenance): nat {
    match p
    case Observed => 0
    case Pinned => 1
    case Verified => 2
  }

  /** What the identity-store seam promises `apply` does to the record of the
      site it is called for. Both store implementations are proved against it. */
  function ApplyIntent(rec: Option<SiteRecord>, intent: Intent): Option<SiteRecord> {
    match intent
    case NoIntent => rec
    case RecordObservation(k) =>
      if rec.None? then Some(SiteRecord(Identity(k, Observed), [])) else rec
    case PinIdentity(k) =>
      if rec.None? || rec.value.identity.provenance == Observed
      then Some(SiteRecord(Identity(k, Pinned), ReplacedOf(rec)))
      else rec
    case MarkExternallyVerified(k) =>
      Some(SiteRecord(Identity(k, Verified), ReplacedOf(rec)))
    case ReplaceIdentity(k, prior, verified) =>
      Some(SiteRecord(Identity(k, if verified then Verified else Pinned), [prior] + ReplacedOf(rec)))
  }

  /** How a site's record may change: it never disappears, its ledger only grows
      at the front, one key at a time and never by the same key twice in a row,
      and while the key stays its provenance never falls. */
  ghost predicate Evolves(before: Option<SiteRecord>, after: Option<SiteRecord>) {
    before.Some? ==>
      && after.Some?
      && var b, a := before.value, after.value;
         if a.identity.pubkey == b.identity.pubkey
         then a.replaced == b.replaced && Rank(b.identity.provenance) <= Rank(a.identity.provenance)
         else a.replaced == [b.identity.pubkey] + b.replaced && a.identity.provenance != Observed
  }

  /** The first record of a site starts with an empty list of replaced keys. */
  ghost predicate Starts(before: Option<SiteRecord>, after: Option<SiteRecord>) {
    before.None? && after.Some? ==> after.value.replaced == []
  }

  /** Applying what `Resolve` intends, against the record it resolved: the record
      evolves, only a decision leaves anything but an observation, the info
      diagnostics are produced exactly when the record changes, and the error
      diagnostics exactly when another key is presented and not confirmed. */
  lemma ResolveThenApply(presented: Key, rec: Option<SiteRecord>, decision: Decision)
    ensures var r := Resolve(presented, IdentityOf(rec), decision);
            var after := ApplyIntent(rec, r.intent);
            && Evolves(rec, after) && Starts(rec, after)
            && (IsInfo(TrustDiagnostic(r, decision)) <==> after != rec)
            && (after != rec ==>
                && after.value.identity.pubkey == presented
                && (after.value.identity.provenance == Verified ==> decision == ConfirmPip)
                && (after.value.identity.provenance == Pinned ==>
                      decision == PinFirstContact || decision == ConfirmNewIdentity))
            && (rec.Some? && rec.value.identity.pubkey != presented
                && decision !in {ConfirmPip, ConfirmNewIdentity} ==>
                  r.state == ChangedMismatch && r.intent == NoIntent && after == rec)
            && (TrustDiagnostic(r, decision) == Some(EUserRejected) <==>
                  rec.Some? && rec.value.identity.pubkey != presented && decision == RejectNewIdentity)
            && (TrustDiagnostic(r, decision) == Some(EMismatch) <==>
                  rec.Some? && rec.value.identity.pubkey != presented && decision in {NoDecision, PinFirstContact})
  {
  }

  /** What each decision leaves on record, for every presented key and whatever was
      recorded. A PIP confirmation verifies the presented key, pushing a different
      one aside; a confirmed new identity is pinned in the old one's place; a pin
      raises a mere observation of the presented key and lowers nothing; without a
      decision a site gets an observation or stays as it was. */
  lemma DecisionTakesEffect(presented: Key, rec: Option<SiteRecord>, decision: Decision)
    ensures var after := ApplyIntent(rec, Resolve(presented, IdentityOf(rec), decision).intent);
            if rec.None? then
              after == Some(SiteRecord(Identity(presented, if decision == ConfirmPip then Verified
                                                           else if decision == PinFirstContact then Pinned
                                                           else Observed), []))
            else if rec.value.identity.pubkey != presented then
              after == (if decision == ConfirmPip then Some(SiteRecord(Identity(presented, Verified), [rec.value.identity.pubkey] + rec.value.replaced))
                        else if decision == ConfirmNewIdentity then Some(SiteRecord(Identity(presented, Pinned), [rec.value.identity.pubkey] + rec.value.replaced))
                        else rec)
            else
              && after.Some? && after.value.replaced == rec.value.replaced && after.value.identity.pubkey == presented
              && after.value.identity.provenance ==
                   if decision == ConfirmPip then Verified
                   else if decision == PinFirstContact && rec.value.identity.provenance == Observed then Pinned
                   else rec.value.identity.provenance
  {
  }

  /** What each resolution shows and asks. A known key shows what is on record once
      the decision took effect, and asks for a pin only while that is an observation;
      another key shows a mismatch until it is confirmed, and warns unless rejected. */
  lemma WhatIsShown(presented: Key, rec: Option<SiteRecord>, decision: Decision)
    ensures var r := Resolve(presented, IdentityOf(rec), decision);
            var after := ApplyIntent(rec, r.intent);
            if rec.Some? && rec.value.identity.pubkey != presented then
              match decision
              case ConfirmPip => r.state == TrustState.ExternallyVerified && r.action == NoAction
              case ConfirmNewIdentity => r.state == FirstContact && r.action == NoAction
              case RejectNewIdentity => r.state == ChangedMismatch && r.action == NoAction
              case _ => r.state == ChangedMismatch && r.action == MismatchWarning
            else
              match after.value.identity.provenance
              case Observed => r.state == FirstContact && r.action == PinPrompt
              case Pinned => r.state == TofuPinned && r.action == NoAction
              case Verified => r.state == TrustState.ExternallyVerified && r.action == NoAction
  {
  }

  /** Which code a change surfaces: verified for a verification, TOFU for a pin of
      the key on record or of a first contact, first contact for an observation and
      for a replacement confirmed without its PIP. No change, no info code. */
  lemma CodeNamesChange(presented: Key, rec: Option<SiteRecord>, decision: Decision)
    ensures var r := Resolve(presented, IdentityOf(rec), decision);
            var code, after := TrustDiagnostic(r, decision), ApplyIntent(rec, r.intent);
            var moved := rec.Some? && rec.value.identity.pubkey != presented;
            && (code == Some(IVerified) <==> after != rec && after.value.identity.provenance == Verified)
            && (code == Some(ITofuPinned) <==> after != rec && after.value.identity.provenance == Pinned && !moved)
            && (code == Some(IFirstContact) <==>
                  after != rec && (after.value.identity.provenance == Observed || (after.value.identity.provenance == Pinned && moved)))
            && (code == None <==> after == rec && !moved)
  {
  }

  /** What applying an intent may do to any record, whether or not the intent was
      resolved for it: nothing is forgotten, only a replacement touches the replaced
      keys, and nothing else lowers the provenance on record. */
  lemma NothingIsDemoted(rec: Option<SiteRecord>, intent: Intent)
    ensures var after := ApplyIntent(rec, intent);
            && (rec.Some? ==> after.Some?)
            && (intent.ReplaceIdentity? ==>
                  && after.Some? && after.value.replaced == [intent.replaced] + (if rec.Some? then rec.value.replaced else [])
                  && after.value.identity == Identity(intent.newPubkey, if intent.externallyVerified then Verified else Pinned))
            && (!intent.ReplaceIdentity? && after.Some? ==> after.value.replaced == if rec.Some? then rec.value.replaced else [])
            && (intent.MarkExternallyVerified? ==> after.Some? && after.value.identity == Identity(intent.pubkey, Verified))
            && (intent.PinIdentity? ==>
                  && after.Some?
                  && after.value.identity == if rec.Some? && rec.value.identity.provenance != Observed then rec.value.identity
                                             else Identity(intent.pubkey, Pinned))
            && (intent.RecordObservation? ==>
                  after == if rec.Some? then rec else Some(SiteRecord(Identity(intent.pubkey, Observed), [])))
            && (intent.NoIntent? ==> after == rec)
            && (rec.Some? && !intent.ReplaceIdentity? ==>
                  match rec.value.identity.provenance
                  case Observed => true
                  case Pinned => after.value.identity.provenance in {Pinned, Verified}
                  case Verified => after.value.identity.provenance == Verified)
  {
  }

  /** Once the intent of an offered decision is applied, resolving the same key
      again with no decision wants nothing more, asks for the same action, and
      shows the same state; only a replacement confirmed without its PIP, shown as
      First contact, has become a TOFU pin. */
  lemma AppliedIsSettled(presented: Key, rec: Option<SiteRecord>, decision: Decision)
    requires var moved := rec.Some? && rec.value.identity.pubkey != presented;
             decision == NoDecision || decision == ConfirmPip || decision == (if moved then ConfirmNewIdentity else PinFirstContact)
    ensures var r := Resolve(presented, IdentityOf(rec), decision);
            var again := Resolve(presented, IdentityOf(ApplyIntent(rec, r.intent)), NoDecision);
            && again.intent == NoIntent && again.action == r.action
            && if decision == ConfirmNewIdentity then r.state == FirstContact && again.state == TofuPinned
               else again.state == r.state
  {
  }

  // ----- Replaying the event log -----

  /** What one info event, knowing only the site's presented key and the code,
      tells about the site's record. */
  function ReplayEvent(rec: Option<SiteRecord>, presented: Key, code: TrustCode): Option<SiteRecord> {
    var moved := rec.Some? && rec.value.identity.pubkey != presented;
    var replaced := if moved then Ledger(rec) else ReplacedOf(rec);
    match code
    case IFirstContact => Some(SiteRecord(Identity(presented, if moved then Pinned else Observed), replaced))
    case ITofuPinned => Some(SiteRecord(Identity(presented, Pinned), replaced))
    case IVerified => Some(SiteRecord(Identity(presented, Verified), replaced))
    case _ => rec
  }

  /** The (presented key, code) pair determines what the intent did: the prior
      key and the kind of intent need not be logged. */
  lemma EventDeterminesChange(presented: Key, rec: Option<SiteRecord>, decision: Decision)
    ensures var r := Resolve(presented, IdentityOf(rec), decision);
            var code := TrustDiagnostic(r, decision);
            ApplyIntent(rec, r.intent) == if IsInfo(code) then ReplayEvent(rec, presented, code.value) else rec
  {
  }
}
