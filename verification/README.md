# Entangled client: trust, anti-rollback and rendering policy

A Dafny 4.11 model of the Entangled v1.0 client. It covers how the client decides which publisher
key to trust at a site and remembers it over many sessions (sections 08 and 10 of the protocol),
the durable store behind that memory, and three self-contained pieces of rendering policy: the
image checks of section 03, the chunk-level PNG reader, and the bidi isolation of publisher text.
`dafny verify dfyconfig.toml` checks everything.

| file | models |
|---|---|
| `Types.dfy` | keys, sites, manifest records, sized integers |
| `Trust.dfy` | the Stage 7 trust machine, what a store does with its intents, replaying its diagnostics |
| `History.dfy` | the anti-downgrade, conflict and rotation checks, and what they keep true of a history |
| `Client.dfy` | the multi-session machine: open, decide, decline, close, with I/O failures and crashes |
| `Invariant.dfy`, `Runs.dfy` | what every state of every run satisfies, and the theorems over runs |
| `Encoding.dfy`, `Dto.dfy`, `Protect.dfy` | hexadecimal, base64url, on-disk records, the sealed envelope |
| `FileSystem.dfy`, `FileStores.dfy` | a disk whose operations fail, the atomic write, the file stores |
| `MemoryStores.dfy` | the in-memory stores and their agreement with the file stores |
| `App.dfy` | the shell over the file stores, step for step a machine of `Client.dfy` |
| `Lifetime.dfy` | the whole program on one disk: starts, decisions, refusals, ends, crashes |
| `Image.dfy`, `PngReader.dfy`, `Bidi.dfy` | the image session, the PNG reader, bidi isolation |

How the parts fit. `Trust.ApplyIntent` is what the identity-store seam promises, stated on one
record per site. The file store (one sealed file per site, temporary file and rename) and the
memory store (two tables) are imperative classes proved against it. `App.Shell` is proved to make
exactly the steps of `Client.Step`. Failures are part of the machine: each step carries an `Io`
saying whether its identity write and history write took effect, whether the reload worked, and
whether the process died; `App.CaughtIn` ties each disk content the file stores ever pass through
to one of those cases.

`Lifetime.Live` puts these together. It takes any list of user actions and any store, opens the
store and starts the shell as often as asked, may fail in every call and die at every disk content
passed, and ends with a run of the machine whose last disk is what the files show. Turn by turn,
each action on offer yields its event. Which disk operation fails, and what the random source
draws, are arbitrary functions of the operation's number (`FileSystem.Volume`), so the contracts can
say when a call may fail: because an operation did, because a temporary name is taken, or because a
file makes no sense, and for no other reason.

So the theorems of `Runs.dfy`, by induction over runs of that machine, hold of the files:
`FilesTellTheRun` draws the conclusion. A run may start from any disk. What the theorems say of
ledgers, events, trust and histories is relative to that disk, and where one needs the first
histories to be good it says so; an empty store is `INITIAL`. What a store shows is asked only of the
files that can be read: `EveryStoreOpens` says each store shows some disk, its key there or not, and
`TamperingIsContained` that spoiling one file leaves all others as they were.

Members such as `VerdictsAre`, `DecisionTakesEffect`, `BytesAre` or `HeaderRuleIs` state values and
verdicts outright, in literals and in the fields of their arguments, so that no constant, name or
branch is fixed only by agreeing with itself.

A decision is an event only while its prompt is open, as in the shell, whose buttons send nothing
else (`crates/entangled-client-gui/src/main.rs:533-540`, `720-737`, `777-784`, `847-854`).

What is taken as given:

- the checks of entangled-core, which is not part of this model. The pipeline stages are arbitrary
  functions. The three history checks are written out from the client's description and tests of
  them: downgrade is strictly below the newest record, conflict is an equal instant with a different
  payload hash, rotation is reuse of the newest record's runtime key. Whether rotation also consults
  the older records is the parameter `strict`; theorems that name it hold for both values unless
  they say so. `RotationReachedOnlyAbove` shows the instant passed to the rotation check is always
  above the newest record, so nothing about it can matter there;
- `PeekAgrees`: the cheap parse of the publisher key reads the key of the verified manifest;
- `CollisionFree`, only where named: among the records the store held at first and the manifests a
  run presents, one payload hash means one record;
- `Lossless`: JSON decodes what it encoded. HMAC-SHA256 is any function of key and message;
- failures of the disk, the moment the process dies and the random bytes are arbitrary;
- the hash of an image and the decoder are arbitrary functions; `Conforming`, where named, says the
  decoder keeps the surface limits of its contract.

Where the documentation says more than the code does, the model follows the code:

- the pixel budget is documented as refusing every image after one that did not fit
  (`crates/entangled-client/src/image.rs:82-83`). The code leaves the budget alone on a refusal, so
  a smaller image is still accepted: `SmallerImageAfterRefusal` shows one with a decoder that keeps
  its surface limits, `AllRefusedIff` gives the exact condition under which everything later is
  refused;
- the history is described as what was accepted (`crates/entangled-client/src/history.rs:25`). It
  holds what was recorded: an accepted revisit of a retained key records nothing, so the floor does
  not move. `AcceptedIsNotRecorded` shows a rollback from a newer accepted manifest,
  `FloorFollowsRecorded` says exactly when the floor rises, `HistoryOrigin` that only accepted
  manifests ever raise it;
- a trust event is described as marking a transition (`crates/entangled-client/src/trust.rs:348-349`).
  The diagnostic is computed from the resolution before the write, so a failed write surfaces an
  event and changes nothing: `EventWithoutChange` shows one, `EventIffChange` says that is the only
  way the two come apart. The log that `ReplayRebuildsDisk` replays is that of the events whose
  writes took effect;
- the in-memory identity is described as refreshed after each decision
  (`crates/entangled-client-gui/src/main.rs:472-473`). A failed reload leaves the old one:
  `SnapshotIsStoredIff` says exactly when it is behind the store, `SnapshotCanBeStale` shows a case,
  and `SnapshotIsGoodEnough` that no offered decision resolves differently for it;
- a decision whose write failed is reported and not undone
  (`crates/entangled-client-gui/src/main.rs:467-471`), so the session shows what the next load will
  not: `ReopenAgrees` says exactly when the two agree;
- an isolate is closed by its own PDI only within its paragraph. The escape leaves paragraph
  separators alone, so the isolate of a value that holds one ends with the paragraph instead:
  `RunIsIsolated` is an if-and-only-if on that;
- two in-memory tables stand for one record only if no site has replaced keys without a retained
  identity; `OrphansResurface` shows the condition is exact, and `MemoryIdentityStore.Apply` keeps it;
- the store's layout comment names identity files after publisher keys
  (`crates/entangled-client-store/src/lib.rs:16-24`); the code names them after sites.

## Model

| member | source | states |
|---|---|---|
| Trust.ResolveThenApply | crates/entangled-client/src/trust.rs:179-388 | for every key, stored record and decision: the record never disappears, its key is only ever pushed onto the replaced list, provenance never falls for a kept key, verification needs a PIP confirmation and a pin needs an affirmative decision; info diagnostics exactly when the record changes, error diagnostics exactly for an unconfirmed other key |
| Trust.AppliedIsSettled | crates/entangled-client/src/trust.rs:179-336 | after an offered decision is applied, resolving again wants nothing, asks the same and shows the same, except that a confirmed replacement turns from First contact into a TOFU pin |
| Trust.EventDeterminesChange | crates/entangled-client/src/trust.rs:338-388 | presented key and info code alone determine what an intent did to the record, though neither names the prior key or the kind of intent |
| Trust.DecisionTakesEffect | crates/entangled-client/src/trust.rs:179-336 | for every key, record and decision, the record after: a PIP confirmation verifies the presented key, a confirmed new key is pinned over the old, a pin raises an observation, no decision observes a new site and changes no other |
| Trust.WhatIsShown | crates/entangled-client/src/trust.rs:179-336 | a known key shows what is on record once the decision took effect and asks for a pin only while that is an observation; another key shows a mismatch until confirmed and warns unless rejected |
| Trust.CodeNamesChange | crates/entangled-client/src/trust.rs:363-388 | verified for a verification, TOFU for a pin, first contact for an observation or a replacement confirmed without its PIP, nothing for no change |
| Trust.NothingIsDemoted | crates/entangled-client-store/src/identity.rs:53-133 | whatever intent is applied to whatever record: nothing is forgotten, only a replacement touches the replaced keys, and nothing else lowers the provenance |
| History.PublisherHistory.Push | crates/entangled-client/src/history.rs:69-76 | recording a record the checks accepted keeps the history good and the record fetchable again, and makes every other payload recorded before a downgrade |
| History.PushKeepsGood | crates/entangled-client/src/history.rs:109-146 | recording a record the checks accept keeps the history ordered in time, one payload per instant, runtime keys rotated; over the extended history too when that is enforced |
| History.RotationReachedOnlyAbove | crates/entangled-client/src/history.rs:116-144 | the rotation error is only reached strictly above the newest record with another payload; the exact condition under which a record is accepted |
| History.VerdictsAre | crates/entangled-client/src/history.rs:109-146 | each verdict exactly: downgrade below the newest instant, conflict at it with another payload, reuse above it with another payload and a used key; an empty history accepts everything |
| History.ManifestVerdict | crates/entangled-client/src/history.rs:84-114 | a manifest is checked by its own instant, runtime key and payload hash, and passes if the instant does not validate |
| History.ExactRefetch | crates/entangled-client/src/history.rs:121-134 | of the records an ordered history holds, only the newest payload is accepted, and every other is a downgrade |
| History.PayloadBlocks | crates/entangled-client/src/history.rs:78-82 | in a history kept under the extended check, equal payloads are contiguous and two entries share a runtime key exactly when they are one payload |
| Invariant.LoadSucceedsIff | crates/entangled-client-gui/src/lib.rs:112-164 | a load succeeds exactly when every stage passes, the record passes the checks against its own publisher's history, and the content verifies under the manifest's runtime key |
| Invariant.FirstFailingStage | crates/entangled-client/src/pipeline.rs:93-122 | a rejected manifest's diagnostic is that of the first stage, in order, that does not pass, with the history check last |
| Invariant.LoadReports | crates/entangled-client-gui/src/lib.rs:112-164 | the manifest's rejection comes before the content's; a document holds the site asked for, the verified publisher and record, the retained identity, and the resolution of the two |
| Invariant.OpenPrompts | crates/entangled-client-gui/src/main.rs:411-432 | an accepted open leaves the pin prompt exactly for a site without a record or with a mere observation of the key, the mismatch prompt exactly for another key, none otherwise; each offers exactly its two buttons and a refusal |
| Invariant.PromptsClose | crates/entangled-client-gui/src/main.rs:461-481 | a decision or a refusal closes the prompt on the same document, a crash or the end the session; a rejected open changes nothing |
| Invariant.StepKeepsCoherence | crates/entangled-client-gui/src/main.rs:411-500 | any step, with any failure, keeps the open session coherent with the store: its record stays acceptable and its open prompt matches the stored identity even after a failed reload |
| Invariant.StepKeepsHistories | crates/entangled-client-gui/src/main.rs:485-500 | any step keeps every publisher's history good and made only of presented records |
| Invariant.Reachable | crates/entangled-client-gui/src/main.rs:411-500 | every state of every run that starts with good histories satisfies the invariant |
| Invariant.SnapshotIsGoodEnough | crates/entangled-client-gui/src/main.rs:456-481 | a decision taken on a snapshot left stale by a failed reload resolves as on the stored record |
| Runs.LedgerConserved | crates/entangled-client-store/src/identity.rs:107-131 | in every run, with crashes, a site's current key and replaced keys list every key ever retained there, newest first, before those it started with, and no key replaces itself if none did at first |
| Runs.RecordsOnlyGrow | crates/entangled-client-store/src/identity.rs:53-133 | between any two states of a run the old ledger is a suffix of the new one, the record is still there, and provenance did not fall while no key was added |
| Runs.NoSilentTrust | crates/entangled-client/src/trust.rs:202-336 | a pinned or verified record the run did not start with was decided by the user in an earlier event, in a session opened by a manifest of that key that passed every stage and the history check; verified only by a PIP confirmation; a new observation was made by such an open at a time when the site had no record |
| Runs.SessionOrigin | crates/entangled-client/src/pipeline.rs:93-122 | an open session stems from an earlier open whose manifest passed each stage and the history check, with no other open since |
| Runs.MismatchStaysArmed | crates/entangled-client/src/trust.rs:284-336 | once a key is retained at a site, every later accepted load of another key is a mismatch warning that writes nothing, never a first contact |
| Runs.EventIffChange | crates/entangled-client/src/trust.rs:363-388 | a step that changes a site's record surfaces an info event, and the two coincide exactly when the write took effect or there was nothing to surface; the event alone tells the change |
| Runs.EventWithoutChange | crates/entangled-client-gui/src/main.rs:451-453 | a first open whose write fails surfaces the observation event and leaves the disk empty |
| Runs.ReplayRebuildsDisk | crates/entangled-client/src/trust.rs:363-388 | replaying the info events of the effective writes of a run, site, key and code only, onto the first identities rebuilds every record with provenance and replaced keys |
| Runs.HistoriesOnlyGrow | crates/entangled-client/src/io.rs:133-140 | between any two states of a run every history has only grown at the front |
| Runs.HistoriesOrdered | crates/entangled-client-gui/src/main.rs:485-500 | from good histories, every history of every reachable state is good, also after a crash between the identity write and the history write |
| Runs.NoRollback | crates/entangled-client/src/history.rs:109-146 | a retained record is accepted exactly while it is the newest payload; once superseded it is a downgrade in every later state |
| Runs.RolledBackOpenIsRejected | crates/entangled-client/src/pipeline.rs:111-115 | opening a manifest whose record was ever superseded changes nothing at all |
| Runs.RotationBlocks | crates/entangled-client/src/history.rs:136-144 | with the extended check, reachable histories are contiguous blocks, one per payload, with pairwise distinct runtime keys |
| Runs.SnapshotIsStoredIff | crates/entangled-client-gui/src/main.rs:454-477 | in every state of every run the identity the session holds is the stored one exactly when no failed reload after a write has gone unrepaired |
| Runs.SnapshotCanBeStale | crates/entangled-client-gui/src/main.rs:454-457 | a first open whose reload fails holds no identity beside the observation it wrote |
| Runs.ReopenAgrees | crates/entangled-client-gui/src/main.rs:411-481 | in every state of every run the manifest of the open session loads again; it wants nothing and shows the same action and state, a just confirmed replacement coming back as a TOFU pin, exactly when what the session shows was written, and holds the same snapshot exactly when that is not stale |
| Runs.FloorFollowsRecorded | crates/entangled-client-gui/src/main.rs:485-500 | for any step and any failures, the accepted record goes in front of its publisher's history exactly when an info event surfaced and both writes took effect, and is the newest exactly then or if it was before; an accepted open surfaces one exactly at a site without a record, a decision always |
| Runs.HistoryOrigin | crates/entangled-client/src/history.rs:69-76 | every entry a history gained in a run is the record of a manifest of that publisher, opened in an earlier event, that had passed every stage and the history check |
| Runs.AcceptedIsNotRecorded | crates/entangled-client/src/history.rs:25-31 | a concrete run that accepts a newer manifest and then an older one |
| Encoding.HexRoundTrip | crates/entangled-client-store/src/dto.rs:117-123 | every byte string's lowercase hexadecimal decodes to it, with two digits a byte |
| Encoding.HexDecodeIsStrict | crates/entangled-client-store/src/dto.rs:127-133 | whatever decodes re-encodes to itself |
| Encoding.HexDigitsAre | crates/entangled-client-store/src/dto.rs:117-123 | each byte is written as its high and low digit out of 0123456789abcdef |
| Encoding.Base64RoundTrip | crates/entangled-client-store/src/protect.rs:77-79 | base64url without padding (section 5 of RFC 4648) decodes what it encoded |
| Encoding.Base64DecodeIsStrict | crates/entangled-client-store/src/protect.rs:77-79 | a string that decodes is the encoding of what it decodes to: one text form per byte string |
| Encoding.Base64SymbolsAre | crates/entangled-client-store/src/protect.rs:77-79 | each symbol is that of six bits of its three-byte group, highest first, in the alphabet of section 5 of RFC 4648, without padding |
| Dto.IdentityDtoIff | crates/entangled-client-store/src/dto.rs:45-102 | a stored identity stands for a record exactly when it is version 2 with the provenance named observed, pinned or verified, or version 1 with the flag for a pin or a verification; version 2 is what is written |
| Dto.RecordDtoIsCanonical | crates/entangled-client-store/src/dto.rs:115-141 | a history entry decodes to a record exactly when it is that record's encoding |
| Dto.IntoRecordsPointwise | crates/entangled-client-store/src/history.rs:43-47 | a list of entries loads exactly when every entry does, in order |
| Dto.HistoryVersionIs | crates/entangled-client-store/src/dto.rs:143-168 | history files are version 1 and no other version is read |
| Protect.UnsealSeal | crates/entangled-client-store/src/protect.rs:92-143 | opening what was sealed gives the payload back |
| Protect.UnsealsOnlyWhatWasSealed | crates/entangled-client-store/src/protect.rs:113-138 | a file opens to a payload exactly when it says what the key holder would have written for that payload; anything else is an error |
| FileSystem.TempOfRecord | crates/entangled-client-store/src/root.rs:241-244 | the temporary file of a record lies beside it, under its stem |
| FileSystem.TempPathIsTemp | crates/entangled-client-store/src/root.rs:241-244 | whatever the path and nonce, the temporary name has the temporary form, which no record name has |
| FileSystem.Volume.WriteAll | crates/entangled-client-store/src/root.rs:254-260 | success writes all; an interrupted write leaves a prefix, in its own temporary file, and touches no record |
| FileSystem.Volume.WriteAtomic | crates/entangled-client-store/src/root.rs:232-269 | whatever fails and wherever the process dies, the records are those before or those after with exactly this file replaced; it fails exactly when an operation does or the temporary name drawn is taken |
| FileStores.PathsAreSafe | crates/entangled-client-store/src/root.rs:146-155 | a record's file is named after its site or its publisher's base64url key in its own directory; sites and publishers never share a file, no record name is a temporary name, no name leaves its directory |
| FileStores.PresentNeverReadsAbsent | crates/entangled-client-store/src/root.rs:163-170 | an identity or history file reads as nothing retained exactly when it is missing |
| FileStores.SiteReadsIff | crates/entangled-client-store/src/identity.rs:26-51 | a site's file reads as a record exactly when the key holder sealed in it the version 2 form of that record or, for a pin or a verification, the version 1 form |
| FileStores.HistoryReadsIff | crates/entangled-client-store/src/history.rs:26-48 | a publisher's file reads as a history exactly when the key holder sealed in it the encodings of its records in order; a missing one is empty |
| FileStores.WrittenIdentityViews | crates/entangled-client-store/src/identity.rs:40-45 | writing a site's file gives that site the written record and changes no other site and no history |
| FileStores.WrittenHistoryViews | crates/entangled-client-store/src/history.rs:61-68 | writing a publisher's file gives that publisher the written entries and changes no other publisher and no identity |
| FileStores.StoreRoot.OpenIntegrity | crates/entangled-client-store/src/root.rs:47-72 | with a key present nothing is written and that key is used, under the recorded mode; else success leaves 32 random bytes as key and version 1 integrity metadata beside the untouched records, and every disk content passed is the old one, with the key, or with both; it fails only by the disk, a taken temporary name or another mode |
| FileStores.FileIdentityStore.LoadIdentity | crates/entangled-client-store/src/identity.rs:26-51 | unless the disk fails, the answer is the identity the site's file stands for, none without a file, an error for a file that makes no sense |
| FileStores.FileIdentityStore.Apply | crates/entangled-client-store/src/identity.rs:53-133 | success changes the site's record as the seam promises and leaves every other site, every history and the store's key; failure changes no record and happens only by the disk, a taken temporary name or a file that refuses the intent; an observation never touches a file that is there; a file that does not verify is never overwritten; a crash leaves before or after |
| FileStores.FileHistoryStore.LoadHistory | crates/entangled-client-store/src/history.rs:26-48 | unless the disk fails, the answer is the decoded list, newest first, empty without a file, an error for a file that makes no sense |
| FileStores.FileHistoryStore.AppendRecord | crates/entangled-client-store/src/history.rs:50-69 | success prepends the record to that publisher's history and changes nothing else; failure changes no record and happens only by the disk, a taken temporary name or a history that does not verify or decode; a crash leaves before or after |
| MemoryStores.MemoryIdentityStore.Apply | crates/entangled-client/src/io.rs:180-255 | the two tables change as the seam promises for one record and stay free of orphans |
| MemoryStores.OrphansResurface | crates/entangled-client/src/io.rs:147-152 | the tables behave as one record for every intent exactly when the site has no orphaned replaced keys |
| MemoryStores.StoresStayRelated | crates/entangled-client-store/src/identity.rs:48-133 | over any sequence of calls on all sites, each of which may fail, from any agreeing start with version 1 and 2 files, the file store holds the identities and replaced keys the memory store holds after the calls that succeeded |
| MemoryStores.MemoryHistoryStore.AppendRecord | crates/entangled-client/src/io.rs:282-293 | the record becomes the newest of that publisher only |
| MemoryStores.AppendsReload | crates/entangled-client-store/src/history.rs:38-69 | after any appends over any publishers, a publisher's history loads as its own records in reverse order before what was there |
| App.Shell.constructor | crates/entangled-client-gui/src/main.rs:411-459 | on a loaded site whose file reads, starting the shell opens the prompt the load asks for and is one open step of the machine, fault-free if the disk is and the history decodes; every disk content passed on the way is one the machine's persist can be caught in; no other file need be readable |
| App.Shell.ApplyAndPersist | crates/entangled-client-gui/src/main.rs:461-481 | a decision is one decide step of the machine, fault-free if the disk is and the history decodes, closes both prompts, with the same promise about the disk and nothing asked of other files |
| App.Shell.ApplyDecision | crates/entangled-client-gui/src/lib.rs:74-85 | re-resolves against the snapshot, updates the shown state and action, returns the intent |
| App.Shell.Decline | crates/entangled-client-gui/src/main.rs:535-540 | closes both prompts and nothing else |
| App.Shell.PersistIntent | crates/entangled-client-gui/src/main.rs:483-500 | identity first, then the record under the intent's publisher; both take effect unless the disk fails, a temporary name is taken or the history does not decode; whatever fails, the readable files show what the machine describes and the loaded site stays readable |
| App.Build | crates/entangled-client-gui/src/main.rs:294-342 | the store fails the load exactly when the disk fails or the identity or history does not verify; otherwise a document is the machine's load from the same disk and a rejection the machine's rejection |
| App.TamperingIsContained | crates/entangled-client-store/src/protect.rs:1-20 | a file overwritten with anything but an envelope the key holder would write for some payload reads as corrupt; every other file reads as before and the store shows the same disk |
| Lifetime.EveryStoreOpens | crates/entangled-client-store/src/root.rs:163-170 | every store, whatever files it holds and whether its key is there or still to be made, shows the disk its readable files make up |
| Lifetime.Start | crates/entangled-client-gui/src/main.rs:137-164 | opening the store, building and starting the shell, with failures and death anywhere, is one open event of the run, fault-free if nothing fails, or none if the disk failed, the process died or the store cannot be opened |
| Lifetime.Live | crates/entangled-client-gui/src/main.rs:110-174 | any list of user actions on any store, with failures and crashes anywhere, is a run of the machine from what the store showed to what the files show; turn by turn each action yields its own event, fault-free if its turn is, unless it was not on offer or the program could not start |
| Lifetime.FilesTellTheRun | crates/entangled-client-gui/src/main.rs:294-500 | after such a life each identity file that reads has grown from the first record, any new pin or verification in it was decided by the user on a verified manifest of its key, and each history that reads has grown at the front by records of accepted manifests and is still good |
| Image.ContentTypeMatchesIff | crates/entangled-client/src/image.rs:276-287 | a header matches exactly when it is white space, the type in any letter case, white space, then nothing or parameters |
| Image.HeaderRuleIs | crates/entangled-client/src/image.rs:266-287 | the three type names, ASCII letter case by code point, and the characters with the Unicode property White_Space |
| Image.KeyIsTriple | crates/entangled-client/src/image.rs:128-138 | two images share a no-retry key exactly when they share source, hash and media type |
| Image.ImageBudget.TryCharge | crates/entangled-client/src/image.rs:100-112 | charges exactly the pixels that fit, else nothing; the 64-bit product and sum cannot overflow |
| Image.RunChecks | crates/entangled-client/src/image.rs:228-265 | the checks in order; the body reaches the decoder exactly when type, size and hash are right |
| Image.VerifyImage | crates/entangled-client/src/image.rs:191-211 | one session step; a failed triple is refused without decoding |
| Image.ReportFetchFailed | crates/entangled-client/src/image.rs:213-226 | one session step: the triple is marked, the budget untouched |
| Image.AcceptedIff | crates/entangled-client/src/image.rs:191-265 | an image is accepted exactly when its triple has not failed, it is sound, and its pixels fit; otherwise the triple is marked and nothing charged |
| Image.CodeOfFirstFailure | crates/entangled-client/src/image.rs:191-265 | each rejection code exactly when its check is the first to fail, with the caps of 2,097,152 bytes and 16,777,216 pixels |
| Image.OtherRejections | crates/entangled-client/src/image.rs:128-226 | a fetch failure and a triple that failed before have their own codes; the key is source, hash and type joined by NUL |
| Image.SessionTotals | crates/entangled-client/src/image.rs:78-113 | over any session the pixels used are those of the accepted images and within the cap, and the failed set is exactly the keys of the rejected events |
| Image.RejectedEventsDoNotMatter | crates/entangled-client/src/image.rs:186-226 | deleting every rejected event leaves each accepted image accepted as it was and the same final budget |
| Image.FailedStaysFailed | crates/entangled-client/src/image.rs:199-206 | once a triple failed, no later event for it is accepted, charged or decoded |
| Image.OtherTriplesUnaffected | crates/entangled-client/src/image.rs:115-149 | marking a triple changes no outcome of a session that does not mention it |
| Image.AllRefusedIff | crates/entangled-client/src/image.rs:78-112 | all later images are refused exactly when each is unacceptable on its own now or repeats a triple seen since; an earlier refusal plays no part |
| Image.SmallerImageAfterRefusal | crates/entangled-client/src/image.rs:65-83 | with a decoder within its surface limits: 4096 by 4095 accepted, 4096 by 2 refused for the budget, then 1 by 1 accepted |
| PngReader.ParsePngHeader | crates/entangled-client/tests/corpus_image.rs:57-109 | the loop over 64-bit offsets computes what the chunk grammar says, within bounds, with growing offsets and no overflow |
| PngReader.PngHeaderDecode | crates/entangled-client/tests/corpus_image.rs:39-50 | other declared types are never read as PNG |
| PngReader.BytesAre | crates/entangled-client/tests/corpus_image.rs:57-72 | signature, chunk types and chunk layout in bytes, numbers highest byte first (section 5.3 of the PNG specification) |
| PngReader.InterpretIs | crates/entangled-client/tests/corpus_image.rs:74-109 | what a chunk list must say: IHDR first with 13 bytes and a non-zero size, an IDAT later, animated exactly when an acTL comes before the first IDAT |
| PngReader.AheadInterprets | crates/entangled-client/tests/corpus_image.rs:68-99 | reading on chunk by chunk amounts to interpreting the whole chunk list: IHDR first, 13 bytes, non-zero size, an IDAT, animated iff an acTL stands before the first IDAT |
| PngReader.ChunksFromIff | crates/entangled-client/tests/corpus_image.rs:68-76 | the chunk list found at an offset is the one list ending at its first IEND whose encoding (section 5.3 of the PNG specification) stands there |
| PngReader.DecodeIffGrammar | crates/entangled-client/tests/corpus_image.rs:57-109 | the reader accepts exactly the signature and the encoding of an acceptable chunk list, whatever follows, and reports what the list says |
| PngReader.EncodedIsRead | crates/entangled-client/tests/corpus_image.rs:57-109 | every encoded chunk list is read back |
| PngReader.AcceptanceThreshold | crates/entangled-client/tests/corpus_image.rs:68-99 | an accepted input has an end position: exactly the prefixes reaching it are accepted, all alike, as is anything that starts the same |
| Bidi.IsolatePublisherText | crates/entangled-client-gui/src/main.rs:188-207 | the loop yields U+2068, the escaped value, U+2069 |
| Bidi.RunsText | crates/entangled-client-gui/src/main.rs:1563-1575 | the isolated texts of all runs in order |
| Bidi.BidiControlsAreTwelve | crates/entangled-client-gui/src/main.rs:209-214 | the ranges cover exactly the twelve Bidi_Control characters of Unicode 15.0, and so every isolate initiator and the PDI |
| Bidi.VisibleNamesControl | crates/entangled-client-gui/src/main.rs:199-200 | a control is shown as "<U+", its own code point in exactly four digits, and ">" |
| Bidi.VisibleSpells | crates/entangled-client-gui/src/main.rs:199-200 | the visible form digit by digit, in upper case |
| Bidi.EscapeShowsEachControl | crates/entangled-client-gui/src/main.rs:193-207 | anywhere in a value a control is replaced by the form with its own code point, and every other character is kept |
| Bidi.EscapeIsPlain | crates/entangled-client-gui/src/main.rs:193-214 | the escaped value holds no bidi control, and is the value itself exactly when that held none |
| Bidi.EscapeIsIdempotent | crates/entangled-client-gui/src/main.rs:193-207 | escaping twice is escaping once |
| Bidi.RunIsIsolated | crates/entangled-client-gui/src/main.rs:193-207 | under definition BD9 of UAX #9 each run's FSI is matched by that run's own PDI exactly when the run holds no paragraph separator |
| Bidi.ParagraphEndsIsolate | crates/entangled-client-gui/src/main.rs:193-207 | a run that is one paragraph separator: its FSI has no matching PDI |
| Bidi.SeparatorsAre | crates/entangled-client-gui/src/main.rs:193-207 | the characters of bidi class B and the three isolate initiators of UAX #9 |
| Bidi.TextIsWellBracketed | crates/entangled-client-gui/src/main.rs:1563-1575 | the only bidi controls of the text are the run boundaries, alternating, at depth at most one, with nothing left open |
| Bidi.SplitRecoversRuns | crates/entangled-client-gui/src/main.rs:1563-1575 | cutting the text at its isolates recovers the list of escaped runs |
| Bidi.EscapeIsNotInjective | crates/entangled-client-gui/src/main.rs:193-207 | a control and its visible name escape alike |

## Left out

- entangled-core (signatures, canonicalisation, canary computation, origin binding, the PIP): not part of this model; its stages are parameters.
- Encrypted mode and the store's behaviour when one directory is opened in two modes: the code makes no promise across modes to prove; with no key file, integrity mode writes its key and metadata before checking the mode.
- Two processes sharing one store: one session at a time is assumed, as nothing in the code locks the store.
- Directory creation, file permissions, fsync durability below the rename: the model's rename is atomic and a synced file stays written.
- serde_json and HMAC-SHA256: functions assumed lossless and arbitrary.
- A load stopped by an I/O error before any session exists is no event of the machine: it changes nothing; `App.Build` and `Lifetime.Start` cover the error itself.
- A file deleted, or replaced by an older file sealed with the same key: it reads as what it then says, and the code keeps nothing to tell; only what the key holder never sealed is covered by `App.TamperingIsContained`.
- A readable site file spoiled while its document is open: `Lifetime.Live` lets files be lost to crashes only.
- Timestamp syntax: a validated instant is an integer; one that does not validate is `None`, which passes the history checks and records nothing, as in the code.
- 32-bit targets: `usize` is 64 bits wide in the PNG reader, where no addition can overflow.
- `ChromeView::build`, the link handoff, the render block, `seed`, prompts' PIP text and all drawing: finite tables or user interface.
- The content index and content documents: opaque stages; the shell passes no content index.
- `remove_if_present` and in-memory test seeding: not used by any modelled operation.
