/** The section 08 checks a client runs against what it has recorded for a
    publisher: anti-downgrade, canary conflict and runtime-key rotation. */
module History {
  import opened Types

  datatype Diagnostic =
    | StageRejected(code: nat)
    | CanaryDowngrade
    | CanaryConflict
    | CanaryRuntimeReuse

  type Check = Result<(), Diagnostic>

  /** The facts of a manifest the history checks read. `issuedAt` is `None` when
      the canary's timestamp does not validate. */
  datatype Manifest = Manifest(publisher: Key, issuedAt: Option<int>, runtimeKey: Key, payloadHash: Bytes32)

  function RecordFor(m: Manifest): Option<Record> {
    if m.issuedAt.None? then None
    else Some(Record(m.issuedAt.value, m.runtimeKey, m.payloadHash))
  }

  // The three primitive checks of entangled-core, as the client's documentation
  // and tests describe them; `strict` says whether the rotation check also looks
  // at the records older than the newest.

  function CheckAntiDowngrade(issuedAt: int, newest: Option<Record>): Check {
    if newest.Some? && issuedAt < newest.value.issuedAt then Err(CanaryDowngrade) else Ok(())
  }

  function CheckCanaryConflict(r: Record, newest: Option<Record>): Check {
    if newest.Some? && r.issuedAt == newest.value.issuedAt && r.payloadHash != newest.value.payloadHash
    then Err(CanaryConflict) else Ok(())
  }

  function CheckRotation(strict: bool, runtimeKey: Key, newest: Option<Record>, extended: seq<Record>): Check {
    if newest.Some? && newest.value.runtimeKey == runtimeKey then Err(CanaryRuntimeReuse)
    else if strict && (exists i :: 0 <= i < |extended| && extended[i].runtimeKey == runtimeKey)
    then Err(CanaryRuntimeReuse)
    else Ok(())
  }

  function Newest(h: seq<Record>): Option<Record> {
    if h == [] then None else Some(h[0])
  }

  function Extended(h: seq<Record>): seq<Record> {
    if h == [] then [] else h[1..]
  }

  function CheckRecord(strict: bool, r: Record, h: seq<Record>): Check {
    var newest := Newest(h);
    if CheckAntiDowngrade(r.issuedAt, newest).Err? then CheckAntiDowngrade(r.issuedAt, newest)
    else if CheckCanaryConflict(r, newest).Err? then CheckCanaryConflict(r, newest)
    else if newest.Some? && newest.value.payloadHash == r.payloadHash then Ok(())
    else CheckRotation(strict, r.runtimeKey, newest, Extended(h))
  }

  function CheckAgainstHistory(strict: bool, m: Manifest, h: seq<Record>): Check {
    match RecordFor(m)
    case None => Ok(())
    case Some(r) => CheckRecord(strict, r, h)
  }

  /** What a client has recorded for one publisher, newest first. */
  class PublisherHistory {
    var records: seq<Record>

    constructor ()
      ensures records == []
    {
      records := [];
    }

    constructor FromRecordsNewestFirst(rs: seq<Record>)
      ensures records == rs
    {
      records := rs;
    }

    /** Records a manifest that passed the checks. The history stays good, the
        manifest can be fetched again, and every other payload recorded before is
        a downgrade from now on. */
    method Push(ghost strict: bool, r: Record)
      requires Good(strict, records) && CheckRecord(strict, r, records).Ok?
      requires strict ==> forall i :: 0 <= i < |records| && records[i].payloadHash == r.payloadHash ==> records[i] == r
      modifies this
      ensures records == [r] + old(records)
      ensures Good(strict, records)
      ensures CheckRecord(strict, r, records).Ok?
      ensures forall i :: 0 <= i < |old(records)| && old(records)[i].payloadHash != r.payloadHash ==>
                CheckRecord(strict, old(records)[i], records) == Err(CanaryDowngrade)
    {
      PushKeepsGood(strict, r, records);
      PushSupersedes(strict, r, records);
      records := [r] + records;
    }
  }

  // ----- What a history recorded only through the checks looks like -----

  /** No record is older than a later-recorded one above it, one instant carries
      one payload, and consecutive payloads rotate the runtime key. */
  ghost predicate Ordered(h: seq<Record>) {
    && (forall i, j :: 0 <= i < j < |h| ==> h[j].issuedAt <= h[i].issuedAt)
    && (forall i, j :: 0 <= i < |h| && 0 <= j < |h| && h[i].issuedAt == h[j].issuedAt ==>
          h[i].payloadHash == h[j].payloadHash)
    && (forall i :: 0 <= i < |h| - 1 && h[i].payloadHash != h[i + 1].payloadHash ==>
          h[i].runtimeKey != h[i + 1].runtimeKey)
  }

  /** Different payloads anywhere in the history use different runtime keys. */
  ghost predicate Rotated(h: seq<Record>) {
    forall i, j :: 0 <= i < |h| && 0 <= j < |h| && h[i].payloadHash != h[j].payloadHash ==>
      h[i].runtimeKey != h[j].runtimeKey
  }

  ghost predicate Good(strict: bool, h: seq<Record>) {
    Ordered(h) && (strict ==> Rotated(h))
  }

  /** Two records with one payload hash are one record. */
  ghost predicate CollisionFree(rs: set<Record>) {
    forall a, b :: a in rs && b in rs && a.payloadHash == b.payloadHash ==> a == b
  }

  ghost predicate Within(h: seq<Record>, rs: set<Record>) {
    forall i :: 0 <= i < |h| ==> h[i] in rs
  }

  lemma PushKeepsOrdered(strict: bool, r: Record, h: seq<Record>)
    requires Ordered(h) && CheckRecord(strict, r, h).Ok?
    ensures Ordered([r] + h)
  {
  }

  lemma PushKeepsRotated(r: Record, h: seq<Record>)
    requires Rotated(h) && CheckRecord(true, r, h).Ok?
    requires forall i :: 0 <= i < |h| && h[i].payloadHash == r.payloadHash ==> h[i] == r
    ensures Rotated([r] + h)
  {
    hide CheckRecord;
    var g := [r] + h;
    AcceptedKeyDiffers(r, h);
    forall i, j | 0 <= i < |g| && 0 <= j < |g| && g[i].payloadHash != g[j].payloadHash
      ensures g[i].runtimeKey != g[j].runtimeKey
    {
      assert i > 0 ==> g[i] == h[i - 1];
      assert j > 0 ==> g[j] == h[j - 1];
    }
  }

  lemma AcceptedKeyDiffers(r: Record, h: seq<Record>)
    requires Rotated(h) && CheckRecord(true, r, h).Ok?
    requires forall i :: 0 <= i < |h| && h[i].payloadHash == r.payloadHash ==> h[i] == r
    ensures forall i :: 0 <= i < |h| && h[i].payloadHash != r.payloadHash ==> h[i].runtimeKey != r.runtimeKey
  {
    if h != [] {
      hide CheckRecord;
      RotationReachedOnlyAbove(true, r, h);
    }
  }

  /** Recording an accepted record keeps a history good. */
  lemma PushKeepsGood(strict: bool, r: Record, h: seq<Record>)
    requires Good(strict, h) && CheckRecord(strict, r, h).Ok?
    requires strict ==> forall i :: 0 <= i < |h| && h[i].payloadHash == r.payloadHash ==> h[i] == r
    ensures Good(strict, [r] + h)
  {
    hide Ordered, Rotated, CheckRecord;
    PushKeepsOrdered(strict, r, h);
    if strict {
      PushKeepsRotated(r, h);
    }
  }

  lemma PushSupersedes(strict: bool, r: Record, h: seq<Record>)
    requires Ordered(h) && CheckRecord(strict, r, h).Ok?
    ensures CheckRecord(strict, r, [r] + h).Ok?
    ensures forall i :: 0 <= i < |h| && h[i].payloadHash != r.payloadHash ==>
              CheckRecord(strict, h[i], [r] + h) == Err(CanaryDowngrade)
  {
    PushKeepsOrdered(strict, r, h);
    forall i | 0 <= i < |h| && h[i].payloadHash != r.payloadHash
      ensures CheckRecord(strict, h[i], [r] + h) == Err(CanaryDowngrade)
    {
      assert ([r] + h)[i + 1] == h[i] && ([r] + h)[0] == r;
    }
  }

  /** The rotation check is only reached strictly above the newest record, so the
      exemption for an equal payload is the only re-fetch it can meet. */
  lemma RotationReachedOnlyAbove(strict: bool, r: Record, h: seq<Record>)
    requires h != []
    ensures CheckRecord(strict, r, h) == Err(CanaryRuntimeReuse) ==>
              h[0].issuedAt < r.issuedAt && h[0].payloadHash != r.payloadHash
              && exists i :: 0 <= i < |h| && h[i].runtimeKey == r.runtimeKey
    ensures CheckRecord(strict, r, h).Ok? <==>
              (h[0].payloadHash == r.payloadHash && h[0].issuedAt <= r.issuedAt)
              || (h[0].issuedAt < r.issuedAt && h[0].payloadHash != r.payloadHash
                  && h[0].runtimeKey != r.runtimeKey
                  && (strict ==> forall i :: 0 <= i < |h| ==> h[i].runtimeKey != r.runtimeKey))
  {
  }

  /** Each verdict exactly, for any record and history, the empty one included: a
      downgrade is strictly older than the newest, a conflict has its instant and
      another payload, a runtime-key reuse is newer with another payload and the
      newest key, or under the extended check any key of the history. */
  lemma VerdictsAre(strict: bool, r: Record, h: seq<Record>)
    ensures CheckRecord(strict, r, h) == Err(CanaryDowngrade) <==> h != [] && r.issuedAt < h[0].issuedAt
    ensures CheckRecord(strict, r, h) == Err(CanaryConflict) <==>
              h != [] && r.issuedAt == h[0].issuedAt && r.payloadHash != h[0].payloadHash
    ensures CheckRecord(strict, r, h) == Err(CanaryRuntimeReuse) <==>
              && h != [] && h[0].issuedAt < r.issuedAt && r.payloadHash != h[0].payloadHash
              && (h[0].runtimeKey == r.runtimeKey || (strict && exists i :: 0 <= i < |h| && h[i].runtimeKey == r.runtimeKey))
    ensures CheckRecord(strict, r, h).Err? ==>
              CheckRecord(strict, r, h).error in {CanaryDowngrade, CanaryConflict, CanaryRuntimeReuse}
    ensures h == [] ==> CheckRecord(strict, r, h).Ok?
  {
    if h != [] {
      assert forall i :: 0 < i < |h| ==> h[i] == Extended(h)[i - 1];
    }
  }

  /** A manifest is checked by the instant, runtime key and payload hash it carries;
      one whose instant does not validate passes. */
  lemma ManifestVerdict(strict: bool, m: Manifest, h: seq<Record>)
    ensures CheckAgainstHistory(strict, m, h) ==
              if m.issuedAt.None? then Ok(()) else CheckRecord(strict, Record(m.issuedAt.value, m.runtimeKey, m.payloadHash), h)
  {
  }

  /** Exact re-fetch and no rollback: of the records a good history holds, only
      the newest payload is still acceptable, and every other is a downgrade. */
  lemma ExactRefetch(strict: bool, r: Record, h: seq<Record>)
    requires Ordered(h) && r in h
    requires forall i :: 0 <= i < |h| && h[i].payloadHash == r.payloadHash ==> h[i] == r
    ensures CheckRecord(strict, r, h) ==
              if r.payloadHash == h[0].payloadHash then Ok(()) else Err(CanaryDowngrade)
  {
  }

  /** In a good strict history equal payloads are contiguous, and each block of
      equal payloads has a runtime key no other block has. */
  lemma PayloadBlocks(h: seq<Record>, i: nat, j: nat, k: nat)
    requires Good(true, h) && i <= j <= k < |h|
    requires forall a, b :: 0 <= a < |h| && 0 <= b < |h| && h[a].payloadHash == h[b].payloadHash ==> h[a] == h[b]
    ensures h[i].payloadHash == h[k].payloadHash ==> h[j] == h[i]
    ensures h[i].payloadHash == h[k].payloadHash <==> h[i].runtimeKey == h[k].runtimeKey
  {
  }
}
