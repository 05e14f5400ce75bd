/** The on-disk records and how they map to what the client works with. */
module Dto {
  import opened Types
  import opened Trust
  import opened Encoding

  /** Why a store operation failed: the brain never branches on the cause. */
  datatype StoreError = IoError | Corrupt

  type StoreResult<+T> = Result<T, StoreError>

  const IDENTITY_V: int := 2
  const IDENTITY_V1: int := 1
  const HISTORY_V: int := 1

  /** One identity file. Version 2 carries `provenance`; version 1 predates the
      observed flavour and carries `externallyVerified`. */
  datatype IdentityDto = IdentityDto(
    v: int,
    pubkey: Key,
    provenance: Option<string>,
    externallyVerified: Option<bool>,
    replacedPubkeys: seq<Key>)

  function ProvenanceString(p: Provenance): string {
    match p
    case Observed => "observed"
    case Pinned => "pinned"
    case Verified => "verified"
  }

  function NewIdentityDto(id: Identity, replaced: seq<Key>): (d: IdentityDto)
    ensures CheckIdentityVersion(d).Ok?
  {
    IdentityDto(IDENTITY_V, id.pubkey, Some(ProvenanceString(id.provenance)), None, replaced)
  }

  function CheckIdentityVersion(d: IdentityDto): StoreResult<()> {
    if d.v != IDENTITY_V && d.v != IDENTITY_V1 then Err(Corrupt) else Ok(())
  }

  function ToIdentity(d: IdentityDto): StoreResult<Identity> {
    if d.v == IDENTITY_V && d.externallyVerified.None? then
      if d.provenance == Some("observed") then Ok(Identity(d.pubkey, Observed))
      else if d.provenance == Some("pinned") then Ok(Identity(d.pubkey, Pinned))
      else if d.provenance == Some("verified") then Ok(Identity(d.pubkey, Verified))
      else Err(Corrupt)
    else if d.v == IDENTITY_V1 && d.provenance.None? && d.externallyVerified.Some? then
      Ok(Identity(d.pubkey, if d.externallyVerified.value then Verified else Pinned))
    else Err(Corrupt)
  }

  /** The site record a stored identity stands for. */
  function ToSiteRecord(d: Option<IdentityDto>): StoreResult<Option<SiteRecord>> {
    match d
    case None => Ok(None)
    case Some(dto) =>
      match ToIdentity(dto)
      case Err(e) => Err(e)
      case Ok(id) => Ok(Some(SiteRecord(id, dto.replacedPubkeys)))
  }

  /** The version 1 form of a record: there was none for an observation. */
  function LegacyIdentityDto(rec: SiteRecord): IdentityDto
    requires rec.identity.provenance != Observed
  {
    IdentityDto(IDENTITY_V1, rec.identity.pubkey, None, Some(rec.identity.provenance == Verified), rec.replaced)
  }

  /** A stored identity stands for a record exactly when it is the form written
      today or the version 1 form; so writing and reading back is the identity, and
      no version 1 file reads as a mere observation. The forms, spelt out: version 2
      names the provenance, version 1 has a flag. */
  lemma IdentityDtoIff(d: IdentityDto, rec: SiteRecord)
    ensures var key, keys := rec.identity.pubkey, rec.replaced;
            CheckIdentityVersion(d).Ok? && ToSiteRecord(Some(d)) == Ok(Some(rec)) <==>
              match rec.identity.provenance
              case Observed => d == IdentityDto(2, key, Some("observed"), None, keys)
              case Pinned => d == IdentityDto(2, key, Some("pinned"), None, keys) || d == IdentityDto(1, key, None, Some(false), keys)
              case Verified => d == IdentityDto(2, key, Some("verified"), None, keys) || d == IdentityDto(1, key, None, Some(true), keys)
    ensures NewIdentityDto(rec.identity, rec.replaced).v == 2
    ensures CheckIdentityVersion(d).Ok? <==> d.v == 1 || d.v == 2
    ensures CheckIdentityVersion(d).Ok? && ToSiteRecord(Some(d)) == Ok(Some(rec)) <==>
              d == NewIdentityDto(rec.identity, rec.replaced)
              || (rec.identity.provenance != Observed && d == LegacyIdentityDto(rec))
  {
  }

  // ----- Manifest records -----

  datatype RecordDto = RecordDto(issuedAt: int, runtimeKey: Key, payloadHashHex: string)

  datatype HistoryDto = HistoryDto(v: int, records: seq<RecordDto>)

  function FromRecord(r: Record): RecordDto {
    RecordDto(r.issuedAt, r.runtimeKey, HexEncode(r.payloadHash))
  }

  function IntoRecord(d: RecordDto): StoreResult<Record> {
    match HexDecode(d.payloadHashHex)
    case None => Err(Corrupt)
    case Some(bytes) => if |bytes| == 32 then Ok(Record(d.issuedAt, d.runtimeKey, bytes)) else Err(Corrupt)
  }

  function CheckHistoryVersion(d: HistoryDto): StoreResult<()> {
    if d.v != HISTORY_V then Err(Corrupt) else Ok(())
  }

  /** All entries, or an error if one does not decode. */
  function IntoRecords(ds: seq<RecordDto>): StoreResult<seq<Record>> {
    if ds == [] then Ok([])
    else
      match IntoRecord(ds[0])
      case Err(e) => Err(e)
      case Ok(r) =>
        match IntoRecords(ds[1..])
        case Err(e) => Err(e)
        case Ok(rest) => Ok([r] + rest)
  }

  /** A stored entry decodes to a record exactly when it is that record's encoding. */
  lemma RecordDtoIsCanonical(d: RecordDto, r: Record)
    ensures IntoRecord(d) == Ok(r) <==> d == FromRecord(r)
    ensures FromRecord(r) == RecordDto(r.issuedAt, r.runtimeKey, HexEncode(r.payloadHash))
  {
    HexRoundTrip(r.payloadHash);
    HexDecodeIsStrict(d.payloadHashHex);
  }

  /** History files are at version 1. */
  lemma HistoryVersionIs(d: HistoryDto)
    ensures CheckHistoryVersion(d) == if d.v == 1 then Ok(()) else Err(Corrupt)
    ensures HISTORY_V == 1
  {
  }

  lemma {:induction false} BadEntriesAreCorrupt(ds: seq<RecordDto>)
    ensures IntoRecords(ds).Ok? || IntoRecords(ds) == Err(Corrupt)
  {
    if ds != [] {
      BadEntriesAreCorrupt(ds[1..]);
    }
  }

  /** One entry that does not decode spoils the list. */
  lemma OneBadEntry(ds: seq<RecordDto>, i: nat)
    requires i < |ds| && IntoRecord(ds[i]).Err?
    ensures IntoRecords(ds) == Err(Corrupt) && IntoRecord(ds[i]) == Err(Corrupt)
  {
    BadEntriesAreCorrupt(ds);
    if IntoRecords(ds).Ok? {
      IntoRecordsPointwise(ds, IntoRecords(ds).value);
      RecordDtoIsCanonical(ds[i], IntoRecords(ds).value[i]);
      assert false;
    }
  }

  /** Prepending a record's encoding prepends the record. */
  lemma IntoRecordsCons(r: Record, ds: seq<RecordDto>)
    ensures IntoRecords([FromRecord(r)] + ds) ==
              match IntoRecords(ds) case Err(e) => Err(e) case Ok(rest) => Ok([r] + rest)
  {
    RecordDtoIsCanonical(FromRecord(r), r);
    assert ([FromRecord(r)] + ds)[1..] == ds;
  }

  /** A list of entries loads exactly when every entry does, in order. */
  lemma {:induction false} IntoRecordsPointwise(ds: seq<RecordDto>, rs: seq<Record>)
    ensures IntoRecords(ds) == Ok(rs) <==>
              |rs| == |ds| && forall i :: 0 <= i < |ds| ==> ds[i] == FromRecord(rs[i])
  {
    if ds != [] {
      if rs != [] {
        RecordDtoIsCanonical(ds[0], rs[0]);
        IntoRecordsPointwise(ds[1..], rs[1..]);
        assert rs == [rs[0]] + rs[1..];
        assert (forall i :: 0 <= i < |ds| && i < |rs| ==> ds[i] == FromRecord(rs[i])) <==
               (ds[0] == FromRecord(rs[0]) && forall i :: 0 <= i < |ds[1..]| && i < |rs[1..]| ==> ds[1..][i] == FromRecord(rs[1..][i]));
      }
    }
  }
}
