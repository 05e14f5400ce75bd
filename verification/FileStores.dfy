/** The durable stores: one sealed file per site and one per publisher. */
module FileStores {
  import opened Types
  import opened Trust
  import opened Encoding
  import opened Dto
  import opened Protect
  import opened FileSystem

  // ----- Paths -----

  function IdentityPath(site: Site): Path {
    Path(Identities, site.address + ".json")
  }

  function HistoryPath(publisher: Key): Path {
    Path(Histories, Base64Encode(publisher.bytes) + ".json")
  }

  const KEY_PATH := Path(Base, "store-key")
  const META_PATH := Path(Base, "store-meta.json")

  lemma StemInjective(a: string, b: string)
    requires a + ".json" == b + ".json"
    ensures a == b
  {
    var x, y := a + ".json", b + ".json";
    assert |a| == |x| - 5 == |y| - 5 == |b|;
    assert a == x[..|a|] == y[..|b|] == b;
  }

  /** Different sites and different publishers never share a file, no file name
      leaves its directory, and no temporary file has the name of a record. */
  lemma PathsAreSafe(s1: Site, s2: Site, k1: Key, k2: Key)
    ensures IdentityPath(s1) == IdentityPath(s2) ==> s1 == s2
    ensures HistoryPath(k1) == HistoryPath(k2) ==> k1 == k2
    ensures !IsTempName(IdentityPath(s1).name) && !IsTempName(HistoryPath(k1).name)
    ensures '/' !in IdentityPath(s1).name && '/' !in HistoryPath(k1).name
    ensures IdentityPath(s1) == Path(Identities, s1.address + ".json")
    ensures HistoryPath(k1) == Path(Histories, Base64Encode(k1.bytes) + ".json")
  {
    JsonIsNotTemp(s1.address);
    JsonIsNotTemp(Base64Encode(k1.bytes));
    Base64IsFileSafe(k1.bytes);
    if IdentityPath(s1) == IdentityPath(s2) {
      StemInjective(s1.address, s2.address);
    }
    if HistoryPath(k1) == HistoryPath(k2) {
      StemInjective(Base64Encode(k1.bytes), Base64Encode(k2.bytes));
      Base64RoundTrip(k1.bytes);
      Base64RoundTrip(k2.bytes);
    }
    OnionHasNoSlash(s1.address);
  }

  lemma OnionHasNoSlash(s: OnionString)
    ensures '/' !in s + ".json"
  {
  }

  // ----- What the files say -----

  function PayloadAt(vault: Vault, files: Files, p: Path): StoreResult<Option<Bytes>> {
    match Lookup(files, p)
    case None => Ok(None)
    case Some(onDisk) =>
      match Unseal(vault, onDisk)
      case Err(e) => Err(e)
      case Ok(payload) => Ok(Some(payload))
  }

  function IdentityDtoAt(vault: Vault, files: Files, site: Site): StoreResult<Option<IdentityDto>> {
    match PayloadAt(vault, files, IdentityPath(site))
    case Err(e) => Err(e)
    case Ok(None) => Ok(None)
    case Ok(Some(bytes)) =>
      match vault.format.identityFromJson(bytes)
      case None => Err(Corrupt)
      case Some(dto) => if CheckIdentityVersion(dto).Err? then Err(Corrupt) else Ok(Some(dto))
  }

  /** The record the identity store holds for a site: an error if the file is there
      but does not verify, decode, or make sense. */
  function SiteAt(vault: Vault, files: Files, site: Site): StoreResult<Option<SiteRecord>> {
    match IdentityDtoAt(vault, files, site)
    case Err(e) => Err(e)
    case Ok(dto) => ToSiteRecord(dto)
  }

  function HistoryDtoAt(vault: Vault, files: Files, key: Key): StoreResult<Option<HistoryDto>> {
    match PayloadAt(vault, files, HistoryPath(key))
    case Err(e) => Err(e)
    case Ok(None) => Ok(None)
    case Ok(Some(bytes)) =>
      match vault.format.historyFromJson(bytes)
      case None => Err(Corrupt)
      case Some(dto) => if CheckHistoryVersion(dto).Err? then Err(Corrupt) else Ok(Some(dto))
  }

  function StoredEntries(dto: Option<HistoryDto>): seq<RecordDto> {
    if dto.Some? then dto.value.records else []
  }

  function HistoryIn(vault: Vault, files: Files, key: Key): StoreResult<seq<Record>> {
    match HistoryDtoAt(vault, files, key)
    case Err(e) => Err(e)
    case Ok(dto) => IntoRecords(StoredEntries(dto))
  }

  /** Only a missing file reads as nothing retained: one that does not verify or
      decode is an error. */
  lemma PresentNeverReadsAbsent(vault: Vault, files: Files, site: Site, key: Key)
    ensures SiteAt(vault, files, site) == Ok(None) <==> IdentityPath(site) !in files
    ensures HistoryDtoAt(vault, files, key) == Ok(None) <==> HistoryPath(key) !in files
  {
  }

  /** The file at `p` is what the key holder wrote for this payload. */
  ghost predicate SealedAt(vault: Vault, files: Files, p: Path, payload: Bytes) {
    && p in files
    && vault.format.envelopeFromJson(files[p]) ==
         Some(Envelope(1, Base64Encode(payload), Base64Encode(vault.format.mac(vault.key, payload))))
  }

  lemma PayloadAtIff(vault: Vault, files: Files, p: Path, payload: Bytes)
    ensures PayloadAt(vault, files, p) == Ok(Some(payload)) <==> SealedAt(vault, files, p, payload)
    ensures PayloadAt(vault, files, p) == Ok(None) <==> p !in files
  {
    if p in files {
      UnsealsOnlyWhatWasSealed(vault, files[p], payload);
    }
  }

  /** A site's file reads as a record exactly when the key holder sealed in it one
      of the two forms that stand for the record. */
  lemma SiteReadsIff(vault: Vault, files: Files, site: Site, rec: SiteRecord)
    ensures var key, keys := rec.identity.pubkey, rec.replaced;
            SiteAt(vault, files, site) == Ok(Some(rec)) <==>
              exists payload :: SealedAt(vault, files, IdentityPath(site), payload)
                && var dto := vault.format.identityFromJson(payload);
                   match rec.identity.provenance
                   case Observed => dto == Some(IdentityDto(2, key, Some("observed"), None, keys))
                   case Pinned => dto == Some(IdentityDto(2, key, Some("pinned"), None, keys))
                                  || dto == Some(IdentityDto(1, key, None, Some(false), keys))
                   case Verified => dto == Some(IdentityDto(2, key, Some("verified"), None, keys))
                                    || dto == Some(IdentityDto(1, key, None, Some(true), keys))
  {
    hide PayloadAt, SealedAt, ToSiteRecord, CheckIdentityVersion, NewIdentityDto, LegacyIdentityDto;
    var p := IdentityPath(site);
    forall payload: Bytes ensures PayloadAt(vault, files, p) == Ok(Some(payload)) <==> SealedAt(vault, files, p, payload) {
      PayloadAtIff(vault, files, p, payload);
    }
    forall dto: IdentityDto
      ensures var key, keys := rec.identity.pubkey, rec.replaced;
              CheckIdentityVersion(dto).Ok? && ToSiteRecord(Some(dto)) == Ok(Some(rec)) <==>
                match rec.identity.provenance
                case Observed => dto == IdentityDto(2, key, Some("observed"), None, keys)
                case Pinned => dto == IdentityDto(2, key, Some("pinned"), None, keys) || dto == IdentityDto(1, key, None, Some(false), keys)
                case Verified => dto == IdentityDto(2, key, Some("verified"), None, keys) || dto == IdentityDto(1, key, None, Some(true), keys)
    {
      IdentityDtoIff(dto, rec);
    }
    PayloadAtIff(vault, files, p, []);
    PresentNeverReadsAbsent(vault, files, site, rec.identity.pubkey);
  }

  /** A publisher's file reads as a history exactly when the key holder sealed in it
      the encodings of its records, in order; a missing one is an empty history. */
  lemma HistoryReadsIff(vault: Vault, files: Files, key: Key, rs: seq<Record>)
    ensures HistoryIn(vault, files, key) == Ok(rs) <==>
              if HistoryPath(key) !in files then rs == []
              else exists payload :: SealedAt(vault, files, HistoryPath(key), payload)
                     && vault.format.historyFromJson(payload) == Some(HistoryDto(1, Encodings(rs)))
  {
    hide PayloadAt, SealedAt, IntoRecords;
    var p := HistoryPath(key);
    forall payload: Bytes ensures PayloadAt(vault, files, p) == Ok(Some(payload)) <==> SealedAt(vault, files, p, payload) {
      PayloadAtIff(vault, files, p, payload);
    }
    forall ds: seq<RecordDto> ensures IntoRecords(ds) == Ok(rs) <==> ds == Encodings(rs) {
      IntoRecordsPointwise(ds, rs);
    }
    PresentNeverReadsAbsent(vault, files, Site(ANY_ONION), key);
  }

  function Encodings(rs: seq<Record>): seq<RecordDto> {
    seq(|rs|, i requires 0 <= i < |rs| => FromRecord(rs[i]))
  }

  /** The two stores read nothing but the records. */
  lemma ViewsReadRecords(vault: Vault, a: Files, b: Files)
    requires Records(a) == Records(b)
    ensures forall site :: SiteAt(vault, a, site) == SiteAt(vault, b, site)
    ensures forall key :: HistoryIn(vault, a, key) == HistoryIn(vault, b, key)
  {
    ViewsReadStores(vault, a, b);
  }

  /** Nor does it matter what is recorded about the store itself. */
  lemma ViewsReadStores(vault: Vault, a: Files, b: Files)
    requires forall p: Path :: p.dir != Base ==> Lookup(Records(a), p) == Lookup(Records(b), p)
    ensures forall site :: SiteAt(vault, a, site) == SiteAt(vault, b, site)
    ensures forall key :: HistoryDtoAt(vault, a, key) == HistoryDtoAt(vault, b, key) && HistoryIn(vault, a, key) == HistoryIn(vault, b, key)
  {
    forall site ensures SiteAt(vault, a, site) == SiteAt(vault, b, site) {
      var p := IdentityPath(site);
      JsonIsNotTemp(site.address);
      assert Lookup(a, p) == Lookup(Records(a), p) == Lookup(Records(b), p) == Lookup(b, p);
    }
    forall key
      ensures HistoryDtoAt(vault, a, key) == HistoryDtoAt(vault, b, key) && HistoryIn(vault, a, key) == HistoryIn(vault, b, key)
    {
      var p := HistoryPath(key);
      JsonIsNotTemp(Base64Encode(key.bytes));
      assert Lookup(a, p) == Lookup(Records(a), p) == Lookup(Records(b), p) == Lookup(b, p);
    }
  }

  // ----- What a successful store call does to the views -----

  ghost predicate SameHistories(vault: Vault, before: Files, after: Files) {
    forall key :: HistoryDtoAt(vault, after, key) == HistoryDtoAt(vault, before, key)
                  && HistoryIn(vault, after, key) == HistoryIn(vault, before, key)
  }

  ghost predicate SameSites(vault: Vault, before: Files, after: Files) {
    forall site :: SiteAt(vault, after, site) == SiteAt(vault, before, site)
  }

  /** The store's key and metadata stay. */
  ghost predicate SameRoot(before: Files, after: Files) {
    && Lookup(Records(after), KEY_PATH) == Lookup(Records(before), KEY_PATH)
    && Lookup(Records(after), META_PATH) == Lookup(Records(before), META_PATH)
  }

  lemma NothingWritten(files: Files)
    ensures SameRoot(files, files) && SameTemps(files, files)
  {
  }

  ghost predicate AppliedAt(vault: Vault, before: Files, after: Files, site: Site, intent: Intent) {
    && SameRoot(before, after) && SameHistories(vault, before, after)
    && (forall s :: s != site ==> SiteAt(vault, after, s) == SiteAt(vault, before, s))
    && (SiteAt(vault, before, site).Ok? ==>
          SiteAt(vault, after, site) == Ok(ApplyIntent(SiteAt(vault, before, site).value, intent)))
  }

  ghost predicate AppendedAt(vault: Vault, before: Files, after: Files, publisher: Key, r: Record) {
    && SameRoot(before, after) && SameSites(vault, before, after)
    && (forall k :: k != publisher ==> HistoryIn(vault, after, k) == HistoryIn(vault, before, k))
    && HistoryIn(vault, after, publisher) ==
         match HistoryIn(vault, before, publisher)
         case Err(e) => Err(e)
         case Ok(h) => Ok([r] + h)
  }

  /** Whoever's file is not the one written keeps its view. */
  lemma UnwrittenViews(vault: Vault, before: Files, after: Files, p: Path, content: Bytes)
    requires p.dir != Base && Records(after) == Records(before)[p := content]
    ensures SameRoot(before, after)
    ensures forall site :: IdentityPath(site) != p ==> SiteAt(vault, after, site) == SiteAt(vault, before, site)
    ensures forall key :: HistoryPath(key) != p ==>
              HistoryDtoAt(vault, after, key) == HistoryDtoAt(vault, before, key)
              && HistoryIn(vault, after, key) == HistoryIn(vault, before, key)
  {
    forall site | IdentityPath(site) != p ensures SiteAt(vault, after, site) == SiteAt(vault, before, site) {
      JsonIsNotTemp(site.address);
      assert Lookup(after, IdentityPath(site)) == Lookup(Records(after), IdentityPath(site)) == Lookup(before, IdentityPath(site));
    }
    forall key | HistoryPath(key) != p
      ensures HistoryDtoAt(vault, after, key) == HistoryDtoAt(vault, before, key)
      ensures HistoryIn(vault, after, key) == HistoryIn(vault, before, key)
    {
      JsonIsNotTemp(Base64Encode(key.bytes));
      assert Lookup(after, HistoryPath(key)) == Lookup(Records(after), HistoryPath(key)) == Lookup(before, HistoryPath(key));
    }
  }

  /** Writing one site's file changes that site's record to the one written. */
  lemma WrittenIdentityViews(vault: Vault, before: Files, after: Files, site: Site, dto: IdentityDto)
    requires Lossless(vault.format) && CheckIdentityVersion(dto).Ok?
    requires Records(after) == Records(before)[IdentityPath(site) := Seal(vault, vault.format.identityToJson(dto))]
    ensures SiteAt(vault, after, site) == ToSiteRecord(Some(dto))
    ensures SameRoot(before, after) && SameHistories(vault, before, after)
    ensures forall s :: s != site ==> SiteAt(vault, after, s) == SiteAt(vault, before, s)
  {
    hide SameRoot, Unseal, HistoryIn, HistoryDtoAt;
    var p, payload := IdentityPath(site), vault.format.identityToJson(dto);
    UnwrittenViews(vault, before, after, p, Seal(vault, payload));
    UnsealSeal(vault, payload);
    assert p in Records(after) && after[p] == Seal(vault, payload);
    forall s | s != site ensures SiteAt(vault, after, s) == SiteAt(vault, before, s) {
      PathsAreSafe(s, site, dto.pubkey, dto.pubkey);
    }
    assert forall k :: HistoryPath(k) != p;
  }

  /** Writing one publisher's file changes that publisher's history to the one written. */
  lemma WrittenHistoryViews(vault: Vault, before: Files, after: Files, publisher: Key, dto: HistoryDto)
    requires Lossless(vault.format) && CheckHistoryVersion(dto).Ok?
    requires Records(after) == Records(before)[HistoryPath(publisher) := Seal(vault, vault.format.historyToJson(dto))]
    ensures HistoryIn(vault, after, publisher) == IntoRecords(dto.records)
    ensures SameRoot(before, after) && SameSites(vault, before, after)
    ensures forall k :: k != publisher ==> HistoryIn(vault, after, k) == HistoryIn(vault, before, k)
  {
    hide SameRoot, Unseal, SiteAt, IntoRecords;
    var p, payload := HistoryPath(publisher), vault.format.historyToJson(dto);
    UnwrittenViews(vault, before, after, p, Seal(vault, payload));
    UnsealSeal(vault, payload);
    assert p in Records(after) && after[p] == Seal(vault, payload);
    forall k | k != publisher ensures HistoryIn(vault, after, k) == HistoryIn(vault, before, k) {
      PathsAreSafe(Site(ANY_ONION), Site(ANY_ONION), k, publisher);
    }
    assert forall s :: IdentityPath(s) != p;
  }

  // ----- The store root -----

  /** What the first use of a store may leave on the disk: nothing, the key alone,
      or the key and the metadata. */
  ghost predicate InFirstUse(format: Format, made: Bytes, before: Files, after: Files) {
    || Records(after) == Records(before)
    || Records(after) == Records(before)[KEY_PATH := made]
    || Records(after) == FirstUsed(format, made, before)
  }

  function FirstUsed(format: Format, made: Bytes, before: Files): Files {
    Records(before)[KEY_PATH := made][META_PATH := format.metaToJson(StoreMeta(1, Integrity, None))]
  }

  /** The metadata is there and does not say integrity mode. */
  ghost predicate OtherMode(format: Format, files: Files) {
    META_PATH in files
    && (format.metaFromJson(files[META_PATH]).None? || format.metaFromJson(files[META_PATH]).value.protection != Integrity)
  }

  lemma UntouchedIsInFirstUse(format: Format, made: Bytes, files: Files)
    ensures InFirstUse(format, made, files, files)
  {
  }

  /** The key and the metadata are records: no temporary file has their names. */
  lemma RootIsRecord(files: Files)
    ensures KEY_PATH == Path(Base, "store-key") && META_PATH == Path(Base, "store-meta.json")
    ensures !IsTempName(KEY_PATH.name) && !IsTempName(META_PATH.name)
    ensures Lookup(Records(files), KEY_PATH) == Lookup(files, KEY_PATH)
    ensures Lookup(Records(files), META_PATH) == Lookup(files, META_PATH)
  {
    JsonIsNotTemp("store-meta");
    assert META_PATH.name == "store-meta" + ".json";
  }

  class StoreRoot {
    const volume: Volume
    const vault: Vault

    constructor (volume: Volume, vault: Vault)
      ensures this.volume == volume && this.vault == vault
    {
      this.volume := volume;
      this.vault := vault;
    }

    /** Opens or initialises a store in integrity mode. An existing key is loaded as
        it is and nothing is written; a missing one is made and recorded, and then
        the metadata. A crash in between leaves the key without the metadata. It
        fails only if a disk operation does, a temporary name is taken, or the store
        is in another mode. */
    static method OpenIntegrity(volume: Volume, format: Format) returns (r: StoreResult<StoreRoot>)
      requires Lossless(format)
      modifies volume
      ensures r.Ok? ==>
                && fresh(r.value) && r.value.volume == volume && r.value.vault.format == format
                && Lookup(Records(volume.files), KEY_PATH) == Some(r.value.vault.key)
                && (META_PATH in volume.files ==>
                      format.metaFromJson(volume.files[META_PATH]).Some?
                      && format.metaFromJson(volume.files[META_PATH]).value.protection == Integrity)
      ensures volume.ops >= old(volume.ops) && (r.Ok? ==> SameTemps(old(volume.files), volume.files))
      ensures r.Err? ==>
                || Failed(volume.failing, old(volume.ops), volume.ops)
                || (if KEY_PATH in old(volume.files) then OtherMode(format, old(volume.files))
                    else StrayTemp(old(volume.files), KEY_PATH) || StrayTemp(old(volume.files), META_PATH))
      ensures KEY_PATH in old(volume.files) ==> volume.files == old(volume.files) && volume.seen == old(volume.seen)
      ensures KEY_PATH !in old(volume.files) ==>
                && old(volume.seen) <= volume.seen
                && var made := volume.entropy(old(volume.ops) + 1);
                   && InFirstUse(format, made, old(volume.files), volume.files)
                   && (r.Ok? ==> Records(volume.files) == FirstUsed(format, made, old(volume.files)))
                   && forall k :: |old(volume.seen)| <= k < |volume.seen| ==>
                        InFirstUse(format, made, old(volume.files), volume.seen[k])
    {
      hide InFirstUse, Failed, StrayTemp, Records;
      RootIsRecord(volume.files);
      ghost var first := volume.ops;
      var key;
      var stored := volume.Read(KEY_PATH);
      OneFailed(volume.failing, first);
      if stored.Err? {
        UntouchedIsInFirstUse(format, volume.entropy(first + 1), volume.files);
        return Err(IoError);
      }
      if stored.value.Some? {
        key := stored.value.value;
      } else {
        var made := FirstUse(volume, format);
        FailedSplits(volume.failing, first, first + 1, volume.ops);
        if made.Err? {
          return Err(made.error);
        }
        key := made.value;
        RootIsRecord(volume.files);
        assert Lookup(volume.files, META_PATH) == Some(format.metaToJson(StoreMeta(1, Integrity, None)));
      }
      ghost var mid := volume.ops;
      var checked := CheckMode(volume, format, Integrity);
      OneFailed(volume.failing, mid);
      FailedSplits(volume.failing, first, mid, volume.ops);
      if checked.Err? {
        return Err(checked.error);
      }
      var root := new StoreRoot(volume, Vault(format, key));
      r := Ok(root);
    }

    /** Makes and records a key of 32 random bytes, then the metadata. */
    static method FirstUse(volume: Volume, format: Format) returns (r: StoreResult<Bytes>)
      modifies volume
      ensures volume.ops >= old(volume.ops)
      ensures r.Err? ==> Failed(volume.failing, old(volume.ops), volume.ops)
                         || StrayTemp(old(volume.files), KEY_PATH) || StrayTemp(old(volume.files), META_PATH)
      ensures r.Ok? ==> SameTemps(old(volume.files), volume.files)
      ensures var made := volume.entropy(old(volume.ops));
              && (r.Ok? ==> r.value == made && Records(volume.files) == FirstUsed(format, made, old(volume.files)))
              && InFirstUse(format, made, old(volume.files), volume.files)
              && old(volume.seen) <= volume.seen
              && forall k :: |old(volume.seen)| <= k < |volume.seen| ==>
                   InFirstUse(format, made, old(volume.files), volume.seen[k])
    {
      hide Records, Failed, StrayTemp;
      RootIsRecord(volume.files);
      ghost var first := volume.ops;
      OneFailed(volume.failing, first);
      var random := volume.Random();
      if random.None? {
        return Err(IoError);
      }
      var key := random.value;
      var written := volume.WriteAtomic(KEY_PATH, key);
      FailedSplits(volume.failing, first, first + 1, volume.ops);
      if written.Err? {
        return Err(IoError);
      }
      ghost var seen1, second := volume.seen, volume.ops;
      SameTempsSameStrays(old(volume.files), volume.files, META_PATH);
      written := volume.WriteAtomic(META_PATH, format.metaToJson(StoreMeta(META_V, Integrity, None)));
      FailedSplits(volume.failing, first, second, volume.ops);
      assert forall k :: |old(volume.seen)| <= k < |seen1| ==> volume.seen[k] == seen1[k];
      if written.Err? {
        return Err(IoError);
      }
      r := Ok(key);
    }

    static method CheckMode(volume: Volume, format: Format, expected: ProtectionTag) returns (r: StoreResult<()>)
      modifies volume`ops
      ensures volume.ops == old(volume.ops) + 1
      ensures r.Err? <==> volume.failing(old(volume.ops))
                          || (META_PATH in volume.files
                              && var meta := format.metaFromJson(volume.files[META_PATH]);
                                 meta.None? || meta.value.protection != expected)
      ensures r.Ok? && META_PATH in volume.files ==>
                format.metaFromJson(volume.files[META_PATH]).Some?
                && format.metaFromJson(volume.files[META_PATH]).value.protection == expected
    {
      var meta := volume.Read(META_PATH);
      if meta.Err? {
        return Err(meta.error);
      }
      if meta.value.Some? {
        var decoded := format.metaFromJson(meta.value.value);
        if decoded.None? || decoded.value.protection != expected {
          return Err(Corrupt);
        }
      }
      r := Ok(());
    }

    method ReadProtected(p: Path) returns (r: StoreResult<Option<Bytes>>)
      modifies volume`ops
      ensures volume.ops == old(volume.ops) + 1
      ensures r == if volume.failing(old(volume.ops)) then Err(IoError) else PayloadAt(vault, volume.files, p)
    {
      var bytes := volume.Read(p);
      if bytes.Err? {
        return Err(bytes.error);
      }
      if bytes.value.None? {
        return Ok(None);
      }
      var payload := Unseal(vault, bytes.value.value);
      if payload.Err? {
        return Err(payload.error);
      }
      r := Ok(Some(payload.value));
    }

    method WriteProtected(p: Path, payload: Bytes) returns (r: StoreResult<()>)
      requires !IsTempName(p.name)
      modifies volume
      ensures Records(volume.files) == (if r.Ok? then Records(old(volume.files))[p := Seal(vault, payload)]
                                        else Records(old(volume.files)))
      ensures volume.ops >= old(volume.ops) && (r.Ok? ==> SameTemps(old(volume.files), volume.files))
      ensures r.Err? ==> Failed(volume.failing, old(volume.ops), volume.ops) || StrayTemp(old(volume.files), p)
      ensures PassedThrough(old(volume.seen), volume.seen, old(volume.files), volume.files)
    {
      r := volume.WriteAtomic(p, Seal(vault, payload));
    }
  }

  // ----- The identity store -----

  /** The site's file has become the one for `dto`, and all else is as it was. */
  ghost predicate Wrote(vault: Vault, before: Files, after: Files, site: Site, dto: IdentityDto) {
    && SiteAt(vault, after, site) == ToSiteRecord(Some(dto))
    && SameRoot(before, after) && SameHistories(vault, before, after)
    && forall s :: s != site ==> SiteAt(vault, after, s) == SiteAt(vault, before, s)
  }

  /** What an intent writes over what the file decodes to, if anything. */
  function Rewrite(was: Option<IdentityDto>, intent: Intent): Option<IdentityDto> {
    var keys := if was.Some? then was.value.replacedPubkeys else [];
    match intent
    case NoIntent => None
    case RecordObservation(k) =>
      if was.None? then Some(NewIdentityDto(Identity(k, Observed), [])) else None
    case PinIdentity(k) =>
      if was.None? || (ToIdentity(was.value).Ok? && ToIdentity(was.value).value.provenance == Observed)
      then Some(NewIdentityDto(Identity(k, Pinned), keys)) else None
    case MarkExternallyVerified(k) => Some(NewIdentityDto(Identity(k, Verified), keys))
    case ReplaceIdentity(k, prior, verified) =>
      Some(NewIdentityDto(Identity(k, if verified then Verified else Pinned), [prior] + keys))
  }

  lemma RefusesWhen(vault: Vault, files: Files, site: Site, intent: Intent)
    ensures var was := IdentityDtoAt(vault, files, site);
            Refuses(vault, files, site, intent) <==>
              !intent.NoIntent? && (was.Err? || (intent.PinIdentity? && was.value.Some? && ToIdentity(was.value.value).Err?))
    ensures intent.PinIdentity? && SiteAt(vault, files, site).Err? ==> Refuses(vault, files, site, intent)
  {
    hide IdentityDtoAt;
  }

  lemma RewriteApplies(vault: Vault, before: Files, after: Files, site: Site, intent: Intent)
    requires !Refuses(vault, before, site, intent)
    requires var was := IdentityDtoAt(vault, before, site);
             was.Err? || Rewrite(was.value, intent).None? ==> after == before
    requires var was := IdentityDtoAt(vault, before, site);
             was.Ok? && Rewrite(was.value, intent).Some? ==> Wrote(vault, before, after, site, Rewrite(was.value, intent).value)
    ensures AppliedAt(vault, before, after, site, intent)
    ensures intent.MarkExternallyVerified? || intent.ReplaceIdentity? ==>
              var dto := IdentityDtoAt(vault, before, site);
              && dto.Ok?
              && (dto.value.Some? ==>
                    var was := SiteRecord(Identity(dto.value.value.pubkey, Observed), dto.value.value.replacedPubkeys);
                    SiteAt(vault, after, site) == Ok(ApplyIntent(Some(was), intent)))
  {
    hide IdentityDtoAt, HistoryIn, HistoryDtoAt, SameRoot;
    NothingWritten(before);
  }

  /** The site's file does not verify or decode; or its record, which a pin would
      have to keep or replace, makes no sense. */
  ghost predicate Refuses(vault: Vault, files: Files, site: Site, intent: Intent) {
    !intent.NoIntent?
    && (IdentityDtoAt(vault, files, site).Err? || (intent.PinIdentity? && SiteAt(vault, files, site).Err?))
  }

  class FileIdentityStore {
    const root: StoreRoot

    constructor (root: StoreRoot)
      ensures this.root == root
    {
      this.root := root;
    }

    method LoadDto(site: Site) returns (r: StoreResult<Option<IdentityDto>>)
      modifies root.volume`ops
      ensures root.volume.ops == old(root.volume.ops) + 1
      ensures r == if root.volume.failing(old(root.volume.ops)) then Err(IoError)
                   else IdentityDtoAt(root.vault, root.volume.files, site)
    {
      var bytes := root.ReadProtected(IdentityPath(site));
      if bytes.Err? {
        return Err(bytes.error);
      }
      if bytes.value.None? {
        return Ok(None);
      }
      var dto := root.vault.format.identityFromJson(bytes.value.value);
      if dto.None? || CheckIdentityVersion(dto.value).Err? {
        return Err(Corrupt);
      }
      r := Ok(dto);
    }

    method WriteDto(site: Site, dto: IdentityDto) returns (r: StoreResult<()>)
      requires Lossless(root.vault.format) && CheckIdentityVersion(dto).Ok?
      modifies root.volume
      ensures r.Err? ==> Records(root.volume.files) == Records(old(root.volume.files))
      ensures root.volume.ops >= old(root.volume.ops) && (r.Ok? ==> SameTemps(old(root.volume.files), root.volume.files))
      ensures r.Err? ==> Failed(root.volume.failing, old(root.volume.ops), root.volume.ops)
                         || StrayTemp(old(root.volume.files), IdentityPath(site))
      ensures r.Ok? ==> Wrote(root.vault, old(root.volume.files), root.volume.files, site, dto)
      ensures PassedThrough(old(root.volume.seen), root.volume.seen, old(root.volume.files), root.volume.files)
    {
      JsonIsNotTemp(site.address);
      r := root.WriteProtected(IdentityPath(site), root.vault.format.identityToJson(dto));
      if r.Ok? {
        WrittenIdentityViews(root.vault, old(root.volume.files), root.volume.files, site, dto);
      }
    }

    /** The identity the site's file stands for; an error if the disk fails, or if
        the file is there but does not verify, decode or make sense. */
    method LoadIdentity(site: Site) returns (r: StoreResult<Option<Identity>>)
      modifies root.volume`ops
      ensures root.volume.ops == old(root.volume.ops) + 1
      ensures r == if root.volume.failing(old(root.volume.ops)) then Err(IoError)
                   else match SiteAt(root.vault, root.volume.files, site)
                        case Err(e) => Err(e)
                        case Ok(rec) => Ok(IdentityOf(rec))
    {
      var dto := LoadDto(site);
      if dto.Err? {
        return Err(dto.error);
      }
      if dto.value.None? {
        return Ok(None);
      }
      var id := ToIdentity(dto.value.value);
      if id.Err? {
        return Err(id.error);
      }
      r := Ok(Some(id.value));
    }

    /** Applies an intent to the site's record. A failure, and a crash anywhere
        inside, leaves all records as they were or as a success leaves them. A file
        that does not verify is never overwritten. It fails only if a disk operation
        does, a temporary name is taken, or the file refuses the intent. */
    method Apply(site: Site, intent: Intent) returns (r: StoreResult<()>)
      requires Lossless(root.vault.format)
      modifies root.volume
      ensures r.Ok? ==>
                AppliedAt(root.vault, old(root.volume.files), root.volume.files, site, intent)
      ensures root.volume.ops >= old(root.volume.ops) && (r.Ok? ==> SameTemps(old(root.volume.files), root.volume.files))
      ensures r.Err? ==>
                || Failed(root.volume.failing, old(root.volume.ops), root.volume.ops)
                || StrayTemp(old(root.volume.files), IdentityPath(site))
                || Refuses(root.vault, old(root.volume.files), site, intent)
      ensures Refuses(root.vault, old(root.volume.files), site, intent) ==> r.Err?
      // an observation never touches a file that is there
      ensures intent.RecordObservation? && IdentityDtoAt(root.vault, old(root.volume.files), site) != Ok(None) ==>
                Records(root.volume.files) == Records(old(root.volume.files))
      // a record whose provenance makes no sense is never pinned over, but its
      // replaced keys survive a verification or a replacement
      ensures intent.PinIdentity? && SiteAt(root.vault, old(root.volume.files), site).Err? ==> r.Err?
      ensures r.Ok? && (intent.MarkExternallyVerified? || intent.ReplaceIdentity?) ==>
                var dto := IdentityDtoAt(root.vault, old(root.volume.files), site);
                && dto.Ok?
                && (dto.value.Some? ==>
                      var was := SiteRecord(Identity(dto.value.value.pubkey, Observed), dto.value.value.replacedPubkeys);
                      SiteAt(root.vault, root.volume.files, site) == Ok(ApplyIntent(Some(was), intent)))
      ensures r.Err? ==> Records(root.volume.files) == Records(old(root.volume.files))
      ensures IdentityDtoAt(root.vault, old(root.volume.files), site).Err? ==>
                && Records(root.volume.files) == Records(old(root.volume.files))
                && (r.Ok? ==> intent.NoIntent?)
      ensures PassedThrough(old(root.volume.seen), root.volume.seen, old(root.volume.files), root.volume.files)
    {
      hide Records, SiteAt, IdentityDtoAt, AppliedAt, Wrote, SameTemps, Failed, StrayTemp, Refuses, ApplyIntent, CheckIdentityVersion, NewIdentityDto, PassedThrough;
      NothingWritten(root.volume.files);
      NothingPassed(root.volume.seen, root.volume.files);
      ghost var first, was := root.volume.ops, IdentityDtoAt(root.vault, root.volume.files, site);
      OneFailed(root.volume.failing, first);
      RefusesWhen(root.vault, root.volume.files, site, intent);
      match intent {
        case NoIntent =>
          r := Ok(());
        case RecordObservation(k) =>
          var dto := LoadDto(site);
          if dto.Err? {
            return Err(dto.error);
          }
          if dto.value.None? {
            r := WriteDto(site, NewIdentityDto(Identity(k, Observed), []));
            FailedSplits(root.volume.failing, first, first + 1, root.volume.ops);
          } else {
            r := Ok(());
          }
        case PinIdentity(k) =>
          var dto := LoadDto(site);
          if dto.Err? {
            return Err(dto.error);
          }
          match dto.value {
            case None =>
              r := WriteDto(site, NewIdentityDto(Identity(k, Pinned), []));
              FailedSplits(root.volume.failing, first, first + 1, root.volume.ops);
            case Some(d) =>
              var existing := ToIdentity(d);
              if existing.Err? {
                return Err(existing.error);
              }
              if existing.value.provenance == Observed {
                r := WriteDto(site, NewIdentityDto(Identity(k, Pinned), d.replacedPubkeys));
                FailedSplits(root.volume.failing, first, first + 1, root.volume.ops);
              } else {
                r := Ok(());
              }
          }
        case MarkExternallyVerified(k) =>
          var dto := LoadDto(site);
          if dto.Err? {
            return Err(dto.error);
          }
          var replaced := if dto.value.Some? then dto.value.value.replacedPubkeys else [];
          r := WriteDto(site, NewIdentityDto(Identity(k, Verified), replaced));
          FailedSplits(root.volume.failing, first, first + 1, root.volume.ops);
        case ReplaceIdentity(k, prior, verified) =>
          var dto := LoadDto(site);
          if dto.Err? {
            return Err(dto.error);
          }
          var replaced := if dto.value.Some? then dto.value.value.replacedPubkeys else [];
          replaced := [prior] + replaced;
          r := WriteDto(site, NewIdentityDto(Identity(k, if verified then Verified else Pinned), replaced));
          FailedSplits(root.volume.failing, first, first + 1, root.volume.ops);
      }
      if r.Ok? {
        RewriteApplies(root.vault, old(root.volume.files), root.volume.files, site, intent);
      }
    }
  }

  // ----- The history store -----

  class FileHistoryStore {
    const root: StoreRoot

    constructor (root: StoreRoot)
      ensures this.root == root
    {
      this.root := root;
    }

    method LoadDto(publisher: Key) returns (r: StoreResult<Option<HistoryDto>>)
      modifies root.volume`ops
      ensures root.volume.ops == old(root.volume.ops) + 1
      ensures r == if root.volume.failing(old(root.volume.ops)) then Err(IoError)
                   else HistoryDtoAt(root.vault, root.volume.files, publisher)
    {
      var bytes := root.ReadProtected(HistoryPath(publisher));
      if bytes.Err? {
        return Err(bytes.error);
      }
      if bytes.value.None? {
        return Ok(None);
      }
      var dto := root.vault.format.historyFromJson(bytes.value.value);
      if dto.None? || CheckHistoryVersion(dto.value).Err? {
        return Err(Corrupt);
      }
      r := Ok(dto);
    }

    /** The decoded list; an error if the disk fails, or if the file is there but
        does not verify or one of its entries does not decode. */
    method LoadHistory(publisher: Key) returns (r: StoreResult<seq<Record>>)
      modifies root.volume`ops
      ensures root.volume.ops == old(root.volume.ops) + 1
      ensures r == if root.volume.failing(old(root.volume.ops)) then Err(IoError)
                   else HistoryIn(root.vault, root.volume.files, publisher)
    {
      var dto := LoadDto(publisher);
      if dto.Err? {
        return Err(dto.error);
      }
      if dto.value.None? {
        return Ok([]);
      }
      hide IntoRecord, IntoRecords, FromRecord, PayloadAt;
      var entries := dto.value.value.records;
      var records := [];
      for i := 0 to |entries|
        invariant root.volume.ops == old(root.volume.ops) + 1
        invariant |records| == i
        invariant forall k :: 0 <= k < i ==> entries[k] == FromRecord(records[k])
      {
        var decoded := IntoRecord(entries[i]);
        if decoded.Err? {
          OneBadEntry(entries, i);
          return Err(decoded.error);
        }
        RecordDtoIsCanonical(entries[i], decoded.value);
        records := records + [decoded.value];
      }
      IntoRecordsPointwise(entries, records);
      r := Ok(records);
    }

    /** Prepends an accepted record, with the same crash and corruption promises as
        the identity store. It fails only if a disk operation does, a temporary name
        is taken, or the history file is there and does not verify or decode. */
    method AppendRecord(publisher: Key, record: Record) returns (r: StoreResult<()>)
      requires Lossless(root.vault.format)
      modifies root.volume
      ensures r.Ok? ==> AppendedAt(root.vault, old(root.volume.files), root.volume.files, publisher, record)
      ensures r.Err? ==> Records(root.volume.files) == Records(old(root.volume.files))
      ensures HistoryDtoAt(root.vault, old(root.volume.files), publisher).Err? ==> r.Err?
      ensures root.volume.ops >= old(root.volume.ops) && (r.Ok? ==> SameTemps(old(root.volume.files), root.volume.files))
      ensures r.Err? ==>
                || Failed(root.volume.failing, old(root.volume.ops), root.volume.ops)
                || StrayTemp(old(root.volume.files), HistoryPath(publisher))
                || HistoryDtoAt(root.vault, old(root.volume.files), publisher).Err?
      ensures PassedThrough(old(root.volume.seen), root.volume.seen, old(root.volume.files), root.volume.files)
    {
      hide PayloadAt, Records, SiteAt, SameRoot, SameTemps, Failed, StrayTemp, IntoRecords, FromRecord;
      ghost var first := root.volume.ops;
      OneFailed(root.volume.failing, first);
      var dto := LoadDto(publisher);
      if dto.Err? {
        return Err(dto.error);
      }
      var entries := if dto.value.Some? then dto.value.value.records else [];
      IntoRecordsCons(record, entries);
      entries := [FromRecord(record)] + entries;
      JsonIsNotTemp(Base64Encode(publisher.bytes));
      var updated := HistoryDto(HISTORY_V, entries);
      r := root.WriteProtected(HistoryPath(publisher), root.vault.format.historyToJson(updated));
      FailedSplits(root.volume.failing, first, first + 1, root.volume.ops);
      if r.Ok? {
        WrittenHistoryViews(root.vault, old(root.volume.files), root.volume.files, publisher, updated);
      }
    }
  }
}
