/** On-disk payload protection in integrity mode: an envelope holding the payload
    and its MAC, both in base64url. */
module Protect {
  import opened Types
  import opened Encoding
  import opened Dto

  datatype ProtectionTag = Integrity | Encrypted

  datatype StoreMeta = StoreMeta(v: int, protection: ProtectionTag, saltB64: Option<string>)

  datatype Envelope = Envelope(v: int, payloadB64: string, macB64: string)

  const ENVELOPE_V: int := 1
  const META_V: int := 1

  /** The code the store calls but does not define: HMAC-SHA256 as a function of
      key and message, and the JSON reading and writing of each record shape. */
  datatype Format = Format(
    mac: (Bytes, Bytes) -> Bytes,
    envelopeToJson: Envelope -> Bytes,
    envelopeFromJson: Bytes -> Option<Envelope>,
    identityToJson: IdentityDto -> Bytes,
    identityFromJson: Bytes -> Option<IdentityDto>,
    historyToJson: HistoryDto -> Bytes,
    historyFromJson: Bytes -> Option<HistoryDto>,
    metaToJson: StoreMeta -> Bytes,
    metaFromJson: Bytes -> Option<StoreMeta>)

  /** Reading back what was written yields the same value. */
  ghost predicate Lossless(f: Format) {
    && (forall e :: f.envelopeFromJson(f.envelopeToJson(e)) == Some(e))
    && (forall d :: f.identityFromJson(f.identityToJson(d)) == Some(d))
    && (forall d :: f.historyFromJson(f.historyToJson(d)) == Some(d))
    && (forall m :: f.metaFromJson(f.metaToJson(m)) == Some(m))
  }

  /** A format with the integrity key of one store. */
  datatype Vault = Vault(format: Format, key: Bytes)

  function Seal(vault: Vault, payload: Bytes): Bytes {
    vault.format.envelopeToJson(
      Envelope(ENVELOPE_V, Base64Encode(payload), Base64Encode(vault.format.mac(vault.key, payload))))
  }

  function Unseal(vault: Vault, onDisk: Bytes): StoreResult<Bytes> {
    match vault.format.envelopeFromJson(onDisk)
    case None => Err(Corrupt)
    case Some(env) =>
      if env.v != ENVELOPE_V then Err(Corrupt)
      else
        match (Base64Decode(env.payloadB64), Base64Decode(env.macB64))
        case (Some(payload), Some(tag)) =>
          if tag == vault.format.mac(vault.key, payload) then Ok(payload) else Err(Corrupt)
        case _ => Err(Corrupt)
  }

  lemma UnsealSeal(vault: Vault, payload: Bytes)
    requires Lossless(vault.format)
    ensures Unseal(vault, Seal(vault, payload)) == Ok(payload)
    ensures Seal(vault, payload) == vault.format.envelopeToJson(
              Envelope(1, Base64Encode(payload), Base64Encode(vault.format.mac(vault.key, payload))))
  {
    Base64RoundTrip(payload);
    Base64RoundTrip(vault.format.mac(vault.key, payload));
  }

  /** Only an envelope that says exactly what the key holder would have written
      for a payload opens to that payload; anything else is an error. */
  lemma UnsealsOnlyWhatWasSealed(vault: Vault, onDisk: Bytes, payload: Bytes)
    ensures Unseal(vault, onDisk) == Ok(payload) <==>
              vault.format.envelopeFromJson(onDisk) ==
                Some(Envelope(1, Base64Encode(payload), Base64Encode(vault.format.mac(vault.key, payload))))
    ensures Unseal(vault, onDisk).Ok? || Unseal(vault, onDisk) == Err(Corrupt)
  {
    Base64RoundTrip(payload);
    Base64RoundTrip(vault.format.mac(vault.key, payload));
    var env := vault.format.envelopeFromJson(onDisk);
    if env.Some? {
      Base64DecodeIsStrict(env.value.payloadB64);
      Base64DecodeIsStrict(env.value.macB64);
    }
  }
}
