/** Values shared by every part of the client model. */
module Types {

  datatype Option<+T> = None | Some(value: T)

  datatype Result<+T, +E> = Ok(value: T) | Err(error: E)

  newtype byte = b: int | 0 <= b < 256

  type Bytes = seq<byte>

  type Bytes32 = b: Bytes | |b| == 32 witness seq(32, _ => 0 as byte)

  /** A 32-byte Ed25519 public key: a publisher key or a canary runtime key. */
  datatype Key = Key(bytes: Bytes32)

  /** True of the characters a Tor v3 onion label is made of (lowercase base32). */
  predicate IsBase32Char(c: char) {
    'a' <= c <= 'z' || '2' <= c <= '7'
  }

  predicate IsOnion(s: string) {
    && |s| == 62
    && (forall i :: 0 <= i < 56 ==> IsBase32Char(s[i]))
    && s[56..] == ".onion"
  }

  const ANY_ONION: string := seq(56, _ => 'a') + ".onion"

  type OnionString = s: string | IsOnion(s) witness ANY_ONION

  /** A site: the carrier address a manifest is fetched from. */
  datatype Site = Site(address: OnionString)

  newtype u32 = x: int | 0 <= x < 0x1_0000_0000
  newtype u64 = x: int | 0 <= x < 0x1_0000_0000_0000_0000

  datatype MediaType = Png | Jpeg | Webp

  /** What a decoder reports about an image. */
  datatype Decoded = Decoded(width: u32, height: u32, animated: bool)

  /** The retained facts about one accepted manifest. */
  datatype Record = Record(issuedAt: int, runtimeKey: Key, payloadHash: Bytes32)
}
