/** The two text encodings of the store: lowercase hexadecimal, and the URL-safe
    base64 alphabet without padding (section 5 of RFC 4648). Both decoders are
    strict: they accept exactly what the encoder writes. */
module Encoding {
  import opened Types

  // ----- Lowercase hexadecimal -----

  function HexDigit(n: int): (c: char)
    requires 0 <= n < 16
  {
    if n < 10 then ('0' as int + n) as char else ('a' as int + n - 10) as char
  }

  lemma HexDigitValue(n: int)
    requires 0 <= n < 16
    ensures HexValue(HexDigit(n)) == Some(n)
  {
  }

  function HexValue(c: char): (v: Option<int>)
    ensures v.Some? ==> 0 <= v.value < 16 && HexDigit(v.value) == c
  {
    if '0' <= c <= '9' then Some(c as int - '0' as int)
    else if 'a' <= c <= 'f' then Some(c as int - 'a' as int + 10)
    else None
  }

  function HexEncode(bs: Bytes): string {
    if bs == [] then []
    else [HexDigit(bs[0] as int / 16), HexDigit(bs[0] as int % 16)] + HexEncode(bs[1..])
  }

  function HexDecode(s: string): Option<Bytes> {
    if s == [] then Some([])
    else if |s| == 1 then None
    else
      match (HexValue(s[0]), HexValue(s[1]), HexDecode(s[2..]))
      case (Some(hi), Some(lo), Some(rest)) => Some([(16 * hi + lo) as byte] + rest)
      case _ => None
  }

  lemma {:induction false} HexRoundTrip(bs: Bytes)
    ensures HexDecode(HexEncode(bs)) == Some(bs)
    ensures |HexEncode(bs)| == 2 * |bs|
  {
    if bs != [] {
      HexRoundTrip(bs[1..]);
      var n := bs[0] as int;
      HexDigitValue(n / 16);
      HexDigitValue(n % 16);
      assert HexEncode(bs)[2..] == HexEncode(bs[1..]);
      assert bs == [bs[0]] + bs[1..];
    }
  }

  /** Each byte is written as its high and its low digit, in lower case. */
  lemma {:induction false} HexDigitsAre(bs: Bytes, k: nat)
    requires k < |bs|
    ensures |HexEncode(bs)| == 2 * |bs|
    ensures HexEncode(bs)[2 * k] == "0123456789abcdef"[bs[k] as int / 16]
    ensures HexEncode(bs)[2 * k + 1] == "0123456789abcdef"[bs[k] as int % 16]
  {
    hide HexDigit;
    HexRoundTrip(bs);
    HexDigitIs(bs[k] as int / 16);
    HexDigitIs(bs[k] as int % 16);
    if k > 0 {
      HexDigitsAre(bs[1..], k - 1);
      assert HexEncode(bs)[2..] == HexEncode(bs[1..]);
    }
  }

  lemma HexDigitIs(n: int)
    requires 0 <= n < 16
    ensures HexDigit(n) == "0123456789abcdef"[n]
  {
    assert n < 10 ==> "0123456789abcdef"[n] as int == '0' as int + n;
  }

  lemma {:induction false} HexDecodeIsStrict(s: string)
    ensures HexDecode(s).Some? ==> HexEncode(HexDecode(s).value) == s
  {
    hide HexValue, HexDigit;
    if |s| > 1 && HexDecode(s).Some? {
      HexDecodeIsStrict(s[2..]);
      var bs := HexDecode(s).value;
      assert bs[1..] == HexDecode(s[2..]).value;
      assert s == [s[0], s[1]] + s[2..];
    }
  }

  lemma {:induction false} HexEncodeIsLowercaseHex(bs: Bytes)
    ensures forall c :: c in HexEncode(bs) ==> HexValue(c).Some?
  {
    if bs != [] {
      HexEncodeIsLowercaseHex(bs[1..]);
    }
  }

  // ----- base64url without padding -----

  function Symbol(n: int): (c: char)
    requires 0 <= n < 64
  {
    if n < 26 then ('A' as int + n) as char
    else if n < 52 then ('a' as int + n - 26) as char
    else if n < 62 then ('0' as int + n - 52) as char
    else if n == 62 then '-'
    else '_'
  }

  function SymbolValue(c: char): (v: Option<int>)
    ensures v.Some? ==> 0 <= v.value < 64 && Symbol(v.value) == c
  {
    if 'A' <= c <= 'Z' then Some(c as int - 'A' as int)
    else if 'a' <= c <= 'z' then Some(c as int - 'a' as int + 26)
    else if '0' <= c <= '9' then Some(c as int - '0' as int + 52)
    else if c == '-' then Some(62)
    else if c == '_' then Some(63)
    else None
  }

  function Symbols(ns: seq<int>): (s: string)
    requires forall i :: 0 <= i < |ns| ==> 0 <= ns[i] < 64
    ensures |s| == |ns| && forall i :: 0 <= i < |ns| ==> s[i] == Symbol(ns[i])
  {
    seq(|ns|, i requires 0 <= i < |ns| => Symbol(ns[i]))
  }

  function SymbolValues(s: string): (ns: Option<seq<int>>)
    ensures ns.Some? <==> forall i :: 0 <= i < |s| ==> SymbolValue(s[i]).Some?
    ensures ns.Some? ==> |ns.value| == |s| && forall i :: 0 <= i < |s| ==> SymbolValue(s[i]) == Some(ns.value[i])
  {
    if forall i :: 0 <= i < |s| ==> SymbolValue(s[i]).Some?
    then Some(seq(|s|, i requires 0 <= i < |s| && SymbolValue(s[i]).Some? => SymbolValue(s[i]).value))
    else None
  }

  /** Three bytes as four sextets. */
  function Split(a: byte, b: byte, c: byte): (ns: seq<int>)
    ensures |ns| == 4 && forall i :: 0 <= i < 4 ==> 0 <= ns[i] < 64
  {
    var (x, y, z) := (a as int, b as int, c as int);
    [x / 4, x % 4 * 16 + y / 16, y % 16 * 4 + z / 64, z % 64]
  }

  /** Four sextets as three bytes. */
  function Join(m: int, n: int, o: int, p: int): (bs: Bytes)
    requires 0 <= m < 64 && 0 <= n < 64 && 0 <= o < 64 && 0 <= p < 64
    ensures |bs| == 3
  {
    [(m * 4 + n / 16) as byte, (n % 16 * 16 + o / 4) as byte, (o % 4 * 64 + p) as byte]
  }

  lemma JoinSplit(a: byte, b: byte, c: byte)
    ensures var ns := Split(a, b, c); Join(ns[0], ns[1], ns[2], ns[3]) == [a, b, c]
  {
    var ns := Split(a, b, c);
    var (x, y, z) := (a as int, b as int, c as int);
    hide Join;
    QuotientRemainder(x % 4, y / 16, 16);
    QuotientRemainder(y % 16, z / 64, 4);
    assert ns[0] * 4 + ns[1] / 16 == x;
    assert ns[1] % 16 * 16 + ns[2] / 4 == y;
    assert ns[2] % 4 * 64 + ns[3] == z;
    JoinIs(ns[0], ns[1], ns[2], ns[3], a, b, c);
  }

  lemma QuotientRemainder(q: int, r: int, d: int)
    requires 0 <= r < d && (d == 4 || d == 16 || d == 64 || d == 4096 || d == 262144)
    ensures (q * d + r) / d == q && (q * d + r) % d == r
  {
  }

  lemma JoinIs(m: int, n: int, o: int, p: int, a: byte, b: byte, c: byte)
    requires 0 <= m < 64 && 0 <= n < 64 && 0 <= o < 64 && 0 <= p < 64
    requires m * 4 + n / 16 == a as int && n % 16 * 16 + o / 4 == b as int && o % 4 * 64 + p == c as int
    ensures Join(m, n, o, p) == [a, b, c]
  {
  }

  lemma SplitJoin(m: int, n: int, o: int, p: int)
    requires 0 <= m < 64 && 0 <= n < 64 && 0 <= o < 64 && 0 <= p < 64
    ensures var bs := Join(m, n, o, p); Split(bs[0], bs[1], bs[2]) == [m, n, o, p]
  {
    var bs := Join(m, n, o, p);
    var (x, y, z) := (bs[0] as int, bs[1] as int, bs[2] as int);
    assert x / 4 == m && x % 4 == n / 16;
    assert y / 16 == n % 16 && y % 16 == o / 4;
    assert z / 64 == o % 4 && z % 64 == p;
  }

  /** The sextets of a byte string: four for every three bytes, and two or three
      for what is left over, filled with zero bits. */
  function Sextets(bs: Bytes): (ns: seq<int>)
    ensures forall i :: 0 <= i < |ns| ==> 0 <= ns[i] < 64
  {
    if bs == [] then []
    else if |bs| == 1 then Split(bs[0], 0, 0)[..2]
    else if |bs| == 2 then Split(bs[0], bs[1], 0)[..3]
    else Split(bs[0], bs[1], bs[2]) + Sextets(bs[3..])
  }

  /** The bytes of a sextet string; a lone sextet or non-zero fill bits are errors. */
  function FromSextets(ns: seq<int>): Option<Bytes>
    requires forall i :: 0 <= i < |ns| ==> 0 <= ns[i] < 64
  {
    if ns == [] then Some([])
    else if |ns| == 1 then None
    else if |ns| == 2 then if ns[1] % 16 == 0 then Some(Join(ns[0], ns[1], 0, 0)[..1]) else None
    else if |ns| == 3 then if ns[2] % 4 == 0 then Some(Join(ns[0], ns[1], ns[2], 0)[..2]) else None
    else
      match FromSextets(ns[4..])
      case None => None
      case Some(rest) => Some(Join(ns[0], ns[1], ns[2], ns[3]) + rest)
  }

  function Base64Encode(bs: Bytes): string {
    Symbols(Sextets(bs))
  }

  function Base64Decode(s: string): Option<Bytes> {
    match SymbolValues(s)
    case None => None
    case Some(ns) => FromSextets(ns)
  }

  /** The byte at `i`, or the zero bits that fill up the last group. */
  function ByteOrFill(bs: Bytes, i: nat): nat {
    if i < |bs| then bs[i] as nat else 0
  }

  /** The 24 bits of the `j`-th group of three bytes, the first byte highest. */
  function Group(bs: Bytes, j: nat): nat {
    ByteOrFill(bs, 3 * j) * 65536 + ByteOrFill(bs, 3 * j + 1) * 256 + ByteOrFill(bs, 3 * j + 2)
  }

  /** The `t`-th six bits of a group, the highest first. */
  function SixBits(group: nat, t: nat): (n: nat)
    requires t < 4
    ensures n < 64
  {
    if t == 0 then group / 262144 % 64 else if t == 1 then group / 4096 % 64 else if t == 2 then group / 64 % 64 else group % 64
  }

  lemma SplitIsSixBits(a: byte, b: byte, c: byte, t: nat)
    requires t < 4
    ensures Split(a, b, c)[t] == SixBits(a as nat * 65536 + b as nat * 256 + c as nat, t)
  {
    hide SixBits;
    var (x, y, z) := (a as nat, b as nat, c as nat);
    HighBits(x, y, z);
    LowBits(x, y, z);
  }

  lemma HighBits(x: nat, y: nat, z: nat)
    requires x < 256 && y < 256 && z < 256
    ensures SixBits(x * 65536 + y * 256 + z, 0) == x / 4
    ensures SixBits(x * 65536 + y * 256 + z, 1) == x % 4 * 16 + y / 16
  {
    var q, r, m, n := x / 4, x % 4, y / 16, y % 16;
    HighBitsOf(q, r, m, n, z, x * 65536 + y * 256 + z);
  }

  lemma HighBitsOf(q: nat, r: nat, m: nat, n: nat, z: nat, v: nat)
    requires q < 64 && r < 4 && m < 16 && n < 16 && z < 256
    requires v == (4 * q + r) * 65536 + (16 * m + n) * 256 + z
    ensures SixBits(v, 0) == q && SixBits(v, 1) == r * 16 + m
  {
    QuotientRemainder(q, r * 65536 + m * 4096 + n * 256 + z, 262144);
    QuotientRemainder(q * 64 + (r * 16 + m), n * 256 + z, 4096);
    QuotientRemainder(q, r * 16 + m, 64);
  }

  lemma LowBits(x: nat, y: nat, z: nat)
    requires x < 256 && y < 256 && z < 256
    ensures SixBits(x * 65536 + y * 256 + z, 2) == y % 16 * 4 + z / 64
    ensures SixBits(x * 65536 + y * 256 + z, 3) == z % 64
  {
    LowBitsOf(x, y / 16, y % 16, z / 64, z % 64, x * 65536 + y * 256 + z);
  }

  lemma LowBitsOf(x: nat, m: nat, n: nat, q: nat, r: nat, v: nat)
    requires m < 16 && n < 16 && q < 4 && r < 64
    requires v == x * 65536 + (16 * m + n) * 256 + (64 * q + r)
    ensures SixBits(v, 2) == n * 4 + q && SixBits(v, 3) == r
  {
    QuotientRemainder((x * 16 + m) * 64 + (n * 4 + q), r, 64);
    QuotientRemainder(x * 16 + m, n * 4 + q, 64);
  }

  /** What is written: the symbols of section 5 of RFC 4648, one for each six bits
      of each group, and no more than the bytes need. */
  lemma {:induction false} Base64SymbolsAre(bs: Bytes, k: nat)
    requires k < |Base64Encode(bs)|
    ensures |Base64Encode(bs)| == (8 * |bs| + 5) / 6
    ensures Base64Encode(bs)[k]
              == ALPHABET[SixBits(Group(bs, k / 4), k % 4)]
  {
    hide Symbol, Split, SixBits;
    SextetsAre(bs, k);
    SymbolIs(Sextets(bs)[k]);
  }

  lemma {:induction false} SextetsAre(bs: Bytes, k: nat)
    requires k < |Sextets(bs)|
    ensures |Sextets(bs)| == (8 * |bs| + 5) / 6
    ensures Sextets(bs)[k] == SixBits(Group(bs, k / 4), k % 4)
  {
    hide Split, SixBits, Group;
    if |bs| > 2 {
      if k < 4 {
        SplitIsSixBits(bs[0], bs[1], bs[2], k);
        FirstGroup(bs);
        if |Sextets(bs[3..])| > 0 {
          SextetsAre(bs[3..], 0);
        } else {
          assert bs[3..] == [];
        }
      } else {
        SextetsAre(bs[3..], k - 4);
        LaterGroup(bs, k / 4);
      }
    } else if |bs| == 2 {
      SplitIsSixBits(bs[0], bs[1], 0, k);
      FirstGroup(bs);
    } else {
      SplitIsSixBits(bs[0], 0, 0, k);
      FirstGroup(bs);
    }
  }

  const ALPHABET: string := "ABCDEFGHIJKLMNOPQRSTUVWXYZ" + "abcdefghijklmnopqrstuvwxyz" + "0123456789-_"

  lemma FirstGroup(bs: Bytes)
    ensures Group(bs, 0) == ByteOrFill(bs, 0) * 65536 + ByteOrFill(bs, 1) * 256 + ByteOrFill(bs, 2)
  {
  }

  lemma LaterGroup(bs: Bytes, j: nat)
    requires |bs| > 2 && j > 0
    ensures Group(bs[3..], j - 1) == Group(bs, j)
  {
  }

  lemma SymbolIs(n: int)
    requires 0 <= n < 64
    ensures Symbol(n) == ALPHABET[n]
  {
    if n < 26 {
      UpperIs(n);
    } else if n < 52 {
      LowerIs(n - 26);
    } else {
      DigitIs(n - 52);
    }
  }

  lemma DigitIs(n: int)
    requires 0 <= n < 12
    ensures "0123456789-_"[n] == if n < 10 then (n + '0' as int) as char else if n == 10 then '-' else '_'
  {
    assert n < 10 ==> "0123456789-_"[n] as int == '0' as int + n;
  }

  lemma UpperIs(n: int)
    requires 0 <= n < 26
    ensures "ABCDEFGHIJKLMNOPQRSTUVWXYZ"[n] as int == 'A' as int + n
  {
  }

  lemma LowerIs(n: int)
    requires 0 <= n < 26
    ensures "abcdefghijklmnopqrstuvwxyz"[n] as int == 'a' as int + n
  {
  }

  lemma {:induction false} SextetsRoundTrip(bs: Bytes)
    ensures FromSextets(Sextets(bs)) == Some(bs)
  {
    if |bs| > 2 {
      SextetsRoundTrip(bs[3..]);
      JoinSplit(bs[0], bs[1], bs[2]);
      assert Sextets(bs)[4..] == Sextets(bs[3..]);
      assert bs == [bs[0], bs[1], bs[2]] + bs[3..];
    } else if |bs| == 2 {
      JoinSplit(bs[0], bs[1], 0);
      var ns := Sextets(bs);
      assert ns == Split(bs[0], bs[1], 0)[..3];
      assert Split(bs[0], bs[1], 0)[3] == 0 && ns[2] % 4 == 0;
      assert Join(ns[0], ns[1], ns[2], 0)[..2] == [bs[0], bs[1]];
      assert bs == [bs[0], bs[1]];
    } else if |bs| == 1 {
      JoinSplit(bs[0], 0, 0);
      var ns := Sextets(bs);
      assert ns == Split(bs[0], 0, 0)[..2];
      assert Split(bs[0], 0, 0)[2..] == [0, 0] && ns[1] % 16 == 0;
      assert Join(ns[0], ns[1], 0, 0)[..1] == [bs[0]];
      assert bs == [bs[0]];
    }
  }

  lemma {:induction false} FromSextetsIsStrict(ns: seq<int>)
    requires forall i :: 0 <= i < |ns| ==> 0 <= ns[i] < 64
    ensures FromSextets(ns).Some? ==> Sextets(FromSextets(ns).value) == ns
  {
    if FromSextets(ns).Some? {
      var bs := FromSextets(ns).value;
      if |ns| > 3 {
        FromSextetsIsStrict(ns[4..]);
        SplitJoin(ns[0], ns[1], ns[2], ns[3]);
        assert bs[3..] == FromSextets(ns[4..]).value;
        assert ns == [ns[0], ns[1], ns[2], ns[3]] + ns[4..];
      } else if |ns| == 3 {
        SplitJoin(ns[0], ns[1], ns[2], 0);
        assert Join(ns[0], ns[1], ns[2], 0)[2] == 0;
        assert ns == [ns[0], ns[1], ns[2]];
      } else if |ns| == 2 {
        SplitJoin(ns[0], ns[1], 0, 0);
        assert Join(ns[0], ns[1], 0, 0)[1] == 0;
        assert ns == [ns[0], ns[1]];
      }
    }
  }

  lemma Base64RoundTrip(bs: Bytes)
    ensures Base64Decode(Base64Encode(bs)) == Some(bs)
  {
    var s := Base64Encode(bs);
    assert forall i :: 0 <= i < |s| ==> SymbolValue(s[i]) == Some(Sextets(bs)[i]);
    assert SymbolValues(s).value == Sextets(bs);
    SextetsRoundTrip(bs);
  }

  lemma Base64DecodeIsStrict(s: string)
    ensures Base64Decode(s).Some? ==> Base64Encode(Base64Decode(s).value) == s
  {
    if Base64Decode(s).Some? {
      FromSextetsIsStrict(SymbolValues(s).value);
    }
  }

  /** The encoder's alphabet holds neither a path separator nor a dot. */
  lemma Base64IsFileSafe(bs: Bytes)
    ensures forall c :: c in Base64Encode(bs) ==> c != '/' && c != '.'
  {
  }
}
