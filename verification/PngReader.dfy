/** The header-level PNG reader: the chunk layout of section 5.3 of the W3C PNG
    specification, read by a loop over offsets. */
module PngReader {
  import opened Types

  /** An offset: arithmetic on it is checked not to overflow. */
  newtype usize = x: int | 0 <= x <= 0xFFFF_FFFF_FFFF_FFFF

  const ISIZE_MAX: int := 0x7FFF_FFFF_FFFF_FFFF

  /** A byte slice: no allocation is longer than `ISIZE_MAX`. */
  type Slice = b: Bytes | |b| <= ISIZE_MAX witness []

  function CheckedAdd(a: usize, b: usize): Option<usize> {
    if a as int + b as int <= 0xFFFF_FFFF_FFFF_FFFF then Some(a + b) else None
  }

  const SIG: Bytes := [0x89, 0x50, 0x4E, 0x47, 0x0D, 0x0A, 0x1A, 0x0A]
  const IHDR: Bytes := [0x49, 0x48, 0x44, 0x52]
  const ACTL: Bytes := [0x61, 0x63, 0x54, 0x4C]
  const IDAT: Bytes := [0x49, 0x44, 0x41, 0x54]
  const IEND: Bytes := [0x49, 0x45, 0x4E, 0x44]

  function Be32(b: Bytes): u32
    requires |b| == 4
  {
    (b[0] as int * 0x100_0000 + b[1] as int * 0x1_0000 + b[2] as int * 0x100 + b[3] as int) as u32
  }

  function ToBe32(n: nat): (b: Bytes)
    requires n < 0x1_0000_0000
    ensures |b| == 4 && Be32(b) as int == n
  {
    var hi, lo := n / 0x1_0000, n % 0x1_0000;
    [(hi / 0x100) as byte, (hi % 0x100) as byte, (lo / 0x100) as byte, (lo % 0x100) as byte]
  }

  lemma Be32Injective(a: Bytes, b: Bytes)
    requires |a| == 4 && |b| == 4 && Be32(a) == Be32(b)
    ensures a == b
  {
    assert a[0] == b[0];
    assert a[1] == b[1];
    assert a[2] == b[2];
    assert a[3] == b[3];
  }

  // ----- The grammar -----

  /** A chunk as it stands in the stream: the CRC is carried, not checked. */
  datatype Chunk = Chunk(ctype: Bytes, data: Bytes, crc: Bytes) {
    ghost predicate Valid() {
      |ctype| == 4 && |data| < 0x1_0000_0000 && |crc| == 4
    }

    function Encode(): Bytes
      requires Valid()
    {
      ToBe32(|data|) + ctype + data + crc
    }
  }

  ghost predicate AllValid(cs: seq<Chunk>) {
    forall i :: 0 <= i < |cs| ==> cs[i].Valid()
  }

  ghost function EncodeAll(cs: seq<Chunk>): Bytes
    requires AllValid(cs)
  {
    if cs == [] then [] else cs[0].Encode() + EncodeAll(cs[1..])
  }

  /** The chunks up to and including the first IEND. */
  ghost predicate Terminated(cs: seq<Chunk>) {
    && cs != []
    && cs[|cs| - 1].ctype == IEND
    && forall i :: 0 <= i < |cs| - 1 ==> cs[i].ctype != IEND
  }

  ghost predicate Has(cs: seq<Chunk>, t: Bytes) {
    exists i :: 0 <= i < |cs| && cs[i].ctype == t
  }

  /** An acTL chunk stands before the first IDAT. */
  ghost predicate Animated(cs: seq<Chunk>) {
    exists i :: 0 <= i < |cs| && cs[i].ctype == ACTL && forall j :: 0 <= j < i ==> cs[j].ctype != IDAT
  }

  /** What a terminated chunk list says: IHDR first, with 13 bytes and a non-zero
      size, and an IDAT somewhere. */
  ghost function Interpret(cs: seq<Chunk>): Option<Decoded>
    requires AllValid(cs)
  {
    if cs == [] || cs[0].ctype != IHDR || |cs[0].data| != 13 then None
    else
      var w, h := Be32(cs[0].data[..4]), Be32(cs[0].data[4..8]);
      if w == 0 || h == 0 || !Has(cs[1..], IDAT) then None
      else Some(Decoded(w, h, Animated(cs[1..])))
  }

  /** The chunk at offset `i`, if it fits. */
  function ChunkAt(b: Bytes, i: nat): (c: Option<Chunk>)
    ensures c.Some? ==> c.value.Valid() && i + 12 + |c.value.data| <= |b|
  {
    if i + 12 > |b| then None
    else
      var end := i + 8 + Be32(b[i..i + 4]) as int;
      if end + 4 > |b| then None
      else Some(Chunk(b[i + 4..i + 8], b[i + 8..end], b[end..end + 4]))
  }

  /** The terminated chunk list that starts at offset `i`, if there is one. */
  ghost function ChunksFrom(b: Bytes, i: nat): (cs: Option<seq<Chunk>>)
    ensures cs.Some? ==> AllValid(cs.value) && cs.value != []
    decreases |b| - i
  {
    var c := ChunkAt(b, i);
    if c.None? then None
    else if c.value.ctype == IEND then Some([c.value])
    else
      var rest := ChunksFrom(b, i + 12 + |c.value.data|);
      if rest.None? then None else Some([c.value] + rest.value)
  }

  // ----- The reader -----

  lemma AnimatedSnoc(cs: seq<Chunk>, c: Chunk)
    ensures Animated(cs + [c]) <==> Animated(cs) || (c.ctype == ACTL && !Has(cs, IDAT))
    ensures Has(cs + [c], IDAT) <==> Has(cs, IDAT) || c.ctype == IDAT
  {
    var ds := cs + [c];
    if Animated(cs) {
      var i :| 0 <= i < |cs| && cs[i].ctype == ACTL && forall j :: 0 <= j < i ==> cs[j].ctype != IDAT;
      assert ds[i] == cs[i] && forall j :: 0 <= j < i ==> ds[j] == cs[j];
    }
    if Has(cs, IDAT) {
      var i :| 0 <= i < |cs| && cs[i].ctype == IDAT;
      assert ds[i] == cs[i];
    }
    if Animated(ds) {
      var i :| 0 <= i < |ds| && ds[i].ctype == ACTL && forall j :: 0 <= j < i ==> ds[j].ctype != IDAT;
      assert forall j :: 0 <= j < i ==> ds[j] == cs[j];
    }
    assert ds[|cs|] == c;
  }

  /** What the reader knows between two chunks. */
  datatype Progress = Start | Past(w: u32, h: u32, animated: bool, seenIdat: bool)

  ghost predicate GoodHeader(c: Chunk)
    requires c.Valid()
  {
    c.ctype == IHDR && |c.data| == 13 && Be32(c.data[..4]) != 0 && Be32(c.data[4..8]) != 0
  }

  /** What reading on from offset `i` leads to. */
  ghost function Ahead(b: Bytes, i: nat, p: Progress): Option<Decoded>
    decreases |b| - i
  {
    match ChunkAt(b, i)
    case None => None
    case Some(c) =>
      var next := i + 12 + |c.data|;
      match p
      case Start =>
        if GoodHeader(c) then Ahead(b, next, Past(Be32(c.data[..4]), Be32(c.data[4..8]), false, false)) else None
      case Past(w, h, animated, seenIdat) =>
        if c.ctype == IEND then if seenIdat then Some(Decoded(w, h, animated)) else None
        else Ahead(b, next, Past(w, h, animated || (c.ctype == ACTL && !seenIdat), seenIdat || c.ctype == IDAT))
  }

  /** What the reader makes of a byte string. */
  ghost function Decode(b: Bytes): Option<Decoded> {
    if |b| < 8 || b[..8] != SIG then None else Ahead(b, 8, Start)
  }

  /** `p` is what the chunks read so far amount to. */
  ghost predicate Tracks(read: seq<Chunk>, p: Progress) {
    && AllValid(read)
    && match p
       case Start => read == []
       case Past(w, h, animated, seenIdat) =>
         && read != [] && GoodHeader(read[0])
         && w == Be32(read[0].data[..4]) && h == Be32(read[0].data[4..8])
         && (seenIdat <==> Has(read[1..], IDAT)) && (animated <==> Animated(read[1..]))
  }

  /** Reading on, chunk by chunk, amounts to interpreting the whole chunk list. */
  lemma {:induction false} AheadInterprets(b: Bytes, i: nat, read: seq<Chunk>, p: Progress)
    requires Tracks(read, p)
    ensures Ahead(b, i, p) ==
              match ChunksFrom(b, i) case None => None case Some(rest) => Interpret(read + rest)
    decreases |b| - i
  {
    hide Be32, ChunkAt;
    var at := ChunkAt(b, i);
    if at.Some? {
      var c, next := at.value, i + 12 + |at.value.data|;
      var rest := ChunksFrom(b, next);
      if p.Start? {
        assert read + [c] == [c] && [c][1..] == [];
        assert rest.Some? ==> read + ([c] + rest.value) == [c] + rest.value;
        if GoodHeader(c) {
          AheadInterprets(b, next, [c], Past(Be32(c.data[..4]), Be32(c.data[4..8]), false, false));
        }
      } else {
        AnimatedSnoc(read[1..], c);
        assert (read + [c])[1..] == read[1..] + [c] && (read + [c])[0] == read[0];
        if c.ctype != IEND {
          assert rest.Some? ==> read + ([c] + rest.value) == read + [c] + rest.value;
          AheadInterprets(b, next, read + [c],
                          Past(p.w, p.h, p.animated || (c.ctype == ACTL && !p.seenIdat), p.seenIdat || c.ctype == IDAT));
        }
      }
    }
  }

  /** The reader interprets the chunk list that starts after the signature. */
  lemma DecodeInterprets(b: Bytes)
    requires |b| >= 8 && b[..8] == SIG
    ensures Decode(b) == match ChunksFrom(b, 8) case None => None case Some(cs) => Interpret(cs)
  {
    AheadInterprets(b, 8, [], Start);
    if ChunksFrom(b, 8).Some? {
      assert [] + ChunksFrom(b, 8).value == ChunksFrom(b, 8).value;
    }
  }

  lemma SliceOfSlice(b: Bytes, i: nat, j: nat, k: nat, l: nat)
    requires i <= j <= |b| && k <= l <= j - i
    ensures b[i..j][k..l] == b[i + k..i + l]
  {
    var x, y := b[i..j][k..l], b[i + k..i + l];
    assert |x| == |y|;
    assert forall m :: 0 <= m < |x| ==> x[m] == b[i + k + m] == y[m];
  }

  /** One turn of the loop, in terms of the bytes it reads. */
  lemma AheadStep(b: Bytes, i: nat, p: Progress, len: nat, ctype: Bytes)
    requires i + 12 <= |b| && len == Be32(b[i..i + 4]) as int && ctype == b[i + 4..i + 8]
    ensures i + 12 + len > |b| ==> Ahead(b, i, p) == None
    ensures i + 12 + len <= |b| && p.Start? && (ctype != IHDR || len != 13) ==> Ahead(b, i, p) == None
    ensures i + 12 + len <= |b| && p.Start? && ctype == IHDR && len == 13 ==>
              var w, h := Be32(b[i + 8..i + 12]), Be32(b[i + 12..i + 16]);
              Ahead(b, i, p) == if w == 0 || h == 0 then None else Ahead(b, i + 12 + len, Past(w, h, false, false))
    ensures i + 12 + len <= |b| && p.Past? ==>
              Ahead(b, i, p) ==
                if ctype == IEND then if p.seenIdat then Some(Decoded(p.w, p.h, p.animated)) else None
                else Ahead(b, i + 12 + len, Past(p.w, p.h, p.animated || (ctype == ACTL && !p.seenIdat),
                                                 p.seenIdat || ctype == IDAT))
  {
    hide Be32;
    if i + 12 + len <= |b| && len == 13 {
      SliceOfSlice(b, i + 8, i + 8 + len, 0, 4);
      SliceOfSlice(b, i + 8, i + 8 + len, 4, 8);
    }
  }

  lemma AheadEnds(b: Bytes, i: nat, p: Progress)
    ensures i + 12 > |b| ==> Ahead(b, i, p) == None
  {
  }

  ghost function ProgressOf(dims: Option<(u32, u32)>, animated: bool, seenIdat: bool): Progress {
    if dims.None? then Start else Past(dims.value.0, dims.value.1, animated, seenIdat)
  }

  /** Only PNG is read; the reader never guesses at another declared type. */
  method PngHeaderDecode(b: Slice, mediaType: MediaType) returns (r: Option<Decoded>)
    ensures r == if mediaType == Png then Decode(b) else None
  {
    if mediaType != Png {
      return None;
    }
    r := ParsePngHeader(b);
  }

  /** The loop of the reader computes `Decode`: it stays within the slice, the
      offset grows with every chunk, and no addition of offsets overflows. */
  method ParsePngHeader(b: Slice) returns (r: Option<Decoded>)
    ensures r == Decode(b)
  {
    hide Ahead, Be32;
    if |b| < |SIG| || b[..|SIG|] != SIG {
      return None;
    }
    var size: usize := |b| as usize;
    var i: usize := |SIG| as usize;
    var dims: Option<(u32, u32)> := None;
    var animated, seenIdat, seenIend, first := false, false, false, true;
    while i + 12 <= size
      invariant 8 <= i <= size && !seenIend
      invariant first <==> dims.None?
      invariant first ==> !animated && !seenIdat
      invariant Decode(b) == Ahead(b, i as int, ProgressOf(dims, animated, seenIdat))
      decreases size - i
    {
      var len := Be32(b[i..i + 4]) as usize;
      var ctype := b[i + 4..i + 8];
      AheadStep(b, i as int, ProgressOf(dims, animated, seenIdat), len as int, ctype);
      var dataStart := i + 8;
      var end := CheckedAdd(dataStart, len);
      if end.None? {
        return None;
      }
      var dataEnd := end.value;
      if dataEnd + 4 > size {
        return None;
      }
      if first {
        if ctype != IHDR || len != 13 {
          return None;
        }
        var w, h := Be32(b[dataStart..dataStart + 4]), Be32(b[dataStart + 4..dataStart + 8]);
        if w == 0 || h == 0 {
          return None;
        }
        dims := Some((w, h));
        first := false;
      } else {
        if ctype == ACTL && !seenIdat {
          animated := true;
        } else if ctype == IDAT {
          seenIdat := true;
        } else if ctype == IEND {
          seenIend := true;
          break;
        }
      }
      i := dataEnd + 4;
    }
    AheadEnds(b, i as int, ProgressOf(dims, animated, seenIdat));
    if dims.None? {
      return None;
    }
    if !(seenIdat && seenIend) {
      return None;
    }
    r := Some(Decoded(dims.value.0, dims.value.1, animated));
  }

  // ----- The reader against the grammar -----

  /** The bytes from offset `i` on start with the encoding of `cs`. */
  ghost predicate StandsAt(b: Bytes, i: nat, cs: seq<Chunk>)
    requires AllValid(cs)
  {
    i + |EncodeAll(cs)| <= |b| && b[i..i + |EncodeAll(cs)|] == EncodeAll(cs)
  }

  lemma EncodeParts(c: Chunk)
    requires c.Valid()
    ensures var e, n := c.Encode(), |c.data|;
            |e| == 12 + n && e[..4] == ToBe32(n) && e[4..8] == c.ctype && e[8..8 + n] == c.data && e[8 + n..] == c.crc
  {
    hide Be32, ToBe32;
  }

  lemma SamePartsSame(s: Bytes, e: Bytes, n: nat)
    requires |s| == |e| == 12 + n
    ensures s == e <==> s[..4] == e[..4] && s[4..8] == e[4..8] && s[8..8 + n] == e[8..8 + n] && s[8 + n..] == e[8 + n..]
  {
    assert s == s[..4] + s[4..8] + s[8..8 + n] + s[8 + n..];
    assert e == e[..4] + e[4..8] + e[8..8 + n] + e[8 + n..];
  }

  lemma ChunkAtIff(b: Bytes, i: nat, c: Chunk)
    requires c.Valid()
    ensures ChunkAt(b, i) == Some(c) <==>
              i + 12 + |c.data| <= |b| && b[i..i + 12 + |c.data|] == c.Encode()
  {
    hide Be32, ToBe32, Chunk.Encode;
    var n := |c.data|;
    if i + 12 + n <= |b| {
      var e, s := c.Encode(), b[i..i + 12 + n];
      EncodeParts(c);
      SliceOfSlice(b, i, i + 12 + n, 0, 4);
      SliceOfSlice(b, i, i + 12 + n, 4, 8);
      SliceOfSlice(b, i, i + 12 + n, 8, 8 + n);
      SliceOfSlice(b, i, i + 12 + n, 8 + n, 12 + n);
      SamePartsSame(s, e, n);
      if ChunkAt(b, i) == Some(c) {
        Be32Injective(b[i..i + 4], ToBe32(n));
      }
    }
  }

  lemma ChunksFromCons(b: Bytes, i: nat, c: Chunk, rest: seq<Chunk>)
    ensures ChunksFrom(b, i) == Some([c] + rest) <==>
              && ChunkAt(b, i) == Some(c)
              && if rest == [] then c.ctype == IEND
                 else c.ctype != IEND && ChunksFrom(b, i + 12 + |c.data|) == Some(rest)
  {
    var cs := ChunksFrom(b, i);
    if cs.Some? {
      assert ChunkAt(b, i) == Some(cs.value[0]);
      assert cs.value == [cs.value[0]] + cs.value[1..];
      assert ([c] + rest)[0] == c && ([c] + rest)[1..] == rest;
    }
  }

  /** The chunk list found at an offset is the one terminated list whose encoding
      stands there. */
  lemma {:induction false} ChunksFromIff(b: Bytes, i: nat, cs: seq<Chunk>)
    requires AllValid(cs)
    ensures ChunksFrom(b, i) == Some(cs) <==> Terminated(cs) && StandsAt(b, i, cs)
    decreases |cs|
  {
    if cs != [] {
      var c, rest := cs[0], cs[1..];
      assert cs == [c] + rest;
      ChunkAtIff(b, i, c);
      ChunksFromCons(b, i, c, rest);
      ChunksFromIff(b, i + 12 + |c.data|, rest);
      TerminatedCons(c, rest);
      StandsAtCons(b, i, c, rest);
      assert rest == [] ==> EncodeAll(rest) == [];
    }
  }

  lemma TerminatedCons(c: Chunk, rest: seq<Chunk>)
    ensures Terminated([c] + rest) <==> if rest == [] then c.ctype == IEND else c.ctype != IEND && Terminated(rest)
  {
    var cs := [c] + rest;
    assert forall i :: 0 <= i < |rest| ==> cs[i + 1] == rest[i];
    if rest != [] {
      assert cs[|cs| - 1] == rest[|rest| - 1];
      assert cs[0] == c;
      assert forall i :: 1 <= i < |cs| - 1 ==> cs[i] == rest[i - 1];
    }
  }

  lemma StandsAtCons(b: Bytes, i: nat, c: Chunk, rest: seq<Chunk>)
    requires c.Valid() && AllValid(rest)
    ensures AllValid([c] + rest)
    ensures StandsAt(b, i, [c] + rest) <==>
              && i + 12 + |c.data| <= |b| && b[i..i + 12 + |c.data|] == c.Encode()
              && StandsAt(b, i + 12 + |c.data|, rest)
  {
    hide Be32, ToBe32;
    var cs := [c] + rest;
    assert cs[1..] == rest && cs[0] == c;
    var x, y := c.Encode(), EncodeAll(rest);
    assert EncodeAll(cs) == x + y;
    if i + |x + y| <= |b| {
      ConcatStands(b, i, x, y);
    }
  }

  lemma ConcatStands(b: Bytes, i: nat, x: Bytes, y: Bytes)
    requires i + |x| + |y| <= |b|
    ensures b[i..i + |x + y|] == x + y <==> b[i..i + |x|] == x && b[i + |x|..i + |x| + |y|] == y
  {
    var s := b[i..i + |x + y|];
    assert s[..|x|] == b[i..i + |x|] && s[|x|..] == b[i + |x|..i + |x| + |y|];
    assert s == s[..|x|] + s[|x|..];
    assert (x + y)[..|x|] == x && (x + y)[|x|..] == y;
  }

  /** The grammar, written out in bytes: the signature, the chunk types, the layout of
      a chunk with its length and numbers highest byte first. */
  lemma BytesAre(c: Chunk, b: Bytes)
    requires c.Valid() && |b| == 4
    ensures SIG == [137, 80, 78, 71, 13, 10, 26, 10]
    ensures IHDR == [73, 72, 68, 82] && ACTL == [97, 99, 84, 76] && IDAT == [73, 68, 65, 84] && IEND == [73, 69, 78, 68]
    ensures Be32(b) as int == b[0] as int * 16_777_216 + b[1] as int * 65_536 + b[2] as int * 256 + b[3] as int
    ensures var e, n := c.Encode(), |c.data|;
            && |e| == 12 + n && Be32(e[..4]) as int == n
            && e[4..8] == c.ctype && e[8..8 + n] == c.data && e[8 + n..] == c.crc
  {
    EncodeParts(c);
  }

  /** What a chunk list says, written out: it starts with an IHDR of thirteen bytes
      whose first two words are the non-zero size, and some later chunk is an IDAT;
      it is animated exactly when an acTL follows the IHDR before the first IDAT. */
  lemma InterpretIs(cs: seq<Chunk>, d: Decoded)
    requires AllValid(cs)
    ensures Interpret(cs) == Some(d) <==>
              && cs != [] && cs[0].ctype == [73, 72, 68, 82] && |cs[0].data| == 13
              && d.width == Be32(cs[0].data[..4]) && d.width != 0
              && d.height == Be32(cs[0].data[4..8]) && d.height != 0
              && (exists i :: 0 < i < |cs| && cs[i].ctype == [73, 68, 65, 84])
              && (d.animated <==>
                    exists i :: 0 < i < |cs| && cs[i].ctype == [97, 99, 84, 76]
                      && forall j :: 0 < j < i ==> cs[j].ctype != [73, 68, 65, 84])
  {
    hide Be32;
    if cs != [] {
      var tail := cs[1..];
      assert Has(tail, IDAT) <==> exists i :: 0 < i < |cs| && cs[i].ctype == IDAT by { HasAfterFirst(cs); }
      assert Animated(tail) <==> AnimatedAfterFirst(cs) by { AnimatedShifts(cs); }
    }
  }

  ghost predicate AnimatedAfterFirst(cs: seq<Chunk>) {
    exists i :: 0 < i < |cs| && cs[i].ctype == ACTL && forall j :: 0 < j < i ==> cs[j].ctype != IDAT
  }

  lemma HasAfterFirst(cs: seq<Chunk>)
    requires cs != []
    ensures Has(cs[1..], IDAT) <==> exists i :: 0 < i < |cs| && cs[i].ctype == IDAT
  {
    forall i | 0 < i < |cs| ensures cs[i] == cs[1..][i - 1] {}
  }

  lemma AnimatedShifts(cs: seq<Chunk>)
    requires cs != []
    ensures Animated(cs[1..]) <==> AnimatedAfterFirst(cs)
  {
    var tail := cs[1..];
    if Animated(tail) {
      var i :| 0 <= i < |tail| && tail[i].ctype == ACTL && forall j :: 0 <= j < i ==> tail[j].ctype != IDAT;
      assert cs[i + 1] == tail[i];
      forall j | 0 < j < i + 1 ensures cs[j].ctype != IDAT {
        assert cs[j] == tail[j - 1];
      }
    }
    if AnimatedAfterFirst(cs) {
      var i :| 0 < i < |cs| && cs[i].ctype == ACTL && forall j :: 0 < j < i ==> cs[j].ctype != IDAT;
      assert tail[i - 1] == cs[i];
      forall j | 0 <= j < i - 1 ensures tail[j].ctype != IDAT {
        assert tail[j] == cs[j + 1];
      }
    }
  }

  /** A chunk list of the whole stream: what stands after the signature, up to and
      including the first IEND. */
  ghost predicate IsStream(b: Bytes, cs: seq<Chunk>) {
    |b| >= 8 && b[..8] == SIG && AllValid(cs) && Terminated(cs) && StandsAt(b, 8, cs)
  }

  lemma StreamIsDecoded(b: Bytes, cs: seq<Chunk>)
    requires IsStream(b, cs)
    ensures Decode(b) == Interpret(cs) && ChunksFrom(b, 8) == Some(cs)
  {
    ChunksFromIff(b, 8, cs);
    DecodeInterprets(b);
  }

  lemma DecodedHasStream(b: Bytes) returns (cs: seq<Chunk>)
    requires Decode(b).Some?
    ensures IsStream(b, cs) && Interpret(cs) == Decode(b)
  {
    DecodeInterprets(b);
    cs := ChunksFrom(b, 8).value;
    ChunksFromIff(b, 8, cs);
  }

  /** The reader accepts exactly the signature followed by the encoding of a chunk
      list the grammar accepts, whatever bytes follow, and reports what it says. */
  lemma DecodeIffGrammar(b: Bytes, d: Decoded)
    ensures Decode(b) == Some(d) <==> exists cs :: IsStream(b, cs) && Interpret(cs) == Some(d)
  {
    if Decode(b) == Some(d) {
      var cs := DecodedHasStream(b);
    }
    forall cs | IsStream(b, cs) ensures Decode(b) == Interpret(cs) {
      StreamIsDecoded(b, cs);
    }
  }

  /** Every chunk list, once encoded, is read back. */
  lemma EncodedIsRead(cs: seq<Chunk>, trailing: Bytes)
    requires AllValid(cs) && Terminated(cs)
    ensures Decode(SIG + EncodeAll(cs) + trailing) == Interpret(cs)
  {
    var b := SIG + EncodeAll(cs) + trailing;
    assert b[..8] == SIG;
    assert b[8..8 + |EncodeAll(cs)|] == EncodeAll(cs);
    StreamIsDecoded(b, cs);
  }

  /** A stream is read the same from any bytes that start with it. */
  lemma StreamTransfers(a: Bytes, b: Bytes, cs: seq<Chunk>)
    requires IsStream(a, cs)
    requires var e := 8 + |EncodeAll(cs)|; e <= |b| && a[..e] == b[..e]
    ensures IsStream(b, cs)
  {
  }

  /** Each accepted input has one end position: exactly the prefixes that reach it
      are accepted, all alike, and so is anything else that starts the same. */
  lemma AcceptanceThreshold(b: Bytes) returns (e: nat)
    requires Decode(b).Some?
    ensures 8 < e <= |b|
    ensures forall n :: 0 <= n <= |b| ==> Decode(b[..n]) == if n >= e then Decode(b) else None
    ensures forall other: Bytes :: Decode(b[..e] + other) == Decode(b)
  {
    var cs := DecodedHasStream(b);
    e := 8 + |EncodeAll(cs)|;
    assert |EncodeAll(cs)| > 0 by {
      assert EncodeAll(cs) == cs[0].Encode() + EncodeAll(cs[1..]);
    }
    forall n | 0 <= n <= |b| ensures Decode(b[..n]) == if n >= e then Decode(b) else None {
      if n >= e {
        SliceOfSlice(b, 0, n, 0, e);
        StreamTransfers(b, b[..n], cs);
        StreamIsDecoded(b[..n], cs);
      } else if Decode(b[..n]).Some? {
        ShorterIsRejected(b, cs, n);
      }
    }
    forall other: Bytes ensures Decode(b[..e] + other) == Decode(b) {
      assert (b[..e] + other)[..e] == b[..e];
      StreamTransfers(b, b[..e] + other, cs);
      StreamIsDecoded(b[..e] + other, cs);
    }
  }

  lemma ShorterIsRejected(b: Bytes, cs: seq<Chunk>, n: nat)
    requires IsStream(b, cs) && n < 8 + |EncodeAll(cs)| && n <= |b|
    ensures Decode(b[..n]) == None
  {
    if Decode(b[..n]).Some? {
      var ds := DecodedHasStream(b[..n]);
      var e := 8 + |EncodeAll(ds)|;
      SliceOfSlice(b, 0, n, 0, e);
      StreamTransfers(b[..n], b, ds);
      StreamIsDecoded(b, ds);
      StreamIsDecoded(b, cs);
    }
  }
}
