/** The section 03 image policy over a rendering session: the ordered checks, the
    document's pixel budget, and the set of failed images that are not retried. */
module Image {
  import opened Types

  const MAX_IMAGE_BYTES: int := 2 * 1024 * 1024
  const MAX_DECODED_PIXELS: int := 16_777_216

  const NUL: char := '\0'

  /** The restricted string forms of an image's source and hash hold no NUL. */
  type PlainString = s: string | NUL !in s witness ""

  datatype ImageRef = ImageRef(src: PlainString, sha256: PlainString, mediaType: MediaType, width: u32, height: u32)

  datatype Code = ContentTypeCode | Oversize | HashMismatch | DecodeFailed | Dimensions | Budget | FetchFailure

  datatype Outcome = Accept(decoded: Decoded) | Reject(code: Code)

  /** The hash of an image body, and the shell's decoder. */
  datatype Tools = Tools(sha256: Bytes -> PlainString, decode: (Bytes, MediaType) -> Option<Decoded>)

  const MAX_SURFACE_SIDE: int := 4096

  /** The decoder refuses any surface beyond the section 03 limits, as its contract
      demands. Only where named: nothing else here relies on it. */
  ghost predicate Conforming(tools: Tools) {
    forall body, m :: tools.decode(body, m).Some? ==>
      tools.decode(body, m).value.width as int <= MAX_SURFACE_SIDE
      && tools.decode(body, m).value.height as int <= MAX_SURFACE_SIDE
  }

  // ----- Content type -----

  function MediaTypeString(m: MediaType): (s: string)
    ensures NUL !in s && ';' !in s
  {
    match m
    case Png => "image/png"
    case Jpeg => "image/jpeg"
    case Webp => "image/webp"
  }

  predicate IsWhitespace(c: char) {
    '\U{0009}' <= c <= '\U{000D}' || c == ' ' || c == '\U{0085}' || c == '\U{00A0}' || c == '\U{1680}'
    || '\U{2000}' <= c <= '\U{200A}' || c == '\U{2028}' || c == '\U{2029}' || c == '\U{202F}' || c == '\U{205F}' || c == '\U{3000}'
  }

  function LowerChar(c: char): char {
    if 'A' <= c <= 'Z' then (c as int + 32) as char else c
  }

  function Lower(s: string): (t: string)
    ensures |t| == |s| && forall i :: 0 <= i < |s| ==> t[i] == LowerChar(s[i])
  {
    seq(|s|, i requires 0 <= i < |s| => LowerChar(s[i]))
  }

  function BeforeSemicolon(s: string): string {
    if s == [] || s[0] == ';' then [] else [s[0]] + BeforeSemicolon(s[1..])
  }

  function TrimStart(s: string): string {
    if s != [] && IsWhitespace(s[0]) then TrimStart(s[1..]) else s
  }

  function TrimEnd(s: string): string {
    if s != [] && IsWhitespace(s[|s| - 1]) then TrimEnd(s[..|s| - 1]) else s
  }

  function Trim(s: string): string {
    TrimEnd(TrimStart(s))
  }

  predicate ContentTypeMatches(contentType: string, declared: MediaType) {
    Lower(Trim(BeforeSemicolon(contentType))) == MediaTypeString(declared)
  }

  ghost predicate AllWhitespace(s: string) {
    forall i :: 0 <= i < |s| ==> IsWhitespace(s[i])
  }

  lemma {:induction false} BeforeSemicolonSplits(s: string)
    ensures var e := BeforeSemicolon(s);
            ';' !in e && |e| <= |s| && s[..|e|] == e && (|e| < |s| ==> s[|e|] == ';')
  {
    if s != [] && s[0] != ';' {
      BeforeSemicolonSplits(s[1..]);
      assert s == [s[0]] + s[1..];
    }
  }

  lemma {:induction false} BeforeSemicolonIs(e: string, rest: string)
    requires ';' !in e && (rest == [] || rest[0] == ';')
    ensures BeforeSemicolon(e + rest) == e
  {
    if e == [] {
      assert e + rest == rest;
    } else {
      assert (e + rest)[1..] == e[1..] + rest;
      BeforeSemicolonIs(e[1..], rest);
    }
  }

  lemma {:induction false} TrimStartIff(a: string, c: string)
    requires AllWhitespace(a) && (c == [] || !IsWhitespace(c[0]))
    ensures TrimStart(a + c) == c
  {
    if a == [] {
      assert a + c == c;
    } else {
      assert (a + c)[1..] == a[1..] + c;
      TrimStartIff(a[1..], c);
    }
  }

  lemma {:induction false} TrimEndIff(c: string, b: string)
    requires AllWhitespace(b) && (c == [] || !IsWhitespace(c[|c| - 1]))
    ensures TrimEnd(c + b) == c
  {
    if b == [] {
      assert c + b == c;
    } else {
      assert (c + b)[..|c + b| - 1] == c + b[..|b| - 1];
      TrimEndIff(c, b[..|b| - 1]);
    }
  }

  lemma {:induction false} TrimStartSplits(s: string) returns (a: string)
    ensures AllWhitespace(a) && s == a + TrimStart(s)
  {
    a := [];
    if s != [] && IsWhitespace(s[0]) {
      a := TrimStartSplits(s[1..]);
      a := [s[0]] + a;
      assert s == [s[0]] + s[1..];
    }
  }

  lemma {:induction false} TrimEndSplits(s: string) returns (b: string)
    ensures AllWhitespace(b) && s == TrimEnd(s) + b
  {
    b := [];
    if s != [] && IsWhitespace(s[|s| - 1]) {
      b := TrimEndSplits(s[..|s| - 1]);
      b := b + [s[|s| - 1]];
      assert s == s[..|s| - 1] + [s[|s| - 1]];
    }
  }

  lemma EssenceOf(e: string, a: string, core: string, b: string)
    requires e == a + core + b && AllWhitespace(a) && AllWhitespace(b)
    requires core != [] && !IsWhitespace(core[0]) && !IsWhitespace(core[|core| - 1])
    ensures Trim(e) == core
  {
    assert a + core + b == a + (core + b);
    TrimStartIff(a, core + b);
    TrimEndIff(core, b);
  }

  lemma MatchingHeaderSplits(s: string, m: MediaType)
    requires ContentTypeMatches(s, m)
    ensures exists a, core, b, rest :: HeaderSplit(s, a, core, b, rest) && Lower(core) == MediaTypeString(m)
  {
    hide IsWhitespace, MediaTypeString, BeforeSemicolon, TrimStart, TrimEnd, AllWhitespace;
    var e := BeforeSemicolon(s);
    BeforeSemicolonSplits(s);
    var a := TrimStartSplits(e);
    var b := TrimEndSplits(TrimStart(e));
    assert s == e + s[|e|..];
    assert e == a + Trim(e) + b;
    assert HeaderSplit(s, a, Trim(e), b, s[|e|..]);
  }

  lemma SplitHeaderMatches(s: string, m: MediaType, a: string, core: string, b: string, rest: string)
    requires HeaderSplit(s, a, core, b, rest) && Lower(core) == MediaTypeString(m)
    ensures ContentTypeMatches(s, m)
  {
    BeforeSemicolonIs(a + core + b, rest);
    var last := |core| - 1;
    assert Lower(core)[0] == 'i' && Lower(core)[last] in {'g', 'p'};
    assert !IsWhitespace(core[0]) && !IsWhitespace(core[last]);
    EssenceOf(a + core + b, a, core, b);
  }

  /** A header is consistent with the declared type exactly when it is white space,
      the type in any letter case, white space, and then nothing or parameters. */
  lemma ContentTypeMatchesIff(s: string, m: MediaType)
    ensures ContentTypeMatches(s, m) <==>
              exists a, core, b, rest :: HeaderSplit(s, a, core, b, rest) && Lower(core) == MediaTypeString(m)
  {
    hide ContentTypeMatches, MediaTypeString, Lower, HeaderSplit;
    if ContentTypeMatches(s, m) {
      MatchingHeaderSplits(s, m);
    }
    forall a, core, b, rest | HeaderSplit(s, a, core, b, rest) && Lower(core) == MediaTypeString(m)
      ensures ContentTypeMatches(s, m)
    {
      SplitHeaderMatches(s, m, a, core, b, rest);
    }
  }

  /** The parts of the header rule, written out: the three type names, ASCII letter
      case by code point, and the characters with the Unicode property White_Space. */
  lemma HeaderRuleIs()
    ensures MediaTypeString(Png) == "image/png" && MediaTypeString(Jpeg) == "image/jpeg" && MediaTypeString(Webp) == "image/webp"
    ensures forall c :: LowerChar(c) as int == if 65 <= c as int <= 90 then c as int + 32 else c as int
    ensures forall c :: IsWhitespace(c) <==>
              c as int in {0x09, 0x0A, 0x0B, 0x0C, 0x0D, 0x20, 0x85, 0xA0, 0x1680,
                           0x2000, 0x2001, 0x2002, 0x2003, 0x2004, 0x2005, 0x2006, 0x2007, 0x2008, 0x2009, 0x200A,
                           0x2028, 0x2029, 0x202F, 0x205F, 0x3000}
  {
  }

  lemma PlainTypeMatches(m: MediaType)
    ensures ContentTypeMatches(MediaTypeString(m), m)
  {
    hide IsWhitespace, MediaTypeString, Lower, ContentTypeMatches;
    var t := MediaTypeString(m);
    MediaTypeIsLowercase(m);
    assert HeaderSplit(t, [], t, [], []) by {
      assert t == [] + t + [] + [];
    }
    ContentTypeMatchesIff(t, m);
  }

  lemma MediaTypeIsLowercase(m: MediaType)
    ensures Lower(MediaTypeString(m)) == MediaTypeString(m)
  {
  }

  ghost predicate HeaderSplit(s: string, a: string, core: string, b: string, rest: string) {
    && s == a + core + b + rest
    && AllWhitespace(a) && AllWhitespace(b) && ';' !in a + core + b
    && (rest == [] || rest[0] == ';')
  }

  // ----- The no-retry key -----

  function KeyOf(image: ImageRef): string {
    image.src + [NUL] + image.sha256 + [NUL] + MediaTypeString(image.mediaType)
  }

  ghost predicate SameTriple(a: ImageRef, b: ImageRef) {
    a.src == b.src && a.sha256 == b.sha256 && a.mediaType == b.mediaType
  }

  function FirstNul(s: string): nat {
    if s == [] || s[0] == NUL then 0 else 1 + FirstNul(s[1..])
  }

  lemma {:induction false} FirstNulAfter(a: string, x: string)
    requires NUL !in a
    ensures FirstNul(a + [NUL] + x) == |a|
  {
    if a == [] {
      assert (a + [NUL] + x)[0] == NUL;
    } else {
      assert (a + [NUL] + x)[1..] == a[1..] + [NUL] + x;
      FirstNulAfter(a[1..], x);
    }
  }

  lemma FirstNulSplits(a: string, x: string, b: string, y: string)
    requires NUL !in a && NUL !in b && a + [NUL] + x == b + [NUL] + y
    ensures a == b && x == y
  {
    var s, t := a + [NUL] + x, b + [NUL] + y;
    FirstNulAfter(a, x);
    FirstNulAfter(b, y);
    assert a == s[..|a|] == t[..|b|] == b;
    assert x == s[|a| + 1..] == t[|b| + 1..] == y;
  }

  /** Two images share a key exactly when they share the whole triple. */
  lemma KeyIsTriple(a: ImageRef, b: ImageRef)
    ensures KeyOf(a) == KeyOf(b) <==> SameTriple(a, b)
  {
    if KeyOf(a) == KeyOf(b) {
      var ta, tb := MediaTypeString(a.mediaType), MediaTypeString(b.mediaType);
      assert KeyOf(a) == a.src + [NUL] + (a.sha256 + [NUL] + ta);
      assert KeyOf(b) == b.src + [NUL] + (b.sha256 + [NUL] + tb);
      FirstNulSplits(a.src, a.sha256 + [NUL] + ta, b.src, b.sha256 + [NUL] + tb);
      FirstNulSplits(a.sha256, ta, b.sha256, tb);
      assert ta[6] == tb[6];
    }
  }

  // ----- One image -----

  function Pixels(d: Decoded): nat {
    d.width as int * d.height as int
  }

  lemma ProductBound(x: int, y: int, m: int)
    requires 0 <= x <= m && 0 <= y <= m
    ensures 0 <= x * y <= m * m
  {
  }

  /** No two 32-bit sizes overflow a 64-bit product. */
  lemma PixelsFitU64(w: u32, h: u32)
    ensures 0 <= w as int * h as int <= 0xFFFF_FFFE_0000_0001
  {
    var m := 0xFFFF_FFFF;
    ProductBound(w as int, h as int, m);
    assert m * m == 0xFFFF_FFFE_0000_0001;
  }

  /** The body may be handed to the decoder: it is authentic and small enough. */
  ghost predicate Decodable(tools: Tools, image: ImageRef, body: Bytes, contentType: string) {
    && ContentTypeMatches(contentType, image.mediaType)
    && |body| <= MAX_IMAGE_BYTES
    && tools.sha256(body) == image.sha256
  }

  /** The image is good in itself: what is left to check is the budget. */
  ghost predicate Sound(tools: Tools, image: ImageRef, body: Bytes, contentType: string) {
    && Decodable(tools, image, body, contentType)
    && var d := tools.decode(body, image.mediaType);
       d.Some? && !d.value.animated && d.value.width == image.width && d.value.height == image.height
  }

  function CheckedAdd(a: u64, b: u64): Option<u64> {
    if a as int + b as int < 0x1_0000_0000_0000_0000 then Some((a as int + b as int) as u64) else None
  }

  class ImageBudget {
    var used: u64

    constructor ()
      ensures used == 0
    {
      used := 0;
    }

    /** Charges the pixels if they fit in what is left, else charges nothing. From a
        budget that was never exceeded neither the product nor the sum overflows. */
    method TryCharge(width: u32, height: u32) returns (ok: bool)
      modifies this
      ensures ok <==> old(used) as int + width as int * height as int <= 16_777_216
      ensures used as int == if ok then old(used) as int + width as int * height as int else old(used) as int
      ensures old(used) as int <= MAX_DECODED_PIXELS ==>
                old(used) as int + width as int * height as int < 0x1_0000_0000_0000_0000
    {
      PixelsFitU64(width, height);
      var pixels: u64 := width as u64 * height as u64;
      var total := CheckedAdd(used, pixels);
      if total.Some? && total.value as int <= MAX_DECODED_PIXELS {
        used := total.value;
        ok := true;
      } else {
        ok := false;
      }
    }
  }

  class NoRetrySet {
    var failed: set<string>

    constructor ()
      ensures failed == {}
    {
      failed := {};
    }

    predicate Contains(image: ImageRef)
      reads this
    {
      KeyOf(image) in failed
    }

    method Record(image: ImageRef)
      modifies this
      ensures failed == old(failed) + {KeyOf(image)}
    {
      failed := failed + {KeyOf(image)};
    }
  }

  /** Steps 3 to 9 in order. The body is decoded only once it is authentic. */
  method RunChecks(tools: Tools, image: ImageRef, body: Bytes, contentType: string, budget: ImageBudget)
    returns (outcome: Outcome, ghost decoded: bool)
    modifies budget
    ensures outcome == Checked(tools, image, body, contentType, old(budget.used) as int)
    ensures budget.used as int == old(budget.used) as int + Charged(outcome)
    ensures decoded <==> Decodable(tools, image, body, contentType)
  {
    decoded := false;
    if !ContentTypeMatches(contentType, image.mediaType) {
      return Reject(ContentTypeCode), decoded;
    }
    if |body| > MAX_IMAGE_BYTES {
      return Reject(Oversize), decoded;
    }
    if tools.sha256(body) != image.sha256 {
      return Reject(HashMismatch), decoded;
    }
    decoded := true;
    var result := tools.decode(body, image.mediaType);
    if result.None? {
      return Reject(DecodeFailed), decoded;
    }
    if result.value.animated {
      return Reject(DecodeFailed), decoded;
    }
    if result.value.width != image.width || result.value.height != image.height {
      return Reject(Dimensions), decoded;
    }
    var charged := budget.TryCharge(result.value.width, result.value.height);
    if !charged {
      return Reject(Budget), decoded;
    }
    outcome := Accept(result.value);
  }

  /** What the checks say, given the pixels used so far. */
  function Checked(tools: Tools, image: ImageRef, body: Bytes, contentType: string, used: nat): Outcome {
    if !ContentTypeMatches(contentType, image.mediaType) then Reject(ContentTypeCode)
    else if |body| > MAX_IMAGE_BYTES then Reject(Oversize)
    else if tools.sha256(body) != image.sha256 then Reject(HashMismatch)
    else
      match tools.decode(body, image.mediaType)
      case None => Reject(DecodeFailed)
      case Some(d) =>
        if d.animated then Reject(DecodeFailed)
        else if d.width != image.width || d.height != image.height then Reject(Dimensions)
        else if used + Pixels(d) > MAX_DECODED_PIXELS then Reject(Budget)
        else Accept(d)
  }

  function Charged(o: Outcome): nat {
    if o.Accept? then Pixels(o.decoded) else 0
  }

  /** An already failed triple is refused unseen; any rejection is remembered. */
  method VerifyImage(tools: Tools, image: ImageRef, body: Bytes, contentType: string,
                     budget: ImageBudget, noRetry: NoRetrySet) returns (outcome: Outcome, ghost decoded: bool)
    modifies budget, noRetry
    ensures var before := Session(old(budget.used) as int, old(noRetry.failed));
            (Session(budget.used as int, noRetry.failed), outcome) == Step(tools, before, Fetched(image, body, contentType))
    ensures decoded <==> HandsToDecoder(tools, Session(old(budget.used) as int, old(noRetry.failed)),
                                        Fetched(image, body, contentType))
  {
    if noRetry.Contains(image) {
      return Reject(DecodeFailed), false;
    }
    outcome, decoded := RunChecks(tools, image, body, contentType, budget);
    if !outcome.Accept? {
      noRetry.Record(image);
    }
  }

  method ReportFetchFailed(tools: Tools, image: ImageRef, budget: ImageBudget, noRetry: NoRetrySet) returns (outcome: Outcome)
    modifies noRetry
    ensures var before := Session(old(budget.used) as int, old(noRetry.failed));
            (Session(budget.used as int, noRetry.failed), outcome) == Step(tools, before, FetchFailed(image))
  {
    noRetry.Record(image);
    outcome := Reject(FetchFailure);
  }

  // ----- A rendering session -----

  datatype Session = Session(used: nat, failed: set<string>)

  datatype Event = Fetched(image: ImageRef, body: Bytes, contentType: string) | FetchFailed(image: ImageRef)

  function Step(tools: Tools, s: Session, e: Event): (Session, Outcome) {
    match e
    case FetchFailed(image) => (s.(failed := s.failed + {KeyOf(image)}), Reject(FetchFailure))
    case Fetched(image, body, contentType) =>
      if KeyOf(image) in s.failed then (s, Reject(DecodeFailed))
      else
        var o := Checked(tools, image, body, contentType, s.used);
        (Session(s.used + Charged(o), if o.Accept? then s.failed else s.failed + {KeyOf(image)}), o)
  }

  /** Whether a step runs the decoder. */
  ghost predicate HandsToDecoder(tools: Tools, s: Session, e: Event) {
    e.Fetched? && KeyOf(e.image) !in s.failed && Decodable(tools, e.image, e.body, e.contentType)
  }

  /** The session before event `i`. */
  function SessionBefore(tools: Tools, s: Session, es: seq<Event>, i: nat): Session
    requires i <= |es|
    decreases i
  {
    if i == 0 then s else SessionBefore(tools, Step(tools, s, es[0]).0, es[1..], i - 1)
  }

  function Run(tools: Tools, s: Session, es: seq<Event>): (r: (Session, seq<Outcome>))
    ensures |r.1| == |es|
    decreases |es|
  {
    if es == [] then (s, [])
    else
      var (s1, o) := Step(tools, s, es[0]);
      var (s2, os) := Run(tools, s1, es[1..]);
      (s2, [o] + os)
  }

  /** An image is accepted exactly when its triple has not failed, it is good in
      itself, and its pixels fit in what is left; only that changes the budget. */
  lemma AcceptedIff(tools: Tools, s: Session, e: Event)
    ensures var (s', o) := Step(tools, s, e);
            && (o.Accept? <==> Acceptable(tools, s, e))
            && (o.Accept? ==> o == Accept(tools.decode(e.body, e.image.mediaType).value))
            && (o.Accept? ==> s' == s.(used := s.used + Pixels(o.decoded)))
            && (!o.Accept? ==> s' == s.(failed := s.failed + {KeyOf(e.image)}))
  {
  }

  /** Each code exactly: that of the first check, in this order, that does not pass.
      The body may have 2,097,152 bytes, a document 16,777,216 pixels. A triple that
      failed before is a decode failure, whatever comes. */
  lemma CodeOfFirstFailure(tools: Tools, s: Session, image: ImageRef, body: Bytes, contentType: string)
    requires KeyOf(image) !in s.failed
    ensures var o, d := Step(tools, s, Fetched(image, body, contentType)).1, tools.decode(body, image.mediaType);
            var typed := ContentTypeMatches(contentType, image.mediaType);
            var sized := typed && |body| <= 2_097_152;
            var authentic := sized && tools.sha256(body) == image.sha256;
            var still := authentic && d.Some? && !d.value.animated;
            var fits := still && d.value.width == image.width && d.value.height == image.height;
            var paid := fits && s.used + d.value.width as int * d.value.height as int <= 16_777_216;
            && (o == Reject(ContentTypeCode) <==> !typed)
            && (o == Reject(Oversize) <==> typed && !sized)
            && (o == Reject(HashMismatch) <==> sized && !authentic)
            && (o == Reject(DecodeFailed) <==> authentic && !still)
            && (o == Reject(Dimensions) <==> still && !fits)
            && (o == Reject(Budget) <==> fits && !paid)
            && (paid <==> o.Accept?) && (paid ==> o == Accept(d.value))
  {
    hide ContentTypeMatches, KeyOf;
  }

  lemma OtherRejections(tools: Tools, s: Session, e: Event)
    ensures e.FetchFailed? ==> Step(tools, s, e).1 == Reject(FetchFailure)
    ensures e.Fetched? && KeyOf(e.image) in s.failed ==> Step(tools, s, e).1 == Reject(DecodeFailed)
    ensures KeyOf(e.image) == e.image.src + "\0" + e.image.sha256 + "\0" + MediaTypeString(e.image.mediaType)
  {
    hide Checked, MediaTypeString;
  }

  ghost predicate Acceptable(tools: Tools, s: Session, e: Event) {
    && e.Fetched? && KeyOf(e.image) !in s.failed
    && Sound(tools, e.image, e.body, e.contentType)
    && s.used + e.image.width as int * e.image.height as int <= MAX_DECODED_PIXELS
  }

  function SumCharged(os: seq<Outcome>): nat {
    if os == [] then 0 else Charged(os[0]) + SumCharged(os[1..])
  }

  ghost function RejectedKeys(es: seq<Event>, os: seq<Outcome>): set<string>
    requires |es| == |os|
  {
    set i | 0 <= i < |es| && !os[i].Accept? :: KeyOf(es[i].image)
  }

  /** Budget arithmetic: over any session the pixels used are those of the accepted
      images, never more than the cap, so no later sum overflows; and the failed set
      holds exactly the keys of the rejected triples. */
  lemma {:induction false} SessionTotals(tools: Tools, s: Session, es: seq<Event>)
    requires s.used <= MAX_DECODED_PIXELS
    ensures var (s', os) := Run(tools, s, es);
            && s'.used == s.used + SumCharged(os)
            && s'.used <= MAX_DECODED_PIXELS
            && s'.failed == s.failed + RejectedKeys(es, os)
    decreases |es|
  {
    if es != [] {
      var (s1, o) := Step(tools, s, es[0]);
      AcceptedIff(tools, s, es[0]);
      SessionTotals(tools, s1, es[1..]);
      var (s2, os) := Run(tools, s1, es[1..]);
      var all := [o] + os;
      assert all[1..] == os;
      assert RejectedKeys(es, all) == (if o.Accept? then {} else {KeyOf(es[0].image)}) + RejectedKeys(es[1..], os) by {
        RejectedKeysCons(es, all);
      }
    }
  }

  lemma RejectedKeysCons(es: seq<Event>, os: seq<Outcome>)
    requires |es| == |os| > 0
    ensures RejectedKeys(es, os) ==
              (if os[0].Accept? then {} else {KeyOf(es[0].image)}) + RejectedKeys(es[1..], os[1..])
  {
  }

  /** The accepted events of a session, and what they were accepted as. */
  function Accepted(tools: Tools, s: Session, es: seq<Event>): (seq<Event>, seq<Outcome>)
    decreases |es|
  {
    if es == [] then ([], [])
    else
      var (s1, o) := Step(tools, s, es[0]);
      var (keptEvents, kept) := Accepted(tools, s1, es[1..]);
      if o.Accept? then ([es[0]] + keptEvents, [o] + kept) else (keptEvents, kept)
  }

  /** Session filtering: rejected images leave no trace on the others. Deleting
      every rejected event from any session leaves each accepted image accepted as
      it was, at the same final budget, and nothing marked as failed. */
  lemma {:induction false} RejectedEventsDoNotMatter(tools: Tools, s: Session, es: seq<Event>, failed: set<string>)
    requires failed <= s.failed
    ensures var (kept, os) := Accepted(tools, s, es);
            var (s', os') := Run(tools, Session(s.used, failed), kept);
            && os' == os
            && s' == Session(Run(tools, s, es).0.used, failed)
    decreases |es|
  {
    hide Step, KeyOf, Sound, Pixels;
    if es != [] {
      var e := es[0];
      var (s1, o) := Step(tools, s, e);
      AcceptedIff(tools, s, e);
      RejectedEventsDoNotMatter(tools, s1, es[1..], failed);
      if o.Accept? {
        var (kept, os) := Accepted(tools, s1, es[1..]);
        AcceptedIff(tools, Session(s.used, failed), e);
        assert ([e] + kept)[0] == e && ([e] + kept)[1..] == kept;
        assert Step(tools, Session(s.used, failed), e) == (Session(s1.used, failed), o);
      }
    }
  }

  /** No retry: once a triple has failed, no later event for it is accepted,
      charged or handed to the decoder. */
  lemma {:induction false} FailedStaysFailed(tools: Tools, s: Session, es: seq<Event>, i: nat, image: ImageRef)
    requires i < |es| && KeyOf(image) in s.failed && SameTriple(es[i].image, image)
    ensures Run(tools, s, es).1[i].Reject?
    ensures var before := SessionBefore(tools, s, es, i);
            !HandsToDecoder(tools, before, es[i]) && Step(tools, before, es[i]).0 == before
    decreases |es|
  {
    hide KeyOf, Sound, Checked, Pixels;
    AcceptedIff(tools, s, es[0]);
    KeyIsTriple(es[i].image, image);
    if i > 0 {
      FailedStaysFailed(tools, Step(tools, s, es[0]).0, es[1..], i - 1, image);
    }
  }

  /** ... and no other triple is affected: marking one triple as failed changes no
      outcome of a session that does not mention it. */
  lemma {:induction false} OtherTriplesUnaffected(tools: Tools, s: Session, es: seq<Event>, image: ImageRef)
    requires forall i :: 0 <= i < |es| ==> !SameTriple(es[i].image, image)
    ensures var (s1, os1), (s2, os2) := Run(tools, s, es), Run(tools, s.(failed := s.failed + {KeyOf(image)}), es);
            os2 == os1 && s2 == s1.(failed := s1.failed + {KeyOf(image)})
    decreases |es|
  {
    if es != [] {
      var marked := s.(failed := s.failed + {KeyOf(image)});
      KeyIsTriple(es[0].image, image);
      AcceptedIff(tools, s, es[0]);
      AcceptedIff(tools, marked, es[0]);
      var s1 := Step(tools, s, es[0]).0;
      assert Step(tools, marked, es[0]) == (s1.(failed := s1.failed + {KeyOf(image)}), Step(tools, s, es[0]).1) by {
        assert marked.failed + {KeyOf(es[0].image)} == s.failed + {KeyOf(es[0].image)} + {KeyOf(image)};
      }
      OtherTriplesUnaffected(tools, s1, es[1..], image);
    }
  }

  // ----- After a refusal for lack of budget -----

  ghost predicate AllRejected(os: seq<Outcome>) {
    forall i :: 0 <= i < |os| ==> os[i].Reject?
  }

  /** A refusal is not final: the images after any point are all refused exactly
      when each of them is unacceptable on its own at that point, or repeats a
      triple seen since. What was refused before for the budget plays no part. */
  lemma {:induction false} AllRefusedIff(tools: Tools, s: Session, es: seq<Event>)
    ensures AllRejected(Run(tools, s, es).1) <==> EachRefused(tools, s, es)
    decreases |es|
  {
    if es != [] {
      var e := es[0];
      var (s1, o) := Step(tools, s, e);
      var os := Run(tools, s1, es[1..]).1;
      AcceptedIff(tools, s, e);
      assert Run(tools, s, es).1 == [o] + os;
      RejectedCons(o, os);
      if o.Reject? {
        AllRefusedIff(tools, s1, es[1..]);
        RefusedShift(tools, s, s1, es);
      } else {
        assert Acceptable(tools, s, es[0]);
      }
    }
  }

  lemma RejectedCons(o: Outcome, os: seq<Outcome>)
    ensures AllRejected([o] + os) <==> o.Reject? && AllRejected(os)
  {
    assert ([o] + os)[0] == o && forall i :: 0 <= i < |os| ==> ([o] + os)[i + 1] == os[i];
  }

  ghost predicate EachRefused(tools: Tools, s: Session, es: seq<Event>) {
    forall i :: 0 <= i < |es| && Acceptable(tools, s, es[i]) ==>
      exists j :: 0 <= j < i && KeyOf(es[j].image) == KeyOf(es[i].image)
  }

  lemma RefusedShift(tools: Tools, s: Session, s1: Session, es: seq<Event>)
    requires es != [] && !Acceptable(tools, s, es[0])
    requires s1 == s.(failed := s.failed + {KeyOf(es[0].image)})
    ensures EachRefused(tools, s, es) <==> EachRefused(tools, s1, es[1..])
  {
  }

  /** The documentation of the budget says every image after a refused one is
      refused. It is not so, with a decoder that keeps its surface limits: after one
      that does not fit in what is left, a smaller one is accepted. */
  lemma SmallerImageAfterRefusal() returns (tools: Tools, first: Event, big: Event, small: Event)
    ensures Conforming(tools)
    ensures var (s, os) := Run(tools, Session(0, {}), [first, big, small]);
            && os == [Accept(Decoded(4096, 4095, false)), Reject(Budget), Accept(Decoded(1, 1, false))]
            && s.used == 4096 * 4095 + 1
  {
    hide ContentTypeMatches, MediaTypeString, KeyOf, Run;
    tools := Tools(
      (body: Bytes) => "h",
      (body: Bytes, m: MediaType) =>
        Some(if body == [] then Decoded(1, 1, false)
             else if |body| == 1 then Decoded(4096, 4095, false) else Decoded(4096, 2, false)));
    first := Fetched(ImageRef("/first", "h", Png, 4096, 4095), [1], MediaTypeString(Png));
    big := Fetched(ImageRef("/big", "h", Png, 4096, 2), [1, 2], MediaTypeString(Png));
    small := Fetched(ImageRef("/small", "h", Png, 1, 1), [], MediaTypeString(Png));
    PlainTypeMatches(Png);
    var (s1, o1) := Step(tools, Session(0, {}), first);
    assert o1 == Accept(Decoded(4096, 4095, false)) && s1 == Session(4096 * 4095, {});
    var (s2, o2) := Step(tools, s1, big);
    assert o2 == Reject(Budget) && s2 == Session(4096 * 4095, {KeyOf(big.image)});
    KeyIsTriple(big.image, small.image);
    assert small.image.src[1] != big.image.src[1];
    var (s3, o3) := Step(tools, s2, small);
    assert o3 == Accept(Decoded(1, 1, false)) && s3.used == 4096 * 4095 + 1;
    RunTwo(tools, s1, big, small);
    RunCons(tools, Session(0, {}), first, [big, small]);
    assert [first] + [big, small] == [first, big, small];
    assert [o1] + [o2, o3] == [o1, o2, o3];
  }

  lemma RunCons(tools: Tools, s: Session, e: Event, rest: seq<Event>)
    ensures var (s1, o1) := Step(tools, s, e);
            var (s2, os) := Run(tools, s1, rest);
            Run(tools, s, [e] + rest) == (s2, [o1] + os)
  {
  }

  lemma RunTwo(tools: Tools, s: Session, e: Event, f: Event)
    ensures var (s1, o1) := Step(tools, s, e);
            var (s2, o2) := Step(tools, s1, f);
            Run(tools, s, [e, f]) == (s2, [o1, o2])
  {
    hide Step;
    var (s1, o1) := Step(tools, s, e);
    var (s2, o2) := Step(tools, s1, f);
    assert [o1] + ([o2] + []) == [o1, o2];
    RunCons(tools, s1, f, []);
    RunCons(tools, s, e, [f]);
    assert [e] + [f] == [e, f] && [f] + [] == [f];
  }
}
