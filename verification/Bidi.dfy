/** Preparing publisher-controlled text for a plain-text renderer: every bidi
    control is made visible, then the value is wrapped in an isolate. */
module Bidi {
  import opened Types

  const FSI: char := '\U{2068}'
  const PDI: char := '\U{2069}'

  predicate IsBidiControl(c: char) {
    c == '\U{061C}' || c == '\U{200E}' || c == '\U{200F}' || '\U{202A}' <= c <= '\U{202E}' || '\U{2066}' <= c <= '\U{2069}'
  }

  /** The ranges of the test are the twelve characters with the Unicode 15.0 property
      Bidi_Control, among them every isolate initiator and the PDI. */
  lemma BidiControlsAreTwelve(c: char)
    ensures IsBidiControl(c) <==>
              c in ['\U{061C}', '\U{200E}', '\U{200F}', '\U{202A}', '\U{202B}', '\U{202C}', '\U{202D}', '\U{202E}',
                    '\U{2066}', '\U{2067}', '\U{2068}', '\U{2069}']
    ensures IsIsolateInitiator(c) || c == PDI ==> IsBidiControl(c)
  {
    var code := c as int;
    assert IsBidiControl(c) <==>
      code in [0x061C, 0x200E, 0x200F, 0x202A, 0x202B, 0x202C, 0x202D, 0x202E, 0x2066, 0x2067, 0x2068, 0x2069];
  }

  function HexDigit(n: nat): char
    requires n < 16
  {
    if n < 10 then ('0' as int + n) as char else ('A' as int + n - 10) as char
  }

  /** Upper-case hexadecimal, at least `width` digits. */
  function Hex(n: nat, width: nat): (s: string)
    ensures |s| >= width
    ensures forall i :: 0 <= i < |s| ==> '0' <= s[i] <= '9' || 'A' <= s[i] <= 'F'
    decreases n + width
  {
    if n < 16 && width <= 1 then if n == 0 && width == 0 then [] else [HexDigit(n)]
    else Hex(n / 16, if width == 0 then 0 else width - 1) + [HexDigit(n % 16)]
  }

  function DigitValue(c: char): nat {
    if '0' <= c <= '9' then c as int - '0' as int else if 'A' <= c <= 'F' then c as int - 'A' as int + 10 else 0
  }

  function FromHex(s: string): nat {
    if s == [] then 0 else 16 * FromHex(s[..|s| - 1]) + DigitValue(s[|s| - 1])
  }

  lemma {:induction false} HexNames(n: nat, width: nat)
    ensures FromHex(Hex(n, width)) == n
    ensures width > 0 && n < Power16(width) ==> |Hex(n, width)| == width
    decreases n + width
  {
    if n >= 16 || width > 1 {
      var w := if width == 0 then 0 else width - 1;
      HexNames(n / 16, w);
      var s := Hex(n, width);
      assert s[..|s| - 1] == Hex(n / 16, w);
    }
  }

  function Power16(k: nat): nat {
    if k == 0 then 1 else 16 * Power16(k - 1)
  }

  /** A control is made visible as "<U+", its code point in exactly four digits, and
      ">": no two controls look the same. */
  lemma VisibleNamesControl(c: char)
    requires IsBidiControl(c)
    ensures |Visible(c)| == 8 && Visible(c)[..3] == "<U+" && Visible(c)[7] == '>'
    ensures FromHex(Visible(c)[3..7]) == c as int
  {
    assert Power16(4) == 16 * Power16(3) == 65536 by {
      assert Power16(1) == 16 && Power16(2) == 256 && Power16(3) == 4096;
    }
    HexNames(c as int, 4);
    assert Visible(c)[3..7] == Hex(c as int, 4);
  }

  function Visible(c: char): string {
    "<U+" + Hex(c as int, 4) + ">"
  }

  function EscapeChar(c: char): string {
    if IsBidiControl(c) then Visible(c) else [c]
  }

  function Escape(value: string): string {
    if value == [] then [] else Escape(value[..|value| - 1]) + EscapeChar(value[|value| - 1])
  }

  function Isolate(value: string): string {
    [FSI] + Escape(value) + [PDI]
  }

  /** The isolated values of a list of runs, one after the other. */
  function IsolateAll(values: seq<string>): string {
    if values == [] then [] else Isolate(values[0]) + IsolateAll(values[1..])
  }

  method IsolatePublisherText(value: string) returns (isolated: string)
    ensures isolated == Isolate(value)
    ensures isolated == ['\U{2068}'] + Escape(value) + ['\U{2069}']
  {
    hide Visible, IsBidiControl;
    isolated := [FSI];
    for i := 0 to |value|
      invariant isolated == [FSI] + Escape(value[..i])
    {
      assert value[..i + 1][..i] == value[..i];
      if IsBidiControl(value[i]) {
        isolated := isolated + Visible(value[i]);
      } else {
        isolated := isolated + [value[i]];
      }
    }
    assert value[..|value|] == value;
    isolated := isolated + [PDI];
  }

  /** An inline run: its text is all that is shown. */
  datatype InlineRun = Text(text: string) | Link(text: string, target: string)

  function TextsOf(runs: seq<InlineRun>): (ts: seq<string>)
    ensures |ts| == |runs| && forall i :: 0 <= i < |runs| ==> ts[i] == runs[i].text
  {
    seq(|runs|, i requires 0 <= i < |runs| => runs[i].text)
  }

  lemma {:induction false} IsolateAllSnoc(values: seq<string>, v: string)
    ensures IsolateAll(values + [v]) == IsolateAll(values) + Isolate(v)
  {
    hide Isolate;
    if values == [] {
      assert IsolateAll([v]) == Isolate(v) + IsolateAll([]);
    } else {
      assert (values + [v])[1..] == values[1..] + [v];
      IsolateAllSnoc(values[1..], v);
      ConcatAssociates(Isolate(values[0]), IsolateAll(values[1..]), Isolate(v));
    }
  }

  method RunsText(runs: seq<InlineRun>) returns (s: string)
    ensures s == IsolateAll(TextsOf(runs))
  {
    s := [];
    for i := 0 to |runs|
      invariant s == IsolateAll(TextsOf(runs)[..i])
    {
      var isolated := IsolatePublisherText(runs[i].text);
      IsolateAllSnoc(TextsOf(runs)[..i], runs[i].text);
      assert TextsOf(runs)[..i] + [runs[i].text] == TextsOf(runs)[..i + 1];
      s := s + isolated;
    }
    assert TextsOf(runs)[..|runs|] == TextsOf(runs);
  }

  // ----- No control survives -----

  ghost predicate Plain(s: string) {
    forall i :: 0 <= i < |s| ==> !IsBidiControl(s[i])
  }

  lemma VisibleIsPlain(c: char)
    ensures Plain(Visible(c))
  {
  }

  /** The visible form, digit by digit in upper case: "<U+202E>" for U+202E. */
  lemma VisibleSpells(c: char)
    requires IsBidiControl(c)
    ensures var n := c as int;
            Visible(c) == "<U+" + ["0123456789ABCDEF"[n / 4096 % 16], "0123456789ABCDEF"[n / 256 % 16],
                                   "0123456789ABCDEF"[n / 16 % 16], "0123456789ABCDEF"[n % 16]] + ">"
  {
    hide Hex, HexDigit, IsBidiControl;
    ControlIsShort(c);
    var n := c as int;
    FourDigits(n);
    var (x, y, z, w) := (n / 4096 % 16, n / 256 % 16, n / 16 % 16, n % 16);
    HexOf(n, x, y, z, w);
    HexDigitIs(x);
    HexDigitIs(y);
    HexDigitIs(z);
    HexDigitIs(w);
  }

  lemma ControlIsShort(c: char)
    requires IsBidiControl(c)
    ensures c as int < 65536
  {
  }

  lemma FourDigits(n: nat)
    requires n < 65536
    ensures n == ((n / 4096 % 16 * 16 + n / 256 % 16) * 16 + n / 16 % 16) * 16 + n % 16
  {
    assert n / 256 == n / 16 / 16 && n / 4096 == n / 16 / 16 / 16;
  }

  lemma HexDigitIs(n: nat)
    requires n < 16
    ensures HexDigit(n) == "0123456789ABCDEF"[n]
  {
    assert n < 10 ==> "0123456789ABCDEF"[n] as int == '0' as int + n;
  }

  lemma HexOf(n: nat, a: nat, b: nat, c: nat, d: nat)
    requires a < 16 && b < 16 && c < 16 && d < 16 && n == ((a * 16 + b) * 16 + c) * 16 + d
    ensures Hex(n, 4) == [HexDigit(a), HexDigit(b), HexDigit(c), HexDigit(d)]
  {
    hide HexDigit;
    assert Hex(a, 1) == [HexDigit(a)];
    assert Hex(a * 16 + b, 2) == Hex(a, 1) + [HexDigit(b)];
    assert Hex((a * 16 + b) * 16 + c, 3) == Hex(a * 16 + b, 2) + [HexDigit(c)];
    assert Hex(n, 4) == Hex((a * 16 + b) * 16 + c, 3) + [HexDigit(d)];
  }

  lemma {:induction false} EscapeConcat(a: string, b: string)
    ensures Escape(a + b) == Escape(a) + Escape(b)
  {
    hide EscapeChar;
    if b == [] {
      assert a + b == a;
    } else {
      var n := |b| - 1;
      EscapeConcat(a, b[..n]);
      assert (a + b)[..|a + b| - 1] == a + b[..n];
      ConcatAssociates(Escape(a), Escape(b[..n]), EscapeChar(b[n]));
    }
  }

  /** The escape of a value, character by character: a control is shown as "<U+",
      its own code point in four digits, and ">"; anything else is kept. */
  lemma EscapeShowsEachControl(a: string, c: char, b: string)
    ensures IsBidiControl(c) ==>
              exists digits :: |digits| == 4 && FromHex(digits) == c as int
                               && Escape(a + [c] + b) == Escape(a) + ("<U+" + digits + ">") + Escape(b)
    ensures !IsBidiControl(c) ==> Escape(a + [c] + b) == Escape(a) + [c] + Escape(b)
  {
    hide IsBidiControl, Visible;
    EscapeConcat(a + [c], b);
    EscapeConcat(a, [c]);
    assert Escape([c]) == EscapeChar(c) by { EscapeOne(c); }
    if IsBidiControl(c) {
      VisibleNamesControl(c);
      var digits := Visible(c)[3..7];
      assert Visible(c) == Visible(c)[..3] + digits + [Visible(c)[7]];
      assert "<U+" + digits + ">" == Visible(c);
    }
  }

  lemma EscapeOne(c: char)
    ensures Escape([c]) == EscapeChar(c)
  {
    hide EscapeChar;
    assert [c][..0] == [];
  }

  /** Whatever the value, what stands inside the isolate holds no bidi control; and
      a value is left as it is exactly when it held none. */
  lemma {:induction false} EscapeIsPlain(value: string)
    ensures Plain(Escape(value))
    ensures Escape(value) == value <==> Plain(value)
    ensures |value| <= |Escape(value)|
    ensures !Plain(value) ==> |value| < |Escape(value)|
  {
    hide IsBidiControl, Visible, Plain;
    if value == [] {
      PlainConcat([], []);
    } else {
      var n := |value| - 1;
      EscapeIsPlain(value[..n]);
      PlainChar(value[n]);
      PlainConcat(Escape(value[..n]), EscapeChar(value[n]));
      PlainConcat(value[..n], [value[n]]);
      assert value == value[..n] + [value[n]];
    }
  }

  lemma PlainConcat(a: string, b: string)
    ensures Plain(a + b) <==> Plain(a) && Plain(b)
    ensures Plain([])
  {
    hide IsBidiControl;
    assert forall i :: 0 <= i < |a| ==> (a + b)[i] == a[i];
    assert forall i :: 0 <= i < |b| ==> (a + b)[|a| + i] == b[i];
  }

  lemma PlainChar(c: char)
    ensures Plain(EscapeChar(c))
    ensures if Plain([c]) then EscapeChar(c) == [c] else |EscapeChar(c)| > 1
  {
    VisibleIsPlain(c);
    assert [c][0] == c;
  }

  /** Escaping twice is escaping once. */
  lemma EscapeIsIdempotent(value: string)
    ensures Escape(Escape(value)) == Escape(value)
  {
    EscapeIsPlain(value);
    EscapeIsPlain(Escape(value));
  }

  // ----- Matching PDI: definition BD9 of UAX #9 -----

  predicate IsIsolateInitiator(c: char) {
    '\U{2066}' <= c <= FSI
  }

  /** The characters of bidi class B, at which a paragraph ends. */
  predicate IsParagraphSeparator(c: char) {
    c == '\U{000A}' || c == '\U{000D}' || '\U{001C}' <= c <= '\U{001E}' || c == '\U{0085}' || c == '\U{2029}'
  }

  /** Scan from position `i` with `depth` isolates open, to the PDI that closes the
      outermost one or the end of the paragraph. */
  function ScanPdi(text: string, i: nat, depth: nat): (r: Option<nat>)
    requires i <= |text| && depth > 0
    ensures r.Some? ==> i <= r.value < |text|
    decreases |text| - i
  {
    if i == |text| || IsParagraphSeparator(text[i]) then None
    else if IsIsolateInitiator(text[i]) then ScanPdi(text, i + 1, depth + 1)
    else if text[i] == PDI then if depth == 1 then Some(i) else ScanPdi(text, i + 1, depth - 1)
    else ScanPdi(text, i + 1, depth)
  }

  function MatchingPdi(text: string, i: nat): Option<nat>
    requires i < |text| && IsIsolateInitiator(text[i])
  {
    ScanPdi(text, i + 1, 1)
  }

  /** How many isolates are open just before position `i`. */
  function Depth(text: string, i: nat): int
    requires i <= |text|
  {
    if i == 0 then 0
    else Depth(text, i - 1) + (if IsIsolateInitiator(text[i - 1]) then 1 else if text[i - 1] == PDI then -1 else 0)
  }

  ghost predicate OneParagraph(s: string) {
    forall i :: 0 <= i < |s| ==> !IsParagraphSeparator(s[i])
  }

  /** Where the isolate of run `k` starts in the text of all runs. */
  function StartOf(values: seq<string>, k: nat): nat
    requires k <= |values|
  {
    if k == 0 then 0 else StartOf(values, k - 1) + |Escape(values[k - 1])| + 2
  }

  lemma RunStandsAt(values: seq<string>, k: nat)
    requires k < |values|
    ensures StartOf(values, k) == |IsolateAll(values[..k])|
    ensures IsolateAll(values) == IsolateAll(values[..k]) + Isolate(values[k]) + IsolateAll(values[k + 1..])
    ensures |Isolate(values[k])| == |Escape(values[k])| + 2
  {
    hide Escape;
    PrefixLength(values, k);
    SplitAt(values, k);
    assert values[k..][0] == values[k] && values[k..][1..] == values[k + 1..];
  }

  lemma IsolateNothing()
    ensures IsolateAll([]) == []
  {
  }

  lemma {:induction false} PrefixLength(values: seq<string>, k: nat)
    requires k <= |values|
    ensures StartOf(values, k) == |IsolateAll(values[..k])|
  {
    hide Escape, Isolate, IsolateAll;
    if k == 0 {
      assert values[..k] == [];
      IsolateNothing();
    } else {
      PrefixLength(values, k - 1);
      assert values[..k] == values[..k - 1] + [values[k - 1]];
      IsolateAllSnoc(values[..k - 1], values[k - 1]);
      IsolateLength(values[k - 1]);
    }
  }

  lemma {:induction false} SplitAt(values: seq<string>, k: nat)
    requires k <= |values|
    ensures IsolateAll(values) == IsolateAll(values[..k]) + IsolateAll(values[k..])
  {
    hide Isolate, IsolateAll;
    if k == 0 {
      assert values[0..] == values && values[..0] == [];
      IsolateNothing();
    } else {
      var v, tail := values[0], values[1..];
      SplitAt(tail, k - 1);
      assert values == [v] + tail && values[..k] == [v] + tail[..k - 1] && values[k..] == tail[k - 1..];
      IsolateAllCons(v, tail);
      IsolateAllCons(v, tail[..k - 1]);
      ConcatAssociates(Isolate(v), IsolateAll(tail[..k - 1]), IsolateAll(tail[k - 1..]));
    }
  }

  lemma IsolateAllCons(v: string, rest: seq<string>)
    ensures IsolateAll([v] + rest) == Isolate(v) + IsolateAll(rest)
  {
    assert ([v] + rest)[1..] == rest;
  }

  lemma ConcatAssociates(a: string, b: string, c: string)
    ensures a + (b + c) == a + b + c
  {
  }

  /** Scanning over plain text stops at its end or at a paragraph separator. */
  lemma {:induction false} ScanOverPlain(text: string, i: nat, end: nat)
    requires i <= end < |text| && text[end] == PDI && Plain(text[i..end])
    ensures ScanPdi(text, i, 1) == if OneParagraph(text[i..end]) then Some(end) else None
    decreases end - i
  {
    if i < end {
      assert text[i] == text[i..end][0] && text[i..end][1..] == text[i + 1..end];
      assert forall j :: i + 1 <= j < end ==> text[j] == text[i..end][j - i];
      ScanOverPlain(text, i + 1, end);
      assert OneParagraph(text[i..end]) <==> !IsParagraphSeparator(text[i]) && OneParagraph(text[i + 1..end]) by {
        assert text[i..end] == [text[i]] + text[i + 1..end];
      }
    }
  }

  /** Where the parts of an isolated value lie inside a longer text. */
  lemma IsolateInContext(a: string, v: string, b: string)
    ensures var text, start, len := a + Isolate(v) + b, |a|, |Escape(v)|;
            && text[start] == FSI && text[start + len + 1] == PDI
            && text[start + 1..start + len + 1] == Escape(v)
  {
    hide Escape;
    var text, start, e := a + Isolate(v) + b, |a|, Escape(v);
    assert text == a + [FSI] + e + [PDI] + b;
    assert text[start] == FSI && text[start + |e| + 1] == PDI;
    assert text[start + 1..start + |e| + 1] == e;
  }

  /** Bidi isolation: the FSI of each run has that run's own PDI as its matching
      PDI exactly when the run holds no paragraph separator; with one, the isolate
      ends with the paragraph, and has no matching PDI at all. */
  lemma RunIsIsolated(values: seq<string>, k: nat)
    requires k < |values|
    ensures var text, start := IsolateAll(values), StartOf(values, k);
            var end := start + |Escape(values[k])| + 1;
            && end < |text| && text[start] == FSI && text[end] == PDI
            && text[start + 1..end] == Escape(values[k]) && Plain(text[start + 1..end])
            && MatchingPdi(text, start) == if OneParagraph(values[k]) then Some(end) else None
  {
    hide Escape, Isolate, StartOf, OneParagraph, ScanPdi, IsolateAll;
    RunStandsAt(values, k);
    IsolateInContext(IsolateAll(values[..k]), values[k], IsolateAll(values[k + 1..]));
    EscapeIsPlain(values[k]);
    EscapeKeepsParagraphs(values[k]);
    var start := StartOf(values, k);
    ScanOverPlain(IsolateAll(values), start + 1, start + |Escape(values[k])| + 1);
  }

  /** The characters of bidi class B, and the three isolate initiators. */
  lemma SeparatorsAre()
    ensures forall c :: IsParagraphSeparator(c) <==>
              c in ['\U{000A}', '\U{000D}', '\U{001C}', '\U{001D}', '\U{001E}', '\U{0085}', '\U{2029}']
    ensures forall c :: IsIsolateInitiator(c) <==> c in ['\U{2066}', '\U{2067}', '\U{2068}']
  {
    forall c: char
      ensures IsParagraphSeparator(c) <==>
                c in ['\U{000A}', '\U{000D}', '\U{001C}', '\U{001D}', '\U{001E}', '\U{0085}', '\U{2029}']
      ensures IsIsolateInitiator(c) <==> c in ['\U{2066}', '\U{2067}', '\U{2068}']
    {
      assert IsParagraphSeparator(c) <==> c as int in [0x0A, 0x0D, 0x1C, 0x1D, 0x1E, 0x85, 0x2029];
      assert IsIsolateInitiator(c) <==> c as int in [0x2066, 0x2067, 0x2068];
    }
  }

  /** A value that is a paragraph separator leaves its FSI without a matching PDI. */
  lemma ParagraphEndsIsolate()
    ensures IsolateAll(["\U{2029}"]) == [FSI, '\U{2029}', PDI]
    ensures MatchingPdi(IsolateAll(["\U{2029}"]), 0) == None
  {
    assert "\U{2029}"[..0] == [];
    assert IsolateAll(["\U{2029}"]) == Isolate("\U{2029}") + IsolateAll([]);
  }

  lemma OneParagraphConcat(a: string, b: string)
    ensures OneParagraph(a + b) <==> OneParagraph(a) && OneParagraph(b)
  {
    assert forall i :: 0 <= i < |a| ==> (a + b)[i] == a[i];
    assert forall i :: 0 <= i < |b| ==> (a + b)[|a| + i] == b[i];
  }

  lemma EscapeCharKeepsParagraph(c: char)
    ensures OneParagraph(EscapeChar(c)) <==> OneParagraph([c])
  {
  }

  lemma {:induction false} EscapeKeepsParagraphs(value: string)
    ensures OneParagraph(Escape(value)) <==> OneParagraph(value)
  {
    hide OneParagraph, EscapeChar;
    if value == [] {
      assert Escape(value) == value;
    } else {
      var n := |value| - 1;
      EscapeKeepsParagraphs(value[..n]);
      EscapeCharKeepsParagraph(value[n]);
      OneParagraphConcat(Escape(value[..n]), EscapeChar(value[n]));
      OneParagraphConcat(value[..n], [value[n]]);
      assert value == value[..n] + [value[n]];
    }
  }

  // ----- The whole text -----

  /** At position `i` at most one isolate is open, none at the end, and a bidi
      control there is an FSI outside an isolate or a PDI inside one. */
  ghost predicate BracketedAt(text: string, i: nat)
    requires i <= |text|
  {
    && 0 <= Depth(text, i) <= 1
    && (i == |text| ==> Depth(text, i) == 0)
    && (i < |text| && IsBidiControl(text[i]) ==> text[i] == if Depth(text, i) == 0 then FSI else PDI)
  }

  lemma {:induction false} BracketedAfter(values: seq<string>, prefix: string, i: nat)
    requires Depth(prefix, |prefix|) == 0
    requires |prefix| <= i <= |prefix + IsolateAll(values)|
    ensures BracketedAt(prefix + IsolateAll(values), i)
    decreases |values|
  {
    hide BracketedAt, Depth, Escape, Isolate, IsBidiControl;
    var text := prefix + IsolateAll(values);
    if values == [] {
      assert text == prefix;
      EndIsBracketed(prefix);
    } else {
      var v, rest := values[0], IsolateAll(values[1..]);
      var next := prefix + Isolate(v);
      assert text == next + rest;
      if i < |next| {
        RunIsBracketed(prefix, v, rest, i);
      } else {
        DepthInsideRun(prefix, v, rest);
        IsolateLength(v);
        DepthOfPrefix(next, rest, |next|);
        BracketedAfter(values[1..], next, i);
      }
    }
  }

  lemma EndIsBracketed(text: string)
    requires Depth(text, |text|) == 0
    ensures BracketedAt(text, |text|)
  {
  }

  lemma RunIsBracketed(prefix: string, v: string, rest: string, i: nat)
    requires Depth(prefix, |prefix|) == 0
    requires |prefix| <= i < |prefix + Isolate(v)|
    ensures BracketedAt(prefix + Isolate(v) + rest, i)
  {
    hide Depth, Escape, Isolate, IsBidiControl;
    DepthInsideRun(prefix, v, rest);
    IsolateLength(v);
  }

  /** The whole text: the bidi controls are the boundaries of its runs and nothing
      else; outside a run only an FSI, inside only the PDI that ends it, never more
      than one isolate open, and nothing left open at the end. */
  lemma TextIsWellBracketed(values: seq<string>, i: nat)
    requires i <= |IsolateAll(values)|
    ensures var text := IsolateAll(values);
            && 0 <= Depth(text, i) <= 1
            && Depth(text, |text|) == 0
            && (i < |text| && IsBidiControl(text[i]) ==> text[i] == if Depth(text, i) == 0 then FSI else PDI)
  {
    var text := IsolateAll(values);
    assert [] + text == text;
    BracketedAfter(values, [], i);
    BracketedAfter(values, [], |text|);
  }

  lemma {:induction false} DepthOfPrefix(a: string, b: string, i: nat)
    requires i <= |a|
    ensures Depth(a + b, i) == Depth(a, i)
  {
    if i > 0 {
      DepthOfPrefix(a, b, i - 1);
    }
  }

  lemma {:induction false} DepthOverPlain(text: string, n: nat, m: nat)
    requires n <= m <= |text| && Depth(text, n) == 1
    requires forall i :: n <= i < m ==> !IsBidiControl(text[i])
    ensures forall i :: n <= i <= m ==> Depth(text, i) == 1
    decreases m - n
  {
    if n < m {
      assert Depth(text, n + 1) == 1;
      DepthOverPlain(text, n + 1, m);
    }
  }

  lemma PlainSlice(text: string, n: nat, m: nat)
    requires n <= m <= |text| && Plain(text[n..m])
    ensures forall i :: n <= i < m ==> !IsBidiControl(text[i])
  {
  }

  lemma IsolateLength(v: string)
    ensures |Isolate(v)| == |Escape(v)| + 2
  {
  }

  lemma DepthInsideRun(prefix: string, v: string, rest: string)
    requires Depth(prefix, |prefix|) == 0
    ensures var text, n := prefix + Isolate(v) + rest, |prefix|;
            && Depth(text, n) == 0 && text[n] == FSI
            && (forall i :: n < i <= n + |Escape(v)| + 1 ==> Depth(text, i) == 1)
            && (forall i :: n < i <= n + |Escape(v)| ==> !IsBidiControl(text[i]))
            && text[n + |Escape(v)| + 1] == PDI
            && Depth(text, n + |Escape(v)| + 2) == 0
  {
    hide Escape, Plain, Isolate;
    var text, n, e := prefix + Isolate(v) + rest, |prefix|, Escape(v);
    assert |Isolate(v)| == |e| + 2 by { IsolateLength(v); }
    IsolateInContext(prefix, v, rest);
    EscapeIsPlain(v);
    assert text == prefix + (Isolate(v) + rest);
    DepthOfPrefix(prefix, Isolate(v) + rest, n);
    assert Depth(text, n + 1) == 1;
    PlainSlice(text, n + 1, n + |e| + 1);
    DepthOverPlain(text, n + 1, n + |e| + 1);
  }

  // ----- Recovering the runs -----

  /** Cuts a text at its outermost isolates: from each FSI to the next PDI. */
  function Split(text: string): Option<seq<string>>
    decreases |text|
  {
    if text == [] then Some([])
    else if text[0] != FSI then None
    else
      var end := FirstPdi(text[1..]);
      if end == |text[1..]| then None
      else
        match Split(text[end + 2..])
        case None => None
        case Some(rest) => Some([text[1..end + 1]] + rest)
  }

  function FirstPdi(s: string): (i: nat)
    ensures i <= |s|
  {
    if s == [] || s[0] == PDI then 0 else 1 + FirstPdi(s[1..])
  }

  lemma {:induction false} FirstPdiAfterPlain(s: string, rest: string)
    requires Plain(s)
    ensures FirstPdi(s + [PDI] + rest) == |s|
  {
    if s == [] {
      assert (s + [PDI] + rest)[0] == PDI;
    } else {
      assert (s + [PDI] + rest)[1..] == s[1..] + [PDI] + rest;
      assert Plain(s[1..]) && s[0] != PDI;
      FirstPdiAfterPlain(s[1..], rest);
    }
  }

  function EscapeAll(values: seq<string>): (es: seq<string>)
    ensures |es| == |values| && forall i :: 0 <= i < |es| ==> es[i] == Escape(values[i])
  {
    if values == [] then [] else [Escape(values[0])] + EscapeAll(values[1..])
  }

  /** Cutting the text of a list of runs at its isolates gives back the list of
      escaped runs: neither can a run run into its neighbours nor can it be split. */
  lemma {:induction false} SplitRecoversRuns(values: seq<string>)
    ensures Split(IsolateAll(values)) == Some(EscapeAll(values))
  {
    hide Escape, Split, Plain;
    if values == [] {
      SplitOfNothing();
    } else {
      SplitRecoversRuns(values[1..]);
      EscapeIsPlain(values[0]);
      SplitCons(Escape(values[0]), IsolateAll(values[1..]));
    }
  }

  lemma SplitOfNothing()
    ensures Split("") == Some([])
  {
  }

  lemma SplitCons(e: string, rest: string)
    requires Plain(e)
    ensures Split([FSI] + e + [PDI] + rest) == match Split(rest) case None => None case Some(es) => Some([e] + es)
  {
    hide Plain;
    var text := [FSI] + e + [PDI] + rest;
    assert text[0] == FSI && text[1..] == e + [PDI] + rest;
    FirstPdiAfterPlain(e, rest);
    assert text[1..|e| + 1] == e && text[|e| + 2..] == rest;
  }

  /** The escaped form does not tell a control from its own visible name. */
  lemma EscapeIsNotInjective()
    ensures Escape([PDI]) == Escape(Visible(PDI)) && [PDI] != Visible(PDI)
  {
    VisibleIsPlain(PDI);
    EscapeIsPlain(Visible(PDI));
    assert [PDI][..0] == [];
    assert Escape([PDI]) == [] + Visible(PDI);
  }
}
