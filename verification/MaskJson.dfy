/**
 How keys are quoted: as JSON strings in ASCII. A character outside ASCII is written as an escape of its
 UTF-16 code units, and a high surrogate escape with a low one behind it is read as one character, so a key
 that itself holds such a pair of surrogates comes back changed.
 */
module MaskJson {
  import opened MaskSyntax
  import opened MaskLexer
  import opened Options

  // ---------------------------------------------------------------------------------------------
  // Surrogates
  // ---------------------------------------------------------------------------------------------

  predicate IsHigh(c: int) { 0xD800 <= c < 0xDC00 }

  predicate IsLow(c: int) { 0xDC00 <= c < 0xE000 }

  function Combined(h: Char, l: Char): Char
    requires IsHigh(h) && IsLow(l)
  {
    0x1_0000 + (h - 0xD800) * 0x400 + (l - 0xDC00)
  }

  function HighOf(c: Char): (h: Char)
    requires c >= 0x1_0000
    ensures IsHigh(h)
  {
    0xD800 + (c - 0x1_0000) / 0x400
  }

  function LowOf(c: Char): (l: Char)
    requires c >= 0x1_0000
    ensures IsLow(l)
    ensures Combined(HighOf(c), l) == c
  {
    0xDC00 + (c - 0x1_0000) % 0x400
  }

  /** A high surrogate with a low one behind it at the start. */
  predicate PairAhead(k: Text) { |k| >= 2 && IsHigh(k[0]) && IsLow(k[1]) }

  predicate HasPair(k: Text) { exists i :: 0 <= i < |k| - 1 && IsHigh(k[i]) && IsLow(k[i + 1]) }

  /** The text with each pair of surrogates combined. */
  function Norm(k: Text): Text {
    if k == [] then []
    else if PairAhead(k) then [Combined(k[0], k[1])] + Norm(k[2..])
    else [k[0]] + Norm(k[1..])
  }

  /** A combined text starts with what the original starts with, unless that was a pair. */
  lemma NormStart(k: Text)
    requires k != []
    ensures Norm(k) != [] && Norm(k)[0] == if PairAhead(k) then Combined(k[0], k[1]) else k[0]
  {}

  lemma {:induction false} NormHasNoPair(k: Text)
    ensures !HasPair(Norm(k))
  {
    if k != [] {
      var rest := if PairAhead(k) then k[2..] else k[1..];
      NormHasNoPair(rest);
      var n := Norm(k);
      assert n[1..] == Norm(rest);
      if rest != [] { NormStart(rest); }
      forall i | 0 <= i < |n| - 1 ensures !(IsHigh(n[i]) && IsLow(n[i + 1])) {
        if i > 0 { assert n[i] == n[1..][i - 1] && n[i + 1] == n[1..][i]; }
      }
    }
  }

  /** Combining leaves exactly the texts without a pair alone. */
  lemma {:induction false} NormIff(k: Text)
    ensures Norm(k) == k <==> !HasPair(k)
  {
    if HasPair(k) {
      if Norm(k) == k { NormHasNoPair(k); }
    } else if k != [] {
      assert !HasPair(k[1..]) by {
        assert forall i :: 0 <= i < |k[1..]| ==> k[1..][i] == k[i + 1];
      }
      assert !PairAhead(k);
      NormIff(k[1..]);
      assert k == [k[0]] + k[1..];
    }
  }

  /** What combining changes has a character beyond the 16 bits of a code unit. */
  lemma {:induction false} NormChanged(k: Text)
    requires Norm(k) != k
    ensures exists c :: c in Norm(k) && c >= 0x1_0000
  {
    if PairAhead(k) {
      assert Norm(k)[0] in Norm(k) && Norm(k)[0] >= 0x1_0000;
    } else {
      assert k == [k[0]] + k[1..];
      NormChanged(k[1..]);
      var c :| c in Norm(k[1..]) && c >= 0x1_0000;
      assert c in Norm(k);
    }
  }

  // ---------------------------------------------------------------------------------------------
  // Writing a string
  // ---------------------------------------------------------------------------------------------

  function HexDigit(n: nat): Char
    requires n < 16
  {
    if n < 10 then 48 + n else 87 + n
  }

  function HexValue(c: Char): Option<nat> {
    if 48 <= c <= 57 then Some(c - 48)
    else if 97 <= c <= 102 then Some(c - 87)
    else if 65 <= c <= 70 then Some(c - 55)
    else None
  }

  /** The escape of a code unit. */
  function UnitEscape(c: Char): (r: Text)
    requires c < 0x1_0000
    ensures |r| == 6 && r[0] == BACKSLASH && r[1] == 117
  {
    var c1 := c / 16;
    var c2 := c1 / 16;
    var c3 := c2 / 16;
    [BACKSLASH, 117, HexDigit(c3), HexDigit(c2 % 16), HexDigit(c1 % 16), HexDigit(c % 16)]
  }

  /** The letter of a short escape. */
  function ShortEscape(c: Char): Option<Char> {
    if c == QUOTE || c == BACKSLASH then Some(c)
    else if c == 8 then Some(98)
    else if c == 12 then Some(102)
    else if c == 10 then Some(110)
    else if c == 13 then Some(114)
    else if c == 9 then Some(116)
    else None
  }

  function Escaped(c: Char): Text {
    if ShortEscape(c).Some? then [BACKSLASH, ShortEscape(c).value]
    else if 32 <= c <= 126 then [c]
    else if c < 0x1_0000 then UnitEscape(c)
    else UnitEscape(HighOf(c)) + UnitEscape(LowOf(c))
  }

  function Body(k: Text): Text { if k == [] then [] else Escaped(k[0]) + Body(k[1..]) }

  function JsonQuote(k: Text): Text { [QUOTE] + (Body(k) + [QUOTE]) }

  // ---------------------------------------------------------------------------------------------
  // Reading a string
  // ---------------------------------------------------------------------------------------------

  /** The code unit whose escape `r` starts with. */
  function UnitAhead(r: Text): Option<Char> {
    if |r| < 6 || r[0] != BACKSLASH || r[1] != 117 then None
    else
      var a, b, c, d := HexValue(r[2]), HexValue(r[3]), HexValue(r[4]), HexValue(r[5]);
      if a.None? || b.None? || c.None? || d.None? then None
      else Some(a.value * 4096 + b.value * 256 + c.value * 16 + d.value)
  }

  function ShortMeaning(c: Char): Option<Char> {
    if c == QUOTE || c == BACKSLASH || c == 47 then Some(c)
    else if c == 98 then Some(8)
    else if c == 102 then Some(12)
    else if c == 110 then Some(10)
    else if c == 114 then Some(13)
    else if c == 116 then Some(9)
    else None
  }

  predicate JsonSpaces(t: Text) { forall c :: c in t ==> c == 32 || c == 9 || c == 10 || c == 13 }

  function Put(c: Char, rest: Option<Text>): Option<Text> { if rest.None? then None else Some([c] + rest.value) }

  /** The rest of a string, behind its opening quote or behind any character of it. */
  function Scan(r: Text): Option<Text>
    decreases |r|
  {
    if r == [] then None
    else if r[0] == QUOTE then if JsonSpaces(r[1..]) then Some([]) else None
    else if r[0] == BACKSLASH then
      if |r| < 2 then None
      else if r[1] == 117 then
        var u := UnitAhead(r);
        if u.None? then None
        else
          var v := UnitAhead(r[6..]);
          if IsHigh(u.value) && v.Some? && IsLow(v.value) then Put(Combined(u.value, v.value), Scan(r[12..]))
          else Put(u.value, Scan(r[6..]))
      else if ShortMeaning(r[1]).None? then None
      else Put(ShortMeaning(r[1]).value, Scan(r[2..]))
    else if r[0] < 32 then None
    else Put(r[0], Scan(r[1..]))
  }

  function JsonUnquote(t: Text): Option<Text> { if t == [] || t[0] != QUOTE then None else Scan(t[1..]) }

  // ---------------------------------------------------------------------------------------------
  // Reading what was written
  // ---------------------------------------------------------------------------------------------

  lemma HexBack(n: nat)
    requires n < 16
    ensures HexValue(HexDigit(n)) == Some(n)
  {}

  lemma UnitBack(c: Char, r: Text)
    requires c < 0x1_0000
    ensures UnitAhead(UnitEscape(c) + r) == Some(c) && (UnitEscape(c) + r)[6..] == r
  {
    hide HexValue, HexDigit;
    var c1 := c / 16;
    var c2 := c1 / 16;
    HexBack(c2 / 16);
    HexBack(c2 % 16);
    HexBack(c1 % 16);
    HexBack(c % 16);
  }

  lemma NoUnitAhead(r: Text)
    requires |r| < 2 || r[0] != BACKSLASH || r[1] != 117
    ensures UnitAhead(r).None?
  {}

  /** What is written for `c` does not start with the escape of a low surrogate, unless `c` is one. */
  lemma NoLowWritten(c: Char, r: Text)
    requires !IsLow(c)
    ensures UnitAhead(Escaped(c) + r).Some? ==> !IsLow(UnitAhead(Escaped(c) + r).value)
  {
    hide UnitAhead, UnitEscape;
    if ShortEscape(c).Some? || 32 <= c <= 126 {
      NoUnitAhead(Escaped(c) + r);
    } else if c < 0x1_0000 {
      UnitBack(c, r);
    } else {
      assert Escaped(c) + r == UnitEscape(HighOf(c)) + (UnitEscape(LowOf(c)) + r);
      UnitBack(HighOf(c), UnitEscape(LowOf(c)) + r);
    }
  }

  /** A written text does not go on with the escape of a low surrogate unless the original does. */
  lemma NoLowAhead(k: Text, r: Text)
    requires k != [] ==> !IsLow(k[0])
    requires r == Body(k) + [QUOTE]
    ensures UnitAhead(r).Some? ==> !IsLow(UnitAhead(r).value)
  {
    hide UnitAhead, Escaped;
    if k == [] {
      NoUnitAhead(r);
    } else {
      var rest := Body(k[1..]) + [QUOTE];
      assert r == Escaped(k[0]) + rest;
      NoLowWritten(k[0], rest);
    }
  }

  lemma ScanUnit(c: Char, r: Text)
    requires c < 0x1_0000 && !(IsHigh(c) && UnitAhead(r).Some? && IsLow(UnitAhead(r).value))
    ensures Scan(UnitEscape(c) + r) == Put(c, Scan(r))
  {
    hide UnitEscape, UnitAhead;
    UnitBack(c, r);
  }

  lemma ScanPair(h: Char, l: Char, r: Text)
    requires IsHigh(h) && IsLow(l)
    ensures Scan(UnitEscape(h) + (UnitEscape(l) + r)) == Put(Combined(h, l), Scan(r))
  {
    hide UnitEscape, UnitAhead;
    var t := UnitEscape(h) + (UnitEscape(l) + r);
    UnitBack(h, UnitEscape(l) + r);
    UnitBack(l, r);
    assert t[12..] == t[6..][6..];
  }

  lemma ScanShort(c: Char, r: Text)
    requires ShortEscape(c).Some?
    ensures Scan([BACKSLASH, ShortEscape(c).value] + r) == Put(c, Scan(r))
  {
    hide UnitAhead;
    assert ([BACKSLASH, ShortEscape(c).value] + r)[2..] == r;
  }

  lemma ScanPlain(c: Char, r: Text)
    requires ShortEscape(c).None? && 32 <= c <= 126
    ensures Scan([c] + r) == Put(c, Scan(r))
  {
    hide UnitAhead;
    assert ([c] + r)[1..] == r;
  }

  /** Reading one written character. */
  lemma ScanOne(c: Char, r: Text)
    requires IsHigh(c) ==> !(UnitAhead(r).Some? && IsLow(UnitAhead(r).value))
    ensures Scan(Escaped(c) + r) == Put(c, Scan(r))
  {
    hide Scan, UnitAhead, UnitEscape, ShortEscape, Put;
    if ShortEscape(c).Some? {
      ScanShort(c, r);
    } else if 32 <= c <= 126 {
      ScanPlain(c, r);
    } else if c < 0x1_0000 {
      ScanUnit(c, r);
    } else {
      ScanPair(HighOf(c), LowOf(c), r);
      assert Escaped(c) + r == UnitEscape(HighOf(c)) + (UnitEscape(LowOf(c)) + r);
    }
  }

  lemma {:induction false} ScanBody(k: Text)
    ensures Scan(Body(k) + [QUOTE]) == Some(Norm(k))
    decreases |k|
  {
    hide Scan, Escaped;
    if k == [] {
      ScanEnd();
      assert Body(k) + [QUOTE] == [QUOTE];
    } else if PairAhead(k) {
      var rest := Body(k[2..]) + [QUOTE];
      ScanBody(k[2..]);
      assert k[1..][1..] == k[2..];
      SurrogateEscaped(k[0]);
      SurrogateEscaped(k[1]);
      assert Body(k) + [QUOTE] == UnitEscape(k[0]) + (UnitEscape(k[1]) + rest);
      ScanPair(k[0], k[1], rest);
    } else {
      var rest := Body(k[1..]) + [QUOTE];
      ScanBody(k[1..]);
      assert Body(k) + [QUOTE] == Escaped(k[0]) + rest;
      if IsHigh(k[0]) { NoLowAhead(k[1..], rest); }
      ScanOne(k[0], rest);
    }
  }

  lemma ScanEnd()
    ensures Scan([QUOTE]) == Some([])
  {}

  lemma SurrogateEscaped(c: Char)
    requires IsHigh(c) || IsLow(c)
    ensures Escaped(c) == UnitEscape(c)
  {}

  /** A quoted key unquotes to the key with its pairs of surrogates combined, and so to itself iff it has none. */
  lemma UnquoteOfQuote(k: Text)
    ensures JsonUnquote(JsonQuote(k)) == Some(Norm(k))
    ensures JsonUnquote(JsonQuote(k)) == Some(k) <==> !HasPair(k)
  {
    hide Scan, Body;
    ScanBody(k);
    NormIff(k);
  }

  /** The surrogates of one character, as two characters of a key, come back as that character. */
  lemma PairComesBackCombined(c: Char)
    requires c >= 0x1_0000
    ensures JsonUnquote(JsonQuote([HighOf(c), LowOf(c)])) == Some([c])
  {
    hide JsonQuote, JsonUnquote;
    var k := [HighOf(c), LowOf(c)];
    UnquoteOfQuote(k);
    assert k[2..] == [] && Norm(k[2..]) == [];
    assert PairAhead(k) && Norm(k) == [Combined(k[0], k[1])] + Norm(k[2..]) == [c];
  }

  lemma QuotedStep(c: Char, r: Text)
    ensures QuotedRest(Escaped(c) + r) <==> QuotedRest(r)
  {
    if ShortEscape(c).Some? {
      assert (Escaped(c) + r)[2..] == r;
    } else if 32 <= c <= 126 {
      assert (Escaped(c) + r)[1..] == r;
    } else if c < 0x1_0000 {
      QuotedUnit(c, r);
    } else {
      QuotedUnit(HighOf(c), UnitEscape(LowOf(c)) + r);
      QuotedUnit(LowOf(c), r);
      assert Escaped(c) + r == UnitEscape(HighOf(c)) + (UnitEscape(LowOf(c)) + r);
    }
  }

  /** An escape and the four digits behind it are characters of a quoted key. */
  lemma QuotedUnit(c: Char, r: Text)
    requires c < 0x1_0000
    ensures QuotedRest(UnitEscape(c) + r) <==> QuotedRest(r)
  {
    var t := UnitEscape(c) + r;
    assert t[2..][1..] == t[3..] && t[3..][1..] == t[4..] && t[4..][1..] == t[5..] && t[5..][1..] == t[6..] == r;
    assert QuotedRest(t) <==> QuotedRest(t[2..]);
    assert QuotedRest(t[2..]) <==> QuotedRest(t[3..]);
    assert QuotedRest(t[3..]) <==> QuotedRest(t[4..]);
    assert QuotedRest(t[4..]) <==> QuotedRest(t[5..]);
    assert QuotedRest(t[5..]) <==> QuotedRest(t[6..]);
  }

  lemma {:induction false} BodyIsQuoted(k: Text)
    ensures QuotedRest(Body(k) + [QUOTE])
  {
    hide Escaped;
    if k == [] {
      assert Body(k) + [QUOTE] == [QUOTE];
    } else {
      BodyIsQuoted(k[1..]);
      QuotedStep(k[0], Body(k[1..]) + [QUOTE]);
      assert Body(k) + [QUOTE] == Escaped(k[0]) + (Body(k[1..]) + [QUOTE]);
    }
  }
}
