/**
 * Colour strings: Python's `int(text, 16)` on short strings, the "#rrggbb" decoding of
 * the drawing window's `get_brush_color`, and the diary's `_darken_hex`.
 */
module HexColor {
  import opened Wrappers
  import opened Raster

  predicate IsHexDigit(c: char) {
    '0' <= c <= '9' || 'a' <= c <= 'f' || 'A' <= c <= 'F'
  }

  predicate AllHexDigits(s: string) {
    forall i :: 0 <= i < |s| ==> IsHexDigit(s[i])
  }

  function DigitValue(c: char): (v: nat)
    requires IsHexDigit(c)
    ensures v < 16
  {
    if '0' <= c <= '9' then c as int - '0' as int
    else if 'a' <= c <= 'f' then c as int - 'a' as int + 10
    else c as int - 'A' as int + 10
  }

  /** The number that the hexadecimal digits `s` denote, most significant first. */
  function HexValue(s: string): nat
    requires AllHexDigits(s)
  {
    if s == [] then 0 else HexValue(s[..|s| - 1]) * 16 + DigitValue(s[|s| - 1])
  }

  /** The ASCII white space that `int()` strips around its digits: the space and the
      controls tab to carriage return (C's `isspace`). This is narrower than `str.isspace`,
      which also counts the separators 0x1c to 0x1f. */
  predicate IsSpace(c: char) {
    c == ' ' || 0x09 <= c as int <= 0x0d
  }

  /** `s.lstrip()`; `StripStartFacts` states what it keeps and drops. */
  function StripStart(s: string): (r: string)
    ensures |r| <= |s|
  {
    if s != [] && IsSpace(s[0]) then StripStart(s[1..]) else s
  }

  /** `s.rstrip()`; `StripEndFacts` states what it keeps and drops. */
  function StripEnd(s: string): (r: string)
    ensures |r| <= |s|
  {
    if s != [] && IsSpace(s[|s| - 1]) then StripEnd(s[..|s| - 1]) else s
  }

  /** Stripping at the start keeps a suffix that does not start with white space and
      drops only white space. */
  lemma {:induction false} StripStartFacts(s: string)
    ensures StripStart(s) == s[|s| - |StripStart(s)|..]
    ensures StripStart(s) != [] ==> !IsSpace(StripStart(s)[0])
    ensures forall i :: 0 <= i < |s| - |StripStart(s)| ==> IsSpace(s[i])
  {
    if s != [] && IsSpace(s[0]) {
      StripStartFacts(s[1..]);
    }
  }

  /** Stripping at the end keeps a prefix that does not end with white space and drops
      only white space. */
  lemma {:induction false} StripEndFacts(s: string)
    ensures StripEnd(s) == s[..|StripEnd(s)|]
    ensures StripEnd(s) != [] ==> !IsSpace(StripEnd(s)[|StripEnd(s)| - 1])
    ensures forall i :: |StripEnd(s)| <= i < |s| ==> IsSpace(s[i])
  {
    if s != [] && IsSpace(s[|s| - 1]) {
      StripEndFacts(s[..|s| - 1]);
    }
  }

  /** The characters that can occur in a string `int(s, 16)` accepts. */
  predicate MayOccurInHex(c: char) {
    IsHexDigit(c) || IsSpace(c) || c == '+' || c == '-'
  }

  /** `int(s, 16)`: surrounding white space is ignored, a sign may precede the digits;
      `None` stands for the `ValueError` it raises on anything else. */
  function ParseInt16(s: string): (r: Option<int>)
    ensures s != [] && AllHexDigits(s) ==> r == Some(HexValue(s))
    ensures s == [] ==> r == None
    ensures r.Some? ==> forall i :: 0 <= i < |s| ==> MayOccurInHex(s[i])
  {
    assert s != [] && AllHexDigits(s) ==> StripEnd(StripStart(s)) == s by {
      if s != [] && AllHexDigits(s) { StripKeepsDigits(s); }
    }
    var r := ParseSigned(StripEnd(StripStart(s)));
    if r.Some? then
      StripEndKeepsOthers(StripStart(s));
      StripStartKeepsOthers(s);
      r
    else
      r
  }

  /** The stripped text as `int(s, 16)` reads it: an optional sign, then one or more
      hexadecimal digits; a leading '-' negates. */
  function ParseSigned(t: string): (r: Option<int>)
    ensures t != [] && AllHexDigits(t) ==> r == Some(HexValue(t))
    ensures |t| >= 2 && t[0] == '-' && AllHexDigits(t[1..]) ==> r == Some(-(HexValue(t[1..]) as int))
    ensures |t| >= 2 && t[0] == '+' && AllHexDigits(t[1..]) ==> r == Some(HexValue(t[1..]))
    ensures r.Some? ==> forall j :: 0 <= j < |t| ==> IsHexDigit(t[j]) || (j == 0 && (t[0] == '+' || t[0] == '-'))
    ensures r.Some? ==> forall j :: 0 <= j < |t| ==> MayOccurInHex(t[j])
  {
    if t == [] then None
    else
      var digits := if t[0] == '-' || t[0] == '+' then t[1..] else t;
      if digits != [] && AllHexDigits(digits) then
        SignedDigitsMayOccur(t);
        Some(if t[0] == '-' then -(HexValue(digits) as int) else HexValue(digits))
      else
        None
  }

  /** An optional sign followed by hexadecimal digits holds no other character. */
  lemma SignedDigitsMayOccur(t: string)
    requires t != [] && AllHexDigits(if t[0] == '-' || t[0] == '+' then t[1..] else t)
    ensures forall j :: 0 <= j < |t| ==> IsHexDigit(t[j]) || (j == 0 && (t[0] == '+' || t[0] == '-'))
    ensures forall j :: 0 <= j < |t| ==> MayOccurInHex(t[j])
  {
    if t[0] == '-' || t[0] == '+' {
      forall j | 1 <= j < |t| ensures IsHexDigit(t[j]) {
        assert t[1..][j - 1] == t[j];
      }
    }
  }

  /** Stripping removes only white space, so a character of `s` that cannot occur in a
      hexadecimal literal survives into the stripped string. */
  lemma StripStartKeepsOthers(s: string)
    requires forall j :: 0 <= j < |StripStart(s)| ==> MayOccurInHex(StripStart(s)[j])
    ensures forall i :: 0 <= i < |s| ==> MayOccurInHex(s[i])
  {
    var u := StripStart(s);
    StripStartFacts(s);
    forall i | |s| - |u| <= i < |s| ensures MayOccurInHex(s[i]) {
      assert s[i] == u[i - (|s| - |u|)];
    }
  }

  lemma StripEndKeepsOthers(s: string)
    requires forall j :: 0 <= j < |StripEnd(s)| ==> MayOccurInHex(StripEnd(s)[j])
    ensures forall i :: 0 <= i < |s| ==> MayOccurInHex(s[i])
  {
    var t := StripEnd(s);
    StripEndFacts(s);
    forall i | 0 <= i < |t| ensures MayOccurInHex(s[i]) {
      assert s[i] == t[i];
    }
  }

  lemma StripKeepsDigits(s: string)
    requires s != [] && AllHexDigits(s)
    ensures StripEnd(StripStart(s)) == s
  {
    assert IsHexDigit(s[0]) && !IsSpace(s[0]);
    assert StripStart(s) == s;
    assert IsHexDigit(s[|s| - 1]) && !IsSpace(s[|s| - 1]);
  }

  /** Python's slice `s[i:j]`, which clamps both bounds to the length. */
  function Slice(s: string, i: nat, j: nat): (r: string)
    requires i <= j
    ensures |r| == (if j <= |s| then j - i else if i <= |s| then |s| - i else 0)
    ensures j <= |s| ==> r == s[i..j]
    ensures forall k :: i <= k < j && k < |s| ==> k - i < |r| && r[k - i] == s[k]
  {
    var lo := if i < |s| then i else |s|;
    var hi := if j < |s| then j else |s|;
    s[lo..hi]
  }

  /** What `int(s, 16)` gives for a string of at most two characters, case by case:
      two digits; one digit alone, or beside white space, or after a sign; nothing else. */
  function ShortInt16(s: string): Option<int>
    requires |s| <= 2
  {
    if |s| == 0 then None
    else if |s| == 1 then (if IsHexDigit(s[0]) then Some(DigitValue(s[0]) as int) else None)
    else if IsHexDigit(s[0]) && IsHexDigit(s[1]) then Some(16 * DigitValue(s[0]) + DigitValue(s[1]))
    else if IsHexDigit(s[0]) && IsSpace(s[1]) then Some(DigitValue(s[0]) as int)
    else if (IsSpace(s[0]) || s[0] == '+') && IsHexDigit(s[1]) then Some(DigitValue(s[1]) as int)
    else if s[0] == '-' && IsHexDigit(s[1]) then Some(-(DigitValue(s[1]) as int))
    else None
  }

  /** On the slices of at most two characters that the program takes, `ParseInt16` is
      exactly the case table `ShortInt16`. */
  lemma ParseInt16OfShort(s: string)
    requires |s| <= 2
    ensures ParseInt16(s) == ShortInt16(s)
  {
    ParseInt16IsStrippedSigned(s);
    StrippedShort(s);
  }

  lemma ParseInt16IsStrippedSigned(s: string)
    ensures ParseInt16(s) == ParseSigned(StripEnd(StripStart(s)))
  {
  }

  lemma StrippedShort(s: string)
    requires |s| <= 2
    ensures ParseSigned(StripEnd(StripStart(s))) == ShortInt16(s)
  {
    if |s| == 1 {
      StripOne(s);
      ParseSignedOne(s[0]);
      assert s == [s[0]];
    } else if |s| == 2 {
      StripTwo(s);
      if IsSpace(s[0]) && !IsSpace(s[1]) {
        ParseSignedOne(s[1]);
      } else if !IsSpace(s[0]) && IsSpace(s[1]) {
        ParseSignedOne(s[0]);
      } else if !IsSpace(s[0]) && !IsSpace(s[1]) {
        ParseSignedTwo(s);
      }
    }
  }

  lemma ParseSignedOne(c: char)
    ensures ParseSigned([c]) == if IsHexDigit(c) then Some(DigitValue(c) as int) else None
  {
    if IsHexDigit(c) {
      HexValueOne(c);
    } else if c == '-' || c == '+' {
      assert [c][1..] == [];
    }
  }

  lemma ParseSignedTwo(s: string)
    requires |s| == 2 && !IsSpace(s[0]) && !IsSpace(s[1])
    ensures ParseSigned(s) == ShortInt16(s)
  {
    if s[0] == '-' || s[0] == '+' {
      assert s[1..] == [s[1]];
      if IsHexDigit(s[1]) {
        HexValueOne(s[1]);
      }
    } else if IsHexDigit(s[0]) && IsHexDigit(s[1]) {
      HexValueTwo(s);
    } else {
      assert !AllHexDigits(s);
    }
  }

  lemma HexValueOne(c: char)
    requires IsHexDigit(c)
    ensures AllHexDigits([c]) && HexValue([c]) == DigitValue(c)
  {
    assert [c][..0] == [];
  }

  lemma HexValueTwo(s: string)
    requires |s| == 2 && IsHexDigit(s[0]) && IsHexDigit(s[1])
    ensures AllHexDigits(s) && HexValue(s) == 16 * DigitValue(s[0]) + DigitValue(s[1])
  {
    assert s[..1] == [s[0]];
    HexValueOne(s[0]);
  }

  lemma StripOne(s: string)
    requires |s| == 1
    ensures StripEnd(StripStart(s)) == if IsSpace(s[0]) then [] else s
  {
    StripStartOne(s);
    if !IsSpace(s[0]) {
      StripEndOne(s);
    }
  }

  lemma StripStartOne(s: string)
    requires |s| == 1
    ensures StripStart(s) == if IsSpace(s[0]) then [] else s
  {
    if IsSpace(s[0]) {
      assert StripStart(s) == StripStart(s[1..]);
      assert s[1..] == [];
    }
  }

  lemma StripEndOne(s: string)
    requires |s| == 1
    ensures StripEnd(s) == if IsSpace(s[0]) then [] else s
  {
    if IsSpace(s[0]) {
      assert StripEnd(s) == StripEnd(s[..0]);
      assert s[..0] == [];
    }
  }

  lemma StripTwo(s: string)
    requires |s| == 2
    ensures StripEnd(StripStart(s)) ==
            if IsSpace(s[0]) && IsSpace(s[1]) then []
            else if IsSpace(s[0]) then [s[1]]
            else if IsSpace(s[1]) then [s[0]]
            else s
  {
    StripStartTwo(s);
    if IsSpace(s[0]) {
      StripOne(s[1..]);
      assert s[1..] == [s[1]];
    } else {
      StripEndTwo(s);
    }
  }

  lemma StripStartTwo(s: string)
    requires |s| == 2
    ensures StripStart(s) == if IsSpace(s[0]) then StripStart(s[1..]) else s
  {
  }

  lemma StripEndTwo(s: string)
    requires |s| == 2
    ensures StripEnd(s) == if IsSpace(s[1]) then StripEnd(s[..1]) else s
  {
    if IsSpace(s[1]) {
      assert s[..|s| - 1] == s[..1];
    }
  }

  /** A digit after a sign or beside white space parses to its signed value. */
  lemma SignedAndPaddedPairs(d: char, sp: char)
    requires IsHexDigit(d) && IsSpace(sp)
    ensures ParseInt16(['-', d]) == Some(-(DigitValue(d) as int))
    ensures ParseInt16(['+', d]) == Some(DigitValue(d) as int)
    ensures ParseInt16([sp, d]) == Some(DigitValue(d) as int)
    ensures ParseInt16([d, sp]) == Some(DigitValue(d) as int)
  {
    ShortSignedAndPadded(d, sp);
    ParseInt16OfShort(['-', d]);
    ParseInt16OfShort(['+', d]);
    ParseInt16OfShort([sp, d]);
    ParseInt16OfShort([d, sp]);
  }

  lemma ShortSignedAndPadded(d: char, sp: char)
    requires IsHexDigit(d) && IsSpace(sp)
    ensures ShortInt16(['-', d]) == Some(-(DigitValue(d) as int))
    ensures ShortInt16(['+', d]) == Some(DigitValue(d) as int)
    ensures ShortInt16([sp, d]) == Some(DigitValue(d) as int)
    ensures ShortInt16([d, sp]) == Some(DigitValue(d) as int)
  {
  }

  /** Pairs made only of characters that may occur in a hexadecimal literal, but not in
      its order, raise: a sign after a digit, two signs, a sign with no digit, or only
      white space. */
  lemma MalformedPairsRaise(d: char, sp: char, sign: char, sign2: char)
    requires IsHexDigit(d) && IsSpace(sp) && (sign == '-' || sign == '+') && (sign2 == '-' || sign2 == '+')
    ensures ParseInt16([d, sign]).None?
    ensures ParseInt16([sign, sign2]).None?
    ensures ParseInt16([sign, sp]).None? && ParseInt16([sp, sign]).None?
    ensures ParseInt16([sp, sp]).None? && ParseInt16([sign]).None?
  {
    ShortMalformed(d, sp, sign, sign2);
    ParseInt16OfShort([d, sign]);
    ParseInt16OfShort([sign, sign2]);
    ParseInt16OfShort([sign, sp]);
    ParseInt16OfShort([sp, sign]);
    ParseInt16OfShort([sp, sp]);
    ParseInt16OfShort([sign]);
  }

  lemma ShortMalformed(d: char, sp: char, sign: char, sign2: char)
    requires IsHexDigit(d) && IsSpace(sp) && (sign == '-' || sign == '+') && (sign2 == '-' || sign2 == '+')
    ensures ShortInt16([d, sign]).None?
    ensures ShortInt16([sign, sign2]).None?
    ensures ShortInt16([sign, sp]).None? && ShortInt16([sp, sign]).None?
    ensures ShortInt16([sp, sp]).None? && ShortInt16([sign]).None?
  {
  }

  /** The characters that may stand beside a single digit: before it, a sign or the
      ASCII white space space and tab to carriage return; after it, that white space only.
      Any other character, such as the separators 0x1c to 0x1f, raises. */
  lemma DigitPadding(c: char, d: char)
    requires IsHexDigit(d) && !IsHexDigit(c)
    ensures ParseInt16([c, d]).Some? <==> (c == ' ' || 0x09 <= c as int <= 0x0d || c == '+' || c == '-')
    ensures ParseInt16([d, c]).Some? <==> (c == ' ' || 0x09 <= c as int <= 0x0d)
  {
    ParseInt16OfShort([c, d]);
    ParseInt16OfShort([d, c]);
  }

  datatype Channels = Channels(r: int, g: int, b: int)

  /** `int(c[1:3], 16)`, `int(c[3:5], 16)` and `int(c[5:7], 16)`; `None` when one raises.
      The slices have at most two characters, so each is read with the case table
      `ShortInt16`, which is `ParseInt16` there (`ParseChannelsIsInt16`). */
  function ParseChannels(c: string): (r: Option<Channels>)
    ensures IsHexColor(c) ==> r == Some(Channels(HexValue(c[1..3]), HexValue(c[3..5]), HexValue(c[5..7])))
    ensures forall i :: 1 <= i < 7 && i < |c| && !MayOccurInHex(c[i]) ==> r.None?
    ensures |c| <= 5 ==> r.None?
  {
    ShortOfHexColor(c);
    LastSliceOfShortColor(c);
    ShortWithStrayCharRaises(c, 1, 3);
    ShortWithStrayCharRaises(c, 3, 5);
    ShortWithStrayCharRaises(c, 5, 7);
    var red := ShortInt16(Slice(c, 1, 3));
    var green := ShortInt16(Slice(c, 3, 5));
    var blue := ShortInt16(Slice(c, 5, 7));
    if red.Some? && green.Some? && blue.Some? then Some(Channels(red.value, green.value, blue.value))
    else None
  }

  /** Decoding the channels is `int(s, 16)` on each of the three slices: the colour decodes
      exactly when all three parse, and the channels are their values. */
  lemma ParseChannelsIsInt16(c: string)
    ensures ParseChannels(c).Some? <==>
              ParseInt16(Slice(c, 1, 3)).Some? && ParseInt16(Slice(c, 3, 5)).Some? && ParseInt16(Slice(c, 5, 7)).Some?
    ensures ParseChannels(c).Some? ==>
              ParseChannels(c).value ==
              Channels(ParseInt16(Slice(c, 1, 3)).value, ParseInt16(Slice(c, 3, 5)).value, ParseInt16(Slice(c, 5, 7)).value)
  {
    ParseInt16OfShort(Slice(c, 1, 3));
    ParseInt16OfShort(Slice(c, 3, 5));
    ParseInt16OfShort(Slice(c, 5, 7));
  }

  lemma ShortOfHexPair(s: string)
    requires |s| == 2 && AllHexDigits(s)
    ensures ShortInt16(s) == Some(HexValue(s) as int)
  {
    HexValueTwo(s);
  }

  lemma ShortOfHexColor(c: string)
    ensures IsHexColor(c) ==>
              && ShortInt16(Slice(c, 1, 3)) == Some(HexValue(c[1..3]) as int)
              && ShortInt16(Slice(c, 3, 5)) == Some(HexValue(c[3..5]) as int)
              && ShortInt16(Slice(c, 5, 7)) == Some(HexValue(c[5..7]) as int)
  {
    if IsHexColor(c) {
      ShortOfHexPair(c[1..3]);
      ShortOfHexPair(c[3..5]);
      ShortOfHexPair(c[5..7]);
    }
  }

  /** The last slice of a string of at most five characters is empty, so it raises. */
  lemma LastSliceOfShortColor(c: string)
    ensures |c| <= 5 ==> ShortInt16(Slice(c, 5, 7)).None?
  {
    if |c| <= 5 {
      assert Slice(c, 5, 7) == [];
    }
  }

  /** A slice holding a character `int(s, 16)` never accepts raises. */
  lemma ShortWithStrayCharRaises(c: string, lo: nat, hi: nat)
    requires lo <= hi <= lo + 2
    ensures forall i :: lo <= i < hi && i < |c| && !MayOccurInHex(c[i]) ==> ShortInt16(Slice(c, lo, hi)).None?
  {
    forall i | lo <= i < hi && i < |c| && !MayOccurInHex(c[i])
      ensures ShortInt16(Slice(c, lo, hi)).None?
    {
      var t := Slice(c, lo, hi);
      assert !MayOccurInHex(t[i - lo]);
    }
  }

  /** "#" followed by six hexadecimal digits of either case. */
  predicate IsHexColor(c: string) {
    |c| == 7 && c[0] == '#' && AllHexDigits(c[1..3]) && AllHexDigits(c[3..5]) && AllHexDigits(c[5..7])
  }

  function LowerHexDigit(v: nat): (c: char)
    requires v < 16
    ensures IsHexDigit(c) && DigitValue(c) == v && !('A' <= c <= 'F')
  {
    if v < 10 then (v + '0' as int) as char else (v - 10 + 'a' as int) as char
  }

  /** `f"{v:02x}"` for a channel value. */
  function HexByte(v: int): (s: string)
    requires 0 <= v < 256
    ensures |s| == 2 && AllHexDigits(s) && IsLowerCase(s) && HexValue(s) == v
  {
    var s := [LowerHexDigit(v / 16), LowerHexDigit(v % 16)];
    assert s[..1] == [s[0]] && [s[0]][..0] == [];
    assert HexValue(s[..1]) == v / 16;
    assert HexValue(s) == (v / 16) * 16 + v % 16;
    s
  }

  predicate IsLowerCase(c: string) {
    forall i :: 0 <= i < |c| ==> !('A' <= c[i] <= 'F')
  }

  /** `f"#{r:02x}{g:02x}{b:02x}"`. */
  function FormatColor(ch: Channels): (c: string)
    requires 0 <= ch.r < 256 && 0 <= ch.g < 256 && 0 <= ch.b < 256
    ensures IsHexColor(c) && IsLowerCase(c)
  {
    "#" + HexByte(ch.r) + HexByte(ch.g) + HexByte(ch.b)
  }

  /** A well-formed colour string decodes to the values of its three digit pairs. */
  lemma {:induction false} ParseHexColor(c: string)
    requires IsHexColor(c)
    ensures ParseChannels(c) == Some(Channels(HexValue(c[1..3]), HexValue(c[3..5]), HexValue(c[5..7])))
  {
    assert Slice(c, 1, 3) == c[1..3] && AllHexDigits(c[1..3]);
    assert Slice(c, 3, 5) == c[3..5] && AllHexDigits(c[3..5]);
    assert Slice(c, 5, 7) == c[5..7] && AllHexDigits(c[5..7]);
  }

  /** Formatting three channels and decoding the string gives the channels back. */
  lemma {:induction false} FormatColorRoundTrip(ch: Channels)
    requires 0 <= ch.r < 256 && 0 <= ch.g < 256 && 0 <= ch.b < 256
    ensures ParseChannels(FormatColor(ch)) == Some(ch)
  {
    var c := FormatColor(ch);
    var r, g, b := HexByte(ch.r), HexByte(ch.g), HexByte(ch.b);
    assert c == "#" + r + g + b;
    assert Slice(c, 1, 3) == r;
    assert Slice(c, 3, 5) == g;
    assert Slice(c, 5, 7) == b;
  }

  /** `get_brush_color`: a colour starting with "#" is decoded (with no check of its
      length), anything else, such as the initial "black", reads as black; the alpha is
      the opacity. `None` stands for the `ValueError` of a bad digit pair. */
  function BrushColor(color: string, opacity: int): (r: Option<Rgba>)
    ensures r.Some? ==> r.value.a == opacity
    ensures (color == [] || color[0] != '#') ==> r == Some(Rgba(0, 0, 0, opacity))
    ensures color != [] && color[0] == '#' ==> (r.Some? <==> ParseChannels(color).Some?)
    ensures color != [] && color[0] == '#' && |color| <= 5 ==> r == None
  {
    if color != [] && color[0] == '#' then
      match ParseChannels(color)
      case Some(ch) => Some(Rgba(ch.r, ch.g, ch.b, opacity))
      case None => None
    else
      Some(Rgba(0, 0, 0, opacity))
  }

  /** A well-formed colour string is decoded digit pair by digit pair. */
  lemma BrushColorOfHexColor(color: string, opacity: int)
    requires IsHexColor(color)
    ensures BrushColor(color, opacity) ==
            Some(Rgba(HexValue(color[1..3]), HexValue(color[3..5]), HexValue(color[5..7]), opacity))
  {
    ParseHexColor(color);
  }

  /** A "#" colour with a character `int(s, 16)` never accepts among its six digit
      positions raises `ValueError` in `get_brush_color`. */
  lemma BrushColorRejectsNonHex(color: string, opacity: int, i: nat)
    requires color != [] && color[0] == '#'
    requires 1 <= i < 7 && i < |color| && !MayOccurInHex(color[i])
    ensures BrushColor(color, opacity) == None
  {
  }

  /** Without a length check, a six-character "#" colour of hex digits is decoded with a
      one-digit blue channel. */
  lemma SixCharChannels(c: string)
    requires |c| == 6 && forall k :: 1 <= k < 6 ==> IsHexDigit(c[k])
    ensures ParseChannels(c) ==
            Some(Channels(16 * DigitValue(c[1]) + DigitValue(c[2]), 16 * DigitValue(c[3]) + DigitValue(c[4]),
                          DigitValue(c[5])))
  {
    SixCharSlices(c);
  }

  lemma SixCharSlices(c: string)
    requires |c| == 6 && forall k :: 1 <= k < 6 ==> IsHexDigit(c[k])
    ensures ShortInt16(Slice(c, 1, 3)) == Some(16 * DigitValue(c[1]) + DigitValue(c[2]))
    ensures ShortInt16(Slice(c, 3, 5)) == Some(16 * DigitValue(c[3]) + DigitValue(c[4]))
    ensures ShortInt16(Slice(c, 5, 7)) == Some(DigitValue(c[5]) as int)
  {
    assert Slice(c, 1, 3) == [c[1], c[2]] && Slice(c, 3, 5) == [c[3], c[4]] && Slice(c, 5, 7) == [c[5]];
  }

  /** A colour picked from the chooser ("#rrggbb") is drawn with exactly those channels. */
  lemma ChosenColorIsDrawn(ch: Channels, opacity: int)
    requires 0 <= ch.r < 256 && 0 <= ch.g < 256 && 0 <= ch.b < 256
    ensures BrushColor(FormatColor(ch), opacity) == Some(Rgba(ch.r, ch.g, ch.b, opacity))
  {
    FormatColorRoundTrip(ch);
  }

  /** `int(v * amount)` for the rational `amount == num / den`: truncation toward zero. */
  function Scale(v: int, num: int, den: int): (r: int)
    requires den > 0
    ensures 0 <= v && 0 <= num <= den ==> 0 <= r <= v
    ensures num == den ==> r == v
  {
    ScaleBounds(v, num, den);
    var p := v * num;
    if p >= 0 then p / den else -((-p) / den)
  }

  lemma ScaleBounds(v: int, num: int, den: int)
    requires den > 0
    ensures 0 <= v && 0 <= num <= den ==> 0 <= (v * num) / den <= v
    ensures num == den && v * num >= 0 ==> (v * num) / den == v
    ensures num == den && v * num < 0 ==> -((-(v * num)) / den) == v
  {
    if 0 <= v && 0 <= num <= den {
      MulLeftMonotonic(v, num, den);
      DivBelow(v * num, v, den);
    }
    if num == den {
      MulDiv(v, den);
      MulDiv(-v, den);
      assert -(v * num) == (-v) * den;
    }
  }

  lemma MulDiv(a: int, den: int)
    requires den > 0
    ensures (a * den) / den == a
  {
    var q, r := (a * den) / den, (a * den) % den;
    assert a * den == q * den + r && 0 <= r < den;
    assert (a - q) * den == r;
    if a - q >= 1 {
      MulLeftMonotonic(den, 1, a - q);
    } else if a - q <= -1 {
      MulLeftMonotonic(den, 1, q - a);
    }
  }

  lemma MulLeftMonotonic(v: int, a: int, b: int)
    requires 0 <= v && 0 <= a <= b
    ensures 0 <= v * a <= v * b
  {
    assert v * b == v * a + v * (b - a);
  }

  lemma DivBelow(p: int, v: int, den: int)
    requires den > 0 && 0 <= p <= v * den
    ensures 0 <= p / den <= v
  {
  }

  /** `int(v * amount)` is the whole part of `v * amount`: the multiple of `1 / den` nearest
      to it on the side of zero. */
  lemma ScaleTruncatesTowardZero(v: int, num: int, den: int)
    requires den > 0
    ensures var r := Scale(v, num, den);
            && (0 <= v * num ==> 0 <= r * den <= v * num < (r + 1) * den)
            && (v * num < 0 ==> (r - 1) * den < v * num <= r * den <= 0)
  {
    TruncatedQuotient(v * num, den);
  }

  lemma TruncatedQuotient(p: int, den: int)
    requires den > 0
    ensures var r := if p >= 0 then p / den else -((-p) / den);
            && (0 <= p ==> 0 <= r * den <= p < (r + 1) * den)
            && (p < 0 ==> (r - 1) * den < p <= r * den <= 0)
  {
    if p >= 0 {
      var q := p / den;
      DivBounds(p, den);
      assert (q + 1) * den == q * den + den;
    } else {
      var q := (-p) / den;
      DivBounds(-p, den);
      assert (-q) * den == -(q * den);
      assert (-q - 1) * den == -(q * den) - den;
    }
  }

  lemma DivBounds(m: int, den: int)
    requires m >= 0 && den > 0
    ensures 0 <= (m / den) * den <= m < (m / den) * den + den
  {
    var q := m / den;
    assert m == den * q + m % den;
    assert q >= 0;
  }

  /** `max(0, min(255, v))`. */
  function Clamp(v: int): (r: int)
    ensures 0 <= r < 256
    ensures 0 <= v < 256 ==> r == v
    ensures 0 <= v ==> r <= v
  {
    if v < 0 then 0 else if v > 255 then 255 else v
  }

  function Darken(ch: Channels, num: int, den: int): (d: Channels)
    requires den > 0
    ensures 0 <= d.r < 256 && 0 <= d.g < 256 && 0 <= d.b < 256
  {
    Channels(Clamp(Scale(ch.r, num, den)), Clamp(Scale(ch.g, num, den)), Clamp(Scale(ch.b, num, den)))
  }

  /** `_darken_hex(hexcolor, amount)` with `amount == num / den`: a string that is not "#"
      and six characters, or whose digit pairs do not parse, comes back unchanged;
      otherwise each channel is scaled, truncated, clamped and written back in lower case. */
  function DarkenHex(hexcolor: string, num: int, den: int): (r: string)
    requires den > 0
    ensures !(|hexcolor| == 7 && hexcolor[0] == '#' && ParseChannels(hexcolor).Some?) ==> r == hexcolor
    ensures |hexcolor| == 7 && hexcolor[0] == '#' && ParseChannels(hexcolor).Some? ==>
              && IsHexColor(r) && IsLowerCase(r)
              && ParseChannels(r) == Some(Darken(ParseChannels(hexcolor).value, num, den))
  {
    if hexcolor == [] || hexcolor[0] != '#' || |hexcolor| != 7 then
      hexcolor
    else
      match ParseChannels(hexcolor)
      case None => hexcolor
      case Some(ch) =>
        var d := Darken(ch, num, den);
        FormatColorRoundTrip(d);
        FormatColor(d)
  }

  /** A colour with a character `int(s, 16)` never accepts among its six digit positions
      is not valid hex, and `_darken_hex` returns it unchanged. */
  lemma DarkenHexRejectsNonHex(hexcolor: string, num: int, den: int, i: nat)
    requires den > 0
    requires 1 <= i < 7 && i < |hexcolor| && !MayOccurInHex(hexcolor[i])
    ensures DarkenHex(hexcolor, num, den) == hexcolor
  {
  }

  /** A seven-character colour with a pair that `int(s, 16)` rejects, even one made of
      allowed characters such as "1-", comes back unchanged. */
  lemma DarkenHexKeepsMalformedPairs(c: string, num: int, den: int, k: nat)
    requires den > 0
    requires |c| == 7 && (k == 1 || k == 3 || k == 5) && ShortInt16(c[k..k + 2]).None?
    ensures DarkenHex(c, num, den) == c
  {
    assert Slice(c, k, k + 2) == c[k..k + 2];
  }

  /** With `0 <= amount <= 1`, no channel of a well-formed colour gets brighter. */
  lemma DarkenNeverBrightens(c: string, num: int, den: int)
    requires IsHexColor(c) && den > 0 && 0 <= num <= den
    ensures ParseChannels(DarkenHex(c, num, den)).Some?
    ensures NoBrighter(ParseChannels(DarkenHex(c, num, den)).value, ParseChannels(c).value)
  {
    var ch := Channels(HexValue(c[1..3]), HexValue(c[3..5]), HexValue(c[5..7]));
    ParseHexColor(c);
    DarkenHexDecodes(c, ch, num, den);
    DarkenBelow(ch, num, den);
  }

  predicate NoBrighter(d: Channels, ch: Channels) {
    0 <= d.r <= ch.r && 0 <= d.g <= ch.g && 0 <= d.b <= ch.b
  }

  lemma DarkenHexDecodes(c: string, ch: Channels, num: int, den: int)
    requires IsHexColor(c) && den > 0 && ParseChannels(c) == Some(ch)
    ensures ParseChannels(DarkenHex(c, num, den)) == Some(Darken(ch, num, den))
  {
  }

  lemma DarkenBelow(ch: Channels, num: int, den: int)
    requires den > 0 && 0 <= num <= den && 0 <= ch.r && 0 <= ch.g && 0 <= ch.b
    ensures NoBrighter(Darken(ch, num, den), ch)
  {
    assert 0 <= Scale(ch.r, num, den) <= ch.r;
    assert 0 <= Scale(ch.g, num, den) <= ch.g;
    assert 0 <= Scale(ch.b, num, den) <= ch.b;
  }

  /** With `amount == 1` a lower-case colour string is returned as it is. */
  lemma DarkenByOneKeepsColor(ch: Channels, k: int)
    requires 0 <= ch.r < 256 && 0 <= ch.g < 256 && 0 <= ch.b < 256 && k > 0
    ensures DarkenHex(FormatColor(ch), k, k) == FormatColor(ch)
  {
    FormatColorRoundTrip(ch);
  }
}
