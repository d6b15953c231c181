/** The hex-string decoder of `Color.init(hex:)`: the string is trimmed of
    non-alphanumeric characters, scanned as a hexadecimal integer, and split
    into alpha/red/green/blue channels according to the number of digits.
    Only the integer channels are modelled; the division by 255 that turns
    them into colour components is left to the caller. */
module HexColor {
  import opened Wrappers

  // ---------------------------------------------------------------------
  // Trimming: `trimmingCharacters(in: CharacterSet.alphanumerics.inverted)`

  /** ASCII letters and digits. */
  predicate IsAlphanumeric(c: char) {
    ('0' <= c <= '9') || ('a' <= c <= 'z') || ('A' <= c <= 'Z')
  }

  /** `s` without its leading non-alphanumeric characters. */
  function TrimLeading(s: string): (t: string)
    ensures |t| <= |s| && t == s[|s| - |t|..]
    ensures t == [] || IsAlphanumeric(t[0])
    ensures forall i :: 0 <= i < |s| - |t| ==> !IsAlphanumeric(s[i])
  {
    if s == [] || IsAlphanumeric(s[0]) then s else TrimLeading(s[1..])
  }

  /** `s` without its trailing non-alphanumeric characters. */
  function TrimTrailing(s: string): (t: string)
    ensures |t| <= |s| && t == s[..|t|]
    ensures t == [] || IsAlphanumeric(t[|t| - 1])
    ensures forall i :: |t| <= i < |s| ==> !IsAlphanumeric(s[i])
  {
    if s == [] || IsAlphanumeric(s[|s| - 1]) then s else TrimTrailing(s[..|s| - 1])
  }

  /** `t` is `s[i..j]` and everything outside that slice is
      non-alphanumeric. */
  predicate TrimmedSlice(s: string, t: string, i: int, j: int) {
    && 0 <= i <= j <= |s| && t == s[i..j]
    && (forall k :: 0 <= k < i ==> !IsAlphanumeric(s[k]))
    && (forall k :: j <= k < |s| ==> !IsAlphanumeric(s[k]))
  }

  /** A suffix with only non-alphanumeric characters before it, cut to a
      prefix with only non-alphanumeric characters after it, is a trimmed
      slice. */
  lemma SliceOfSlices(s: string, l: string, t: string)
    requires |l| <= |s| && l == s[|s| - |l|..]
    requires forall k :: 0 <= k < |s| - |l| ==> !IsAlphanumeric(s[k])
    requires |t| <= |l| && t == l[..|t|]
    requires forall k :: |t| <= k < |l| ==> !IsAlphanumeric(l[k])
    ensures TrimmedSlice(s, t, |s| - |l|, |s| - |l| + |t|)
  {
    var i := |s| - |l|;
    forall k | i + |t| <= k < |s|
      ensures !IsAlphanumeric(s[k])
    {
      assert s[k] == l[k - i];
    }
  }

  /** Both ends stripped: the result is a slice of `s` with only
      non-alphanumeric characters before and after it; it is empty exactly
      when `s` holds no alphanumeric character, and otherwise starts and
      ends with one. */
  function Trim(s: string): (t: string)
    ensures |t| <= |s|
    ensures exists i, j :: TrimmedSlice(s, t, i, j)
    ensures t == [] <==> forall i :: 0 <= i < |s| ==> !IsAlphanumeric(s[i])
    ensures t != [] ==> IsAlphanumeric(t[0]) && IsAlphanumeric(t[|t| - 1])
  {
    var l := TrimLeading(s);
    var t := TrimTrailing(l);
    SliceOfSlices(s, l, t);
    assert t != [] ==> t[0] == l[0];
    assert l != [] ==> t != [];
    t
  }

  lemma {:induction false} TrimTrailingOfAlphanumericStart(s: string, c: char)
    requires s == [] || IsAlphanumeric(s[0])
    requires !IsAlphanumeric(c)
    ensures TrimTrailing(s + [c]) == TrimTrailing(s)
  {
    assert (s + [c])[..|s + [c]| - 1] == s;
  }

  lemma {:induction false} TrimLeadingSnoc(s: string, c: char)
    requires !IsAlphanumeric(c)
    ensures TrimLeading(s + [c]) == TrimLeading(s) + [c]
         || (TrimLeading(s + [c]) == [] && TrimLeading(s) == [])
  {
    if s == [] {
    } else if IsAlphanumeric(s[0]) {
    } else {
      assert (s + [c])[1..] == s[1..] + [c];
      TrimLeadingSnoc(s[1..], c);
    }
  }

  /** A non-alphanumeric character before the text does not change the trim. */
  lemma TrimLeadingPunctuation(s: string, c: char)
    requires !IsAlphanumeric(c)
    ensures Trim([c] + s) == Trim(s)
  {
    assert ([c] + s)[1..] == s;
  }

  /** A non-alphanumeric character after the text does not change the trim. */
  lemma {:induction false} TrimTrailingPunctuation(s: string, c: char)
    requires !IsAlphanumeric(c)
    ensures Trim(s + [c]) == Trim(s)
  {
    TrimLeadingSnoc(s, c);
    var l := TrimLeading(s);
    if TrimLeading(s + [c]) == l + [c] {
      TrimTrailingOfAlphanumericStart(l, c);
    }
  }

  // ---------------------------------------------------------------------
  // Scanning: `Scanner(string:).scanHexInt64(&int)`

  predicate IsHexDigit(c: char) {
    ('0' <= c <= '9') || ('a' <= c <= 'f') || ('A' <= c <= 'F')
  }

  function DigitValue(c: char): (d: nat)
    requires IsHexDigit(c)
    ensures d < 16
  {
    if '0' <= c <= '9' then (c as int - '0' as int)
    else if 'a' <= c <= 'f' then (c as int - 'a' as int) + 10
    else (c as int - 'A' as int) + 10
  }

  predicate AllHexDigits(s: string) {
    forall i :: 0 <= i < |s| ==> IsHexDigit(s[i])
  }

  function Pow16(n: nat): (p: nat)
    ensures p >= 1
  {
    if n == 0 then 1 else 16 * Pow16(n - 1)
  }

  lemma {:induction false} Pow16Monotone(m: nat, n: nat)
    requires m <= n
    ensures Pow16(m) <= Pow16(n)
  {
    if m < n {
      Pow16Monotone(m, n - 1);
    }
  }

  lemma Pow16Values()
    ensures Pow16(2) == 0x100 && Pow16(3) == 0x1000 && Pow16(4) == 0x1_0000
    ensures Pow16(6) == 0x100_0000 && Pow16(8) == 0x1_0000_0000
  {
    assert Pow16(1) == 16;
    assert Pow16(2) == 0x100;
    assert Pow16(3) == 0x1000;
    assert Pow16(4) == 0x1_0000;
    assert Pow16(5) == 0x10_0000;
    assert Pow16(6) == 0x100_0000;
    assert Pow16(7) == 0x1000_0000;
  }

  /** The value of a run of hex digits, most significant first, as the
      scanner accumulates it (`value * 16 + digit`). */
  function HexValue(s: string): (v: nat)
    requires AllHexDigits(s)
    ensures v < Pow16(|s|)
  {
    if s == [] then 0 else HexValue(s[..|s| - 1]) * 16 + DigitValue(s[|s| - 1])
  }

  /** Concatenating digit runs shifts the first run left by four bits per
      digit of the second. */
  lemma {:induction false} HexValueConcat(a: string, b: string)
    requires AllHexDigits(a) && AllHexDigits(b)
    ensures AllHexDigits(a + b)
    ensures HexValue(a + b) == HexValue(a) * Pow16(|b|) + HexValue(b)
  {
    assert AllHexDigits(a + b) by {
      forall i | 0 <= i < |a + b| ensures IsHexDigit((a + b)[i]) {
        if i < |a| { assert (a + b)[i] == a[i]; } else { assert (a + b)[i] == b[i - |a|]; }
      }
    }
    if b == [] {
      assert a + b == a;
    } else {
      var b' := b[..|b| - 1];
      assert (a + b)[..|a + b| - 1] == a + b';
      assert AllHexDigits(b');
      HexValueConcat(a, b');
      var d := DigitValue(b[|b| - 1]);
      assert (a + b)[|a + b| - 1] == b[|b| - 1];
      assert HexValue(a + b) == HexValue(a + b') * 16 + d;
      assert HexValue(b) == HexValue(b') * 16 + d;
      assert Pow16(|b|) == 16 * Pow16(|b'|);
      ShiftDigit(HexValue(a), Pow16(|b'|), HexValue(b'), DigitValue(b[|b| - 1]));
    }
  }

  lemma ShiftDigit(x: int, p: int, y: int, d: int)
    ensures (x * p + y) * 16 + d == x * (16 * p) + (y * 16 + d)
  {
  }

  /** Two hex digits read as one byte. */
  lemma {:induction false} HexValuePair(s: string)
    requires |s| == 2 && AllHexDigits(s)
    ensures HexValue(s) == 16 * DigitValue(s[0]) + DigitValue(s[1])
  {
    assert s[..1][..0] == [];
    assert s[..1][0] == s[0];
  }

  /** How many hex digits `s` starts with. */
  function DigitRun(s: string): (n: nat)
    ensures n <= |s| && AllHexDigits(s[..n])
    ensures n < |s| ==> !IsHexDigit(s[n])
  {
    if s == [] || !IsHexDigit(s[0]) then 0
    else
      var n := 1 + DigitRun(s[1..]);
      assert s[..n] == [s[0]] + s[1..][..n - 1];
      n
  }

  /** True when `s` starts with a `0x`/`0X` prefix that the scanner skips:
      one followed by a hex digit. */
  predicate HasHexPrefix(s: string) {
    |s| >= 3 && s[0] == '0' && (s[1] == 'x' || s[1] == 'X') && IsHexDigit(s[2])
  }

  /** The integer `scanHexInt64` leaves in its out-parameter: an optional
      `0x` prefix, then the longest run of hex digits; 0 when there is none.
      The value is below 16 to the power of the length of `s`. */
  function ScanHex(s: string): (v: nat)
    ensures v < Pow16(|s|)
  {
    var body := if HasHexPrefix(s) then s[2..] else s;
    var run := DigitRun(body);
    Pow16Monotone(run, |s|);
    HexValue(body[..run])
  }

  /** An input made only of hex digits scans to its value. */
  lemma ScanHexOfDigits(s: string)
    requires AllHexDigits(s)
    ensures ScanHex(s) == HexValue(s)
  {
    assert !HasHexPrefix(s) by {
      if |s| >= 2 { assert IsHexDigit(s[1]); }
    }
    assert DigitRun(s) == |s|;
    assert s[..|s|] == s;
  }

  // ---------------------------------------------------------------------
  // Decoding

  /** The colour `init(hex:)` produces: `.clear`, or four channels in
      0...255 each (before the division by 255). */
  datatype Color = Clear | Argb(a: nat, r: nat, g: nat, b: nat)

  predicate ChannelsInRange(c: Color) {
    c.Argb? ==> c.a <= 255 && c.r <= 255 && c.g <= 255 && c.b <= 255
  }

  /** The layout switch on the digit count. `>> k` on a non-negative value is
      division by 2^k and `& 0xF` / `& 0xFF` are remainders by 16 / 256. */
  function Channels(count: nat, v: nat): (c: Color)
    requires count == 3 || count == 6 || count == 8 ==> v < Pow16(count)
    ensures c.Argb? && ChannelsInRange(c)
  {
    Pow16Values();
    if count == 3 then Argb(255, (v / 0x100) * 17, (v / 0x10 % 0x10) * 17, (v % 0x10) * 17)
    else if count == 6 then Argb(255, v / 0x1_0000, v / 0x100 % 0x100, v % 0x100)
    else if count == 8 then Argb(v / 0x100_0000, v / 0x1_0000 % 0x100, v / 0x100 % 0x100, v % 0x100)
    else Argb(1, 1, 1, 0)
  }

  /** `Color(hex:)`: nil or empty gives `.clear`; anything else gives four
      channels, none above 255. */
  function FromHex(hex: Option<string>): (c: Color)
    ensures c.Clear? <==> (hex.None? || hex.value == [])
    ensures ChannelsInRange(c)
  {
    match hex
    case None => Clear
    case Some(str) =>
      if str == [] then Clear
      else
        var t := Trim(str);
        Channels(|t|, ScanHex(t))
  }

  // ---------------------------------------------------------------------
  // Properties of the decoder

  /** Leading or trailing punctuation such as `#` is ignored, as long as
      something is left of the input (a lone "#" is not empty, so it is not
      `.clear`). */
  lemma FromHexIgnoresPunctuation(s: string, c: char)
    requires !IsAlphanumeric(c) && s != []
    ensures FromHex(Some([c] + s)) == FromHex(Some(s))
    ensures FromHex(Some(s + [c])) == FromHex(Some(s))
  {
    TrimLeadingPunctuation(s, c);
    TrimTrailingPunctuation(s, c);
  }

  /** "FFF" and "#FFF" are both opaque white. */
  lemma WhiteExample(s: string)
    requires |s| == 3 && s[0] == 'F' && s[1] == 'F' && s[2] == 'F'
    ensures FromHex(Some(['#'] + s)) == FromHex(Some(s)) == Argb(255, 255, 255, 255)
  {
    assert AllHexDigits(s);
    FromHexIgnoresPunctuation(s, '#');
    FromHexThreeDigits(s);
    assert DigitValue('F') == 15;
  }

  /** A lone "#" is not empty, so it is not `.clear`: it trims to nothing and
      takes the default layout. */
  lemma LoneHashExample()
    ensures FromHex(Some("#")) == Argb(1, 1, 1, 0)
  {
    assert Trim("#") == [];
  }

  /** A text that starts and ends with an alphanumeric character is its own trim. */
  lemma TrimOfTrimmed(s: string)
    requires s != [] && IsAlphanumeric(s[0]) && IsAlphanumeric(s[|s| - 1])
    ensures Trim(s) == s
  {
  }

  /** The decoder of a text that is already trimmed. */
  lemma FromHexOfTrimmed(s: string)
    requires s != [] && IsAlphanumeric(s[0]) && IsAlphanumeric(s[|s| - 1])
    ensures FromHex(Some(s)) == Channels(|s|, ScanHex(s))
  {
    TrimOfTrimmed(s);
  }

  lemma {:induction false} HexValueThree(s: string)
    requires |s| == 3 && AllHexDigits(s)
    ensures HexValue(s) == DigitValue(s[0]) * 0x100 + DigitValue(s[1]) * 0x10 + DigitValue(s[2])
  {
    var p, q := s[..1], s[1..];
    assert AllHexDigits(p) && AllHexDigits(q);
    HexValueConcat(p, q);
    HexValuePair(q);
    assert p[..0] == [];
    assert p + q == s;
    Pow16Values();
    assert HexValue(p) == DigitValue(s[0]);
  }

  lemma ChannelsThree(v: nat, x: nat, y: nat, z: nat)
    requires x < 16 && y < 16 && z < 16 && v == x * 0x100 + y * 0x10 + z
    ensures Channels(3, v) == Argb(255, 17 * x, 17 * y, 17 * z)
  {
    Pow16Values();
    assert v / 0x100 == x;
    assert v / 0x10 == x * 0x10 + y;
    assert v / 0x10 % 0x10 == y;
    assert v % 0x10 == z;
  }

  /** Three digits: alpha 255 and each channel one digit times 17. */
  lemma FromHexThreeDigits(s: string)
    requires |s| == 3 && AllHexDigits(s)
    ensures FromHex(Some(s)) == Argb(255, 17 * DigitValue(s[0]), 17 * DigitValue(s[1]), 17 * DigitValue(s[2]))
  {
    FromHexOfTrimmed(s);
    ScanHexOfDigits(s);
    HexValueThree(s);
    ChannelsThree(HexValue(s), DigitValue(s[0]), DigitValue(s[1]), DigitValue(s[2]));
  }

  /** Whatever the input, a three-character trimmed text gives alpha 255
      and channels that are multiples of 17. */
  lemma FromHexThreeCharacters(s: string)
    requires s != [] && |Trim(s)| == 3
    ensures FromHex(Some(s)).a == 255
    ensures FromHex(Some(s)).r % 17 == 0 && FromHex(Some(s)).g % 17 == 0 && FromHex(Some(s)).b % 17 == 0
  {
    var t := Trim(s);
    assert FromHex(Some(s)) == Channels(3, ScanHex(t));
    ChannelsThreeAny(ScanHex(t));
  }

  lemma ChannelsThreeAny(v: nat)
    requires v < Pow16(3)
    ensures Channels(3, v).a == 255
    ensures Channels(3, v).r % 17 == 0 && Channels(3, v).g % 17 == 0 && Channels(3, v).b % 17 == 0
  {
    var x, y, z := v / 0x100, v / 0x10 % 0x10, v % 0x10;
    assert Channels(3, v) == Argb(255, x * 17, y * 17, z * 17);
    Times17(x);
    Times17(y);
    Times17(z);
  }

  lemma Times17(x: int)
    ensures (x * 17) % 17 == 0
  {
  }

  /** The byte written by the two hex digits at `i` and `i + 1`. */
  function ByteAt(s: string, i: nat): (b: nat)
    requires i + 1 < |s| && AllHexDigits(s)
    ensures b < 0x100
  {
    16 * DigitValue(s[i]) + DigitValue(s[i + 1])
  }

  lemma {:induction false} HexValueSix(s: string)
    requires |s| == 6 && AllHexDigits(s)
    ensures HexValue(s) == (ByteAt(s, 0) * 0x100 + ByteAt(s, 2)) * 0x100 + ByteAt(s, 4)
  {
    var p, q, u := s[..2], s[2..4], s[4..];
    assert AllHexDigits(p) && AllHexDigits(q) && AllHexDigits(u);
    HexValueConcat(p, q);
    HexValueConcat(p + q, u);
    assert p + q + u == s;
    HexValuePair(p);
    HexValuePair(q);
    HexValuePair(u);
    Pow16Values();
    assert HexValue(p) == ByteAt(s, 0) && HexValue(q) == ByteAt(s, 2) && HexValue(u) == ByteAt(s, 4);
  }

  lemma {:induction false} HexValueEight(s: string)
    requires |s| == 8 && AllHexDigits(s)
    ensures HexValue(s) == ((ByteAt(s, 0) * 0x100 + ByteAt(s, 2)) * 0x100 + ByteAt(s, 4)) * 0x100 + ByteAt(s, 6)
  {
    var p, w := s[..6], s[6..];
    assert AllHexDigits(p) && AllHexDigits(w);
    HexValueConcat(p, w);
    assert p + w == s;
    HexValueSix(p);
    HexValuePair(w);
    Pow16Values();
    assert ByteAt(p, 0) == ByteAt(s, 0) && ByteAt(p, 2) == ByteAt(s, 2) && ByteAt(p, 4) == ByteAt(s, 4);
    assert HexValue(w) == ByteAt(s, 6);
  }

  lemma ChannelsSix(v: nat, x: nat, y: nat, z: nat)
    requires x < 0x100 && y < 0x100 && z < 0x100 && v == (x * 0x100 + y) * 0x100 + z
    ensures Channels(6, v) == Argb(255, x, y, z)
  {
    Pow16Values();
    assert v / 0x1_0000 == x;
    assert v / 0x100 == x * 0x100 + y;
    assert v / 0x100 % 0x100 == y;
    assert v % 0x100 == z;
  }

  lemma ChannelsEight(v: nat, w: nat, x: nat, y: nat, z: nat)
    requires w < 0x100 && x < 0x100 && y < 0x100 && z < 0x100
    requires v == ((w * 0x100 + x) * 0x100 + y) * 0x100 + z
    ensures Channels(8, v) == Argb(w, x, y, z)
  {
    Pow16Values();
    assert v / 0x100_0000 == w;
    assert v / 0x1_0000 == w * 0x100 + x;
    assert v / 0x1_0000 % 0x100 == x;
    assert v / 0x100 == (w * 0x100 + x) * 0x100 + y;
    assert v / 0x100 % 0x100 == y;
    assert v % 0x100 == z;
  }

  /** Six digits: alpha 255, then red, green, blue from the byte pairs. */
  lemma FromHexSixDigits(s: string)
    requires |s| == 6 && AllHexDigits(s)
    ensures FromHex(Some(s)) == Argb(255, ByteAt(s, 0), ByteAt(s, 2), ByteAt(s, 4))
  {
    FromHexOfTrimmed(s);
    ScanHexOfDigits(s);
    assert FromHex(Some(s)) == Channels(6, HexValue(s));
    HexValueSix(s);
    ChannelsSix(HexValue(s), ByteAt(s, 0), ByteAt(s, 2), ByteAt(s, 4));
  }

  /** Eight digits are ARGB: the first byte pair is alpha. */
  lemma FromHexEightDigits(s: string)
    requires |s| == 8 && AllHexDigits(s)
    ensures FromHex(Some(s)) == Argb(ByteAt(s, 0), ByteAt(s, 2), ByteAt(s, 4), ByteAt(s, 6))
  {
    FromHexOfTrimmed(s);
    ScanHexOfDigits(s);
    assert FromHex(Some(s)) == Channels(8, HexValue(s));
    HexValueEight(s);
    ChannelsEight(HexValue(s), ByteAt(s, 0), ByteAt(s, 2), ByteAt(s, 4), ByteAt(s, 6));
  }

  /** Any other trimmed length gives the fixed tuple (1, 1, 1, 0). */
  lemma FromHexOtherLength(s: string)
    requires s != [] && |Trim(s)| != 3 && |Trim(s)| != 6 && |Trim(s)| != 8
    ensures FromHex(Some(s)) == Argb(1, 1, 1, 0)
  {
  }
}
