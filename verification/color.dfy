/** Colour values and the hex colour parser `hex_to_rgb`.

    The parser removes every leading `#`, then reads the characters at
    positions [0,2), [2,4) and [4,6) with Python's clamping slice and converts
    each slice with `int(slice, 16)`.  Anything that makes one of the three
    conversions raise makes the whole parse fail. */
module Color {
  import opened Wrappers

  /** An RGB triple as the renderer passes it around.  Channels are plain
      integers: the parser can produce values outside [0,255] (a `-` sign is
      accepted by `int`), so the range is a separate predicate. */
  datatype Rgb = Rgb(r: int, g: int, b: int)

  predicate InRange(c: Rgb) {
    0 <= c.r < 256 && 0 <= c.g < 256 && 0 <= c.b < 256
  }

  /** The single error a parse can end in (Python raises `ValueError`). */
  datatype ColorError = InvalidColorFormat

  // ---------------------------------------------------------------------
  // Characters

  /** The value of one hexadecimal digit, either case. */
  function HexDigit(c: char): (v: Option<nat>)
    ensures v.Some? ==> v.value < 16
    ensures '0' <= c <= '9' ==> v == Some(c as nat - '0' as nat)
    ensures 'a' <= c <= 'f' ==> v == Some(c as nat - 'a' as nat + 10)
    ensures 'A' <= c <= 'F' ==> v == Some(c as nat - 'A' as nat + 10)
  {
    if '0' <= c <= '9' then Some(c as nat - '0' as nat)
    else if 'a' <= c <= 'f' then Some(c as nat - 'a' as nat + 10)
    else if 'A' <= c <= 'F' then Some(c as nat - 'A' as nat + 10)
    else None
  }

  predicate IsHexDigit(c: char) {
    HexDigit(c).Some?
  }

  /** The ASCII characters `int` skips around its digits: tab, line feed,
      vertical tab, form feed, carriage return and space.  The information
      separators (28-31) count as whitespace for `str.isspace` but not here. */
  predicate IsPySpace(c: char) {
    9 <= c as int <= 13 || c == ' '
  }

  /** The lower-case digit `int(s, 16)` reads back as `v`. */
  function DigitChar(v: nat): (c: char)
    requires v < 16
    ensures HexDigit(c) == Some(v)
  {
    if v < 10 then ('0' as int + v) as char else ('a' as int + v - 10) as char
  }

  // ---------------------------------------------------------------------
  // Strings

  /** `s.lstrip('#')`: the string without its leading run of `#`. */
  function StripHashes(s: string): (t: string)
    ensures |t| <= |s| && s == Hashes(|s| - |t|) + t
    ensures |t| == 0 || t[0] != '#'
  {
    if |s| > 0 && s[0] == '#' then
      var t := StripHashes(s[1..]);
      assert s == "#" + s[1..];
      t
    else
      s
  }

  /** `k` copies of `#`. */
  function Hashes(k: nat): (h: string)
    ensures |h| == k && forall i :: 0 <= i < k ==> h[i] == '#'
  {
    if k == 0 then "" else "#" + Hashes(k - 1)
  }

  /** Python's `s[i:j]` for `0 <= i <= j`: both ends are clamped to the
      length, so a slice past the end is shorter, possibly empty. */
  function Slice(s: string, i: nat, j: nat): (t: string)
    requires i <= j
    ensures |t| == (if j <= |s| then j - i else if i <= |s| then |s| - i else 0)
    ensures j <= |s| ==> t == s[i..j]
    ensures i <= |s| < j ==> t == s[i..]
  {
    var hi := if j <= |s| then j else |s|;
    var lo := if i <= hi then i else hi;
    s[lo..hi]
  }

  /** `int(s, 16)` for a string of at most two characters (the only kind the
      parser passes).  Accepted forms: one digit; two digits; one digit with
      a space before or after it; a digit after a `+` or `-` sign.  Rejected:
      the empty string, blanks only, a lone sign, the bare prefix `0x`, an
      underscore, any other character. */
  function ParsePair(s: string): (v: Option<int>)
    requires |s| <= 2
    ensures |s| == 0 ==> v.None?
    ensures |s| == 2 && IsHexDigit(s[0]) && IsHexDigit(s[1]) ==>
              v == Some(16 * HexDigit(s[0]).value + HexDigit(s[1]).value)
    ensures |s| == 1 ==> v == (if IsHexDigit(s[0]) then Some(HexDigit(s[0]).value as int) else None)
    ensures |s| == 2 && IsPySpace(s[0]) && IsPySpace(s[1]) ==> v.None?
    ensures |s| == 2 && IsPySpace(s[0]) && !IsPySpace(s[1]) ==>
              v == (if IsHexDigit(s[1]) then Some(HexDigit(s[1]).value as int) else None)
    ensures |s| == 2 && !IsPySpace(s[0]) && IsPySpace(s[1]) ==>
              v == (if IsHexDigit(s[0]) then Some(HexDigit(s[0]).value as int) else None)
    ensures |s| == 2 && s[0] == '+' && !IsPySpace(s[1]) ==>
              v == (if IsHexDigit(s[1]) then Some(HexDigit(s[1]).value as int) else None)
    ensures |s| == 2 && s[0] == '-' && !IsPySpace(s[1]) ==>
              v == (if IsHexDigit(s[1]) then Some(-(HexDigit(s[1]).value as int)) else None)
    ensures |s| == 2 && !IsHexDigit(s[0]) && !IsPySpace(s[0]) && s[0] != '+' && s[0] != '-' ==> v.None?
    ensures |s| == 2 && !IsHexDigit(s[1]) && !IsPySpace(s[1]) ==> v.None?
    ensures v.Some? ==> -16 < v.value < 256
  {
    if |s| == 0 then None
    else if |s| == 1 then Digit(s[0])
    else if IsPySpace(s[0]) && IsPySpace(s[1]) then None
    else if IsPySpace(s[0]) then Digit(s[1])
    else if IsPySpace(s[1]) then Digit(s[0])
    else if s[0] == '+' then Digit(s[1])
    else if s[0] == '-' then
      (match Digit(s[1]) case Some(d) => Some(-d) case None => None)
    else if IsHexDigit(s[0]) && IsHexDigit(s[1]) then
      Some(16 * HexDigit(s[0]).value + HexDigit(s[1]).value)
    else None
  }

  function Digit(c: char): (v: Option<int>)
    ensures v.Some? <==> IsHexDigit(c)
    ensures v.Some? ==> v.value == HexDigit(c).value
  {
    match HexDigit(c) case Some(d) => Some(d) case None => None
  }

  /** `hex_to_rgb`: strip the leading `#` run, then convert the three
      two-character slices. */
  function HexToRgb(s: string): (r: Result<Rgb, ColorError>)
    ensures |StripHashes(s)| <= 4 ==> r.Failure?
    ensures r.Success? ==> -16 < r.value.r < 256 && -16 < r.value.g < 256 && -16 < r.value.b < 256
  {
    Channels(StripHashes(s))
  }

  /** The three conversions on the `#`-free text. */
  function Channels(t: string): (r: Result<Rgb, ColorError>)
    ensures |t| <= 4 ==> r.Failure?
    ensures r.Success? ==> -16 < r.value.r < 256 && -16 < r.value.g < 256 && -16 < r.value.b < 256
  {
    match (ParsePair(Slice(t, 0, 2)), ParsePair(Slice(t, 2, 4)), ParsePair(Slice(t, 4, 6)))
    case (Some(r), Some(g), Some(b)) => Success(Rgb(r, g, b))
    case _ => Failure(InvalidColorFormat)
  }

  // ---------------------------------------------------------------------
  // The inverse: formatting a colour as `#rrggbb`

  function HexPair(v: nat): (p: string)
    requires v < 256
    ensures |p| == 2 && IsHexDigit(p[0]) && IsHexDigit(p[1])
    ensures ParsePair(p) == Some(v)
  {
    [DigitChar(v / 16), DigitChar(v % 16)]
  }

  /** The `#rrggbb` form of an in-range colour (the form a colour picker
      hands to the parser). */
  function ToHex(c: Rgb): (s: string)
    requires InRange(c)
    ensures |s| == 7 && s[0] == '#'
    ensures forall i :: 1 <= i < 7 ==> IsHexDigit(s[i])
  {
    "#" + HexPair(c.r) + HexPair(c.g) + HexPair(c.b)
  }

  // ---------------------------------------------------------------------
  // Properties

  predicate AllHex(d: string) {
    forall i :: 0 <= i < |d| ==> IsHexDigit(d[i])
  }

  /** The value of the hex pair `d[i] d[i+1]`. */
  function PairValue(d: string, i: nat): (v: nat)
    requires i + 1 < |d| && AllHex(d)
    ensures v < 256
  {
    16 * HexDigit(d[i]).value + HexDigit(d[i + 1]).value
  }

  /** Any number of `#`, six hex digits, anything after: channel j is the
      base-16 value of pair j, in [0,255], and the tail is ignored. */
  lemma SixDigits(k: nat, d: string, rest: string)
    requires |d| == 6 && AllHex(d)
    ensures HexToRgb(Hashes(k) + (d + rest)) == Success(Rgb(PairValue(d, 0), PairValue(d, 2), PairValue(d, 4)))
    ensures InRange(HexToRgb(Hashes(k) + (d + rest)).value)
  {
    var t := d + rest;
    assert t[0] == d[0];
    StripPrefix(k, t);
    PairAt(d, rest, 0);
    PairAt(d, rest, 2);
    PairAt(d, rest, 4);
    ChannelsOfPairs(t, PairValue(d, 0), PairValue(d, 2), PairValue(d, 4));
  }

  /** Pair `i` of six hex digits followed by anything. */
  lemma PairAt(d: string, rest: string, i: nat)
    requires |d| == 6 && AllHex(d) && i + 1 < 6
    ensures ParsePair(Slice(d + rest, i, i + 2)) == Some(PairValue(d, i))
  {
    var t := d + rest;
    assert t[i..i + 2] == [d[i], d[i + 1]];
  }

  /** Three successful conversions make a colour. */
  lemma ChannelsOfPairs(t: string, a: int, b: int, c: int)
    requires ParsePair(Slice(t, 0, 2)) == Some(a)
    requires ParsePair(Slice(t, 2, 4)) == Some(b)
    requires ParsePair(Slice(t, 4, 6)) == Some(c)
    ensures Channels(t) == Success(Rgb(a, b, c))
  {
  }

  /** Stripping a run of `#` in front of a string that does not start with
      `#` leaves exactly that string. */
  lemma {:induction false} StripPrefix(k: nat, t: string)
    requires |t| == 0 || t[0] != '#'
    ensures StripHashes(Hashes(k) + t) == t
  {
    if k > 0 {
      assert Hashes(k) + t == "#" + (Hashes(k - 1) + t);
      assert (Hashes(k) + t)[1..] == Hashes(k - 1) + t;
      StripPrefix(k - 1, t);
    }
  }

  /** A leading `#` never matters: `lstrip` removes any number of them. */
  lemma HashIsIgnored(s: string)
    ensures HexToRgb("#" + s) == HexToRgb(s)
  {
    assert ("#" + s)[1..] == s;
  }

  /** Characters after the sixth (once the `#` run is gone) are ignored. */
  lemma IgnoresTail(s: string, tail: string)
    requires |StripHashes(s)| >= 6
    ensures HexToRgb(s + tail) == HexToRgb(s)
  {
    StripAppend(s, tail);
    SameSlices(StripHashes(s), tail);
  }

  /** Once something other than `#` remains, appending commutes with
      stripping. */
  lemma {:induction false} StripAppend(s: string, tail: string)
    requires |StripHashes(s)| > 0
    ensures StripHashes(s + tail) == StripHashes(s) + tail
  {
    if s[0] == '#' {
      assert (s + tail)[1..] == s[1..] + tail;
      StripAppend(s[1..], tail);
    }
  }

  /** Appending to text of six or more characters leaves its three slices,
      and so its channels, alone. */
  lemma SameSlices(t: string, tail: string)
    requires |t| >= 6
    ensures Channels(t + tail) == Channels(t)
  {
    assert (t + tail)[0..2] == t[0..2];
    assert (t + tail)[2..4] == t[2..4];
    assert (t + tail)[4..6] == t[4..6];
  }

  /** Five hex digits still parse: the last slice clamps to one character,
      so the blue channel is the value of the fifth digit alone. */
  lemma FiveDigits(d: string)
    requires |d| == 5 && AllHex(d) && d[0] != '#'
    ensures HexToRgb(d) == Success(Rgb(PairValue(d, 0), PairValue(d, 2), HexDigit(d[4]).value))
  {
    assert Slice(d, 0, 2) == d[0..2];
    assert Slice(d, 2, 4) == d[2..4];
    assert Slice(d, 4, 6) == d[4..5];
  }

  /** A sign inside a pair is accepted, so a parsed channel need not be in
      range: `"-10000"` reads as (-1, 0, 0). */
  lemma SignedPairAccepted()
    ensures HexToRgb("-10000") == Success(Rgb(-1, 0, 0))
  {
    assert Slice("-10000", 0, 2) == "-1";
    assert Slice("-10000", 2, 4) == "00";
    assert Slice("-10000", 4, 6) == "00";
  }

  /** A character that cannot occur where it stands in a pair makes the
      whole colour fail: anything but a digit, a blank or a sign, or a sign
      in the second place of its pair. */
  lemma BadCharRejected(k: nat, d: string, rest: string, i: nat)
    requires |d| == 6 && d[0] != '#' && i < 6
    requires !IsHexDigit(d[i]) && !IsPySpace(d[i])
    requires i == 1 || i == 3 || i == 5 || (d[i] != '+' && d[i] != '-')
    ensures HexToRgb(Hashes(k) + (d + rest)).Failure?
  {
    var j := if i < 2 then 0 else if i < 4 then 2 else 4;
    PairOf(d, rest, j);
    BadPair(d[j..j + 2], i - j);
    PairFails(d + rest, j);
    StripsTo(k, d, rest);
  }

  /** After the `#` run, the colour is read from the text that follows it. */
  lemma StripsTo(k: nat, d: string, rest: string)
    requires |d| > 0 && d[0] != '#'
    ensures HexToRgb(Hashes(k) + (d + rest)) == Channels(d + rest)
  {
    assert (d + rest)[0] == d[0];
    StripPrefix(k, d + rest);
  }

  /** A pair inside the first six characters is a plain sub-sequence. */
  lemma PairOf(d: string, rest: string, j: nat)
    requires j + 2 <= |d|
    ensures Slice(d + rest, j, j + 2) == d[j..j + 2]
    ensures (d + rest)[j..j + 2][0] == d[j] && d[j..j + 2][1] == d[j + 1]
  {
  }

  /** One misplaced character spoils its pair. */
  lemma BadPair(p: string, q: nat)
    requires |p| == 2 && q < 2
    requires !IsHexDigit(p[q]) && !IsPySpace(p[q])
    requires q == 1 || (p[q] != '+' && p[q] != '-')
    ensures ParsePair(p).None?
  {
  }

  /** One failed conversion fails the colour. */
  lemma PairFails(t: string, j: nat)
    requires j == 0 || j == 2 || j == 4
    requires ParsePair(Slice(t, j, j + 2)).None?
    ensures Channels(t).Failure?
  {
  }

  /** Letters outside the hexadecimal range are rejected, whatever `#`
      run precedes them and whatever follows. */
  lemma LettersRejected(k: nat, rest: string)
    ensures HexToRgb(Hashes(k) + ("ZZZZZZ" + rest)).Failure?
  {
    BadCharRejected(k, "ZZZZZZ", rest, 0);
  }

  /** The information separators are not blanks to `int`: a pair that
      holds one is rejected. */
  lemma SeparatorsRejected(k: nat, rest: string)
    ensures HexToRgb(Hashes(k) + ("\U{1c}0\U{1c}0\U{1c}0" + rest)).Failure?
  {
    BadCharRejected(k, "\U{1c}0\U{1c}0\U{1c}0", rest, 0);
  }

  /** Signs and blanks inside a pair are read the way `int` reads them:
      `+1`, ` 2` and `-3` are three channels. */
  lemma PaddedPairs()
    ensures HexToRgb("#+1 2-3") == Success(Rgb(1, 2, -3))
  {
    assert StripHashes("#+1 2-3") == "+1 2-3";
    assert Slice("+1 2-3", 0, 2) == "+1";
    assert Slice("+1 2-3", 2, 4) == " 2";
    assert Slice("+1 2-3", 4, 6) == "-3";
  }

  /** Parsing inverts formatting for every in-range colour. */
  lemma RoundTrip(c: Rgb)
    requires InRange(c)
    ensures HexToRgb(ToHex(c)) == Success(c)
  {
    var d := HexPair(c.r) + HexPair(c.g) + HexPair(c.b);
    assert ToHex(c) == "#" + d;
    HashIsIgnored(d);
    assert StripHashes(d) == d;
    assert Slice(d, 0, 2) == HexPair(c.r);
    assert Slice(d, 2, 4) == HexPair(c.g);
    assert Slice(d, 4, 6) == HexPair(c.b);
    ChannelsOfPairs(d, c.r, c.g, c.b);
  }
}
