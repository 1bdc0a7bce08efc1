/**
 * The album-art colour palette: hex colours parsed to RGB triples, shuffled in
 * place, blended towards a new palette frame by frame, and written back as
 * lower-case `#rrggbb` strings for the background.
 */
module AlbumColors {
  import opened JsNumber
  import opened JsString

  /** A colour; channels are numbers, fractional while a blend is under way. */
  datatype Rgb = Rgb(r: real, g: real, b: real)

  /** The palette shown before any album art has been read. */
  const DefaultColors: seq<Rgb> := [
    Rgb(26.0, 26.0, 26.0), Rgb(0.0, 0.0, 0.0), Rgb(51.0, 51.0, 51.0), Rgb(26.0, 26.0, 26.0), Rgb(0.0, 0.0, 0.0)]

  /** A whole number from 0 to 255. */
  predicate IsByte(x: real)
  {
    0.0 <= x <= 255.0 && x == x.Floor as real
  }

  predicate IsByteColor(c: Rgb)
  {
    IsByte(c.r) && IsByte(c.g) && IsByte(c.b)
  }

  /** A hexadecimal digit in either case. */
  predicate IsHexDigit(c: char)
  {
    '0' <= c <= '9' || 'a' <= c <= 'f' || 'A' <= c <= 'F'
  }

  function HexValue(c: char): (v: nat)
    requires IsHexDigit(c)
    ensures v < 16
  {
    if '0' <= c <= '9' then c as int - '0' as int
    else if 'a' <= c <= 'f' then c as int - 'a' as int + 10
    else c as int - 'A' as int + 10
  }

  predicate AllHex(s: string)
  {
    forall i :: 0 <= i < |s| ==> IsHexDigit(s[i])
  }

  /**
   * The six digits matched by `/^#?([a-f\d]{2}){3}$/i`: an optional leading '#'
   * and exactly six hexadecimal digits of either case, nothing else.
   */
  function HexBody(hex: string): (body: Option6)
    ensures body.Digits? ==> |body.digits| == 6 && AllHex(body.digits)
    ensures body.Digits? ==> hex == body.digits || hex == ['#'] + body.digits
  {
    if |hex| == 7 && hex[0] == '#' && AllHex(hex[1..]) then Digits(hex[1..])
    else if |hex| == 6 && AllHex(hex) then Digits(hex)
    else NoMatch
  }

  datatype Option6 = NoMatch | Digits(digits: string)

  /** Anything that is not six hex digits, with or without a '#' in front, does not match. */
  lemma HexBodyNoMatch(hex: string)
    requires HexBody(hex).NoMatch?
    ensures forall d :: |d| == 6 && AllHex(d) ==> hex != d && hex != ['#'] + d
  {
    forall d | |d| == 6 && AllHex(d)
      ensures hex != d && hex != ['#'] + d
    {
      assert (['#'] + d)[1..] == d;
    }
  }

  /** The byte written by two hex digits. */
  function ByteAt(digits: string, i: nat): (v: nat)
    requires i + 1 < |digits| && IsHexDigit(digits[i]) && IsHexDigit(digits[i + 1])
    ensures v < 256
  {
    HexValue(digits[i]) * 16 + HexValue(digits[i + 1])
  }

  /** `hexToRgb`: the three bytes of a well-formed colour, black for anything else. */
  function HexToRgb(hex: string): (c: Rgb)
    ensures IsByteColor(c)
    ensures HexBody(hex).NoMatch? ==> c == Rgb(0.0, 0.0, 0.0)
  {
    match HexBody(hex)
    case NoMatch => Rgb(0.0, 0.0, 0.0)
    case Digits(d) => Rgb(ByteAt(d, 0) as real, ByteAt(d, 2) as real, ByteAt(d, 4) as real)
  }

  /** One channel of `rgbToHex`: rounded, in lower-case hex, padded to two digits. */
  function ChannelHex(x: real): string
  {
    PadStart(IntToHex(Round(x)), 2, '0')
  }

  /** `rgbToHex`: '#' and the three channels. */
  function RgbToHex(c: Rgb): string
  {
    "#" + ChannelHex(c.r) + ChannelHex(c.g) + ChannelHex(c.b)
  }

  lemma HexDigitCharValue(d: nat)
    requires d < 16
    ensures IsHexDigit(HexDigitChar(d)) && HexValue(HexDigitChar(d)) == d
  {
  }

  /** A byte is written as exactly two lower-case hex digits. */
  lemma ByteHex(n: nat)
    requires n < 256
    ensures PadStart(IntToHex(n), 2, '0') == [HexDigitChar(n / 16), HexDigitChar(n % 16)]
  {
    var h := NatToHex(n);
    var p := PadStart(h, 2, '0');
    if n < 16 {
      assert h == [HexDigitChar(n)];
      assert |p| == 2 && p[1..] == h && p[0] == '0';
      assert p == [p[0]] + p[1..];
    } else {
      assert NatToHex(n / 16) == [HexDigitChar(n / 16)];
      assert h == [HexDigitChar(n / 16), HexDigitChar(n % 16)];
    }
  }

  /** A channel in 0..255 is written as exactly two lower-case hex digits of its rounded value. */
  lemma ChannelHexOfByte(x: real)
    requires 0.0 <= x <= 255.0
    ensures var n := Round(x);
            0 <= n <= 255 && ChannelHex(x) == [HexDigitChar(n / 16), HexDigitChar(n % 16)]
  {
    ByteHex(Round(x));
  }

  /** The seven characters written for a colour with channels in 0..255. */
  lemma RgbToHexDigits(c: Rgb)
    requires 0.0 <= c.r <= 255.0 && 0.0 <= c.g <= 255.0 && 0.0 <= c.b <= 255.0
    ensures var r, g, b := Round(c.r), Round(c.g), Round(c.b);
            && 0 <= r <= 255 && 0 <= g <= 255 && 0 <= b <= 255
            && RgbToHex(c) == ['#', HexDigitChar(r / 16), HexDigitChar(r % 16), HexDigitChar(g / 16),
                               HexDigitChar(g % 16), HexDigitChar(b / 16), HexDigitChar(b % 16)]
  {
    ChannelHexOfByte(c.r);
    ChannelHexOfByte(c.g);
    ChannelHexOfByte(c.b);
    var hr, hg, hb := ChannelHex(c.r), ChannelHex(c.g), ChannelHex(c.b);
    HashAndThreePairs(hr, hg, hb);
  }

  lemma HashAndThreePairs(x: string, y: string, z: string)
    requires |x| == 2 && |y| == 2 && |z| == 2
    ensures "#" + x + y + z == ['#', x[0], x[1], y[0], y[1], z[0], z[1]]
  {
  }

  lemma HashAndSix(x: string)
    requires |x| == 6
    ensures "#" + x == ['#', x[0], x[1], x[2], x[3], x[4], x[5]]
  {
  }

  /** A colour with channels in 0..255 is written as '#' and six lower-case hex digits. */
  lemma RgbToHexShape(c: Rgb)
    requires 0.0 <= c.r <= 255.0 && 0.0 <= c.g <= 255.0 && 0.0 <= c.b <= 255.0
    ensures var s := RgbToHex(c);
            |s| == 7 && s[0] == '#' && forall i :: 1 <= i < 7 ==> ('0' <= s[i] <= '9' || 'a' <= s[i] <= 'f')
  {
    RgbToHexDigits(c);
    var r, g, b := Round(c.r), Round(c.g), Round(c.b);
    LowerHexSeven(RgbToHex(c), r / 16, r % 16, g / 16, g % 16, b / 16, b % 16);
  }

  lemma LowerHexSeven(s: string, d1: nat, d2: nat, d3: nat, d4: nat, d5: nat, d6: nat)
    requires d1 < 16 && d2 < 16 && d3 < 16 && d4 < 16 && d5 < 16 && d6 < 16
    requires s == ['#', HexDigitChar(d1), HexDigitChar(d2), HexDigitChar(d3), HexDigitChar(d4), HexDigitChar(d5), HexDigitChar(d6)]
    ensures |s| == 7 && s[0] == '#' && forall i :: 1 <= i < 7 ==> ('0' <= s[i] <= '9' || 'a' <= s[i] <= 'f')
  {
  }

  /** A '#' and six hex digits read as the three bytes they spell. */
  lemma ReadHash(s: string)
    requires |s| == 7 && s[0] == '#' && AllHex(s[1..])
    ensures HexToRgb(s) == Rgb(ByteAt(s[1..], 0) as real, ByteAt(s[1..], 2) as real, ByteAt(s[1..], 4) as real)
  {
  }

  /** Writing a whole-byte colour and reading it back gives the colour. */
  lemma HexRoundTrip(c: Rgb)
    requires IsByteColor(c)
    ensures HexToRgb(RgbToHex(c)) == c
  {
    var r, g, b := c.r.Floor, c.g.Floor, c.b.Floor;
    RoundWhole(r);
    RoundWhole(g);
    RoundWhole(b);
    RgbToHexDigits(c);
    ReadBytes(RgbToHex(c), r, g, b);
  }

  /** Seven characters spelling three bytes in lower-case hex read back as those bytes. */
  lemma ReadBytes(s: string, r: nat, g: nat, b: nat)
    requires r < 256 && g < 256 && b < 256
    requires s == ['#', HexDigitChar(r / 16), HexDigitChar(r % 16), HexDigitChar(g / 16),
                   HexDigitChar(g % 16), HexDigitChar(b / 16), HexDigitChar(b % 16)]
    ensures HexToRgb(s) == Rgb(r as real, g as real, b as real)
  {
    ReadDigits(r / 16, r % 16, g / 16, g % 16, b / 16, b % 16);
  }

  lemma ReadDigits(d1: nat, d2: nat, d3: nat, d4: nat, d5: nat, d6: nat)
    requires d1 < 16 && d2 < 16 && d3 < 16 && d4 < 16 && d5 < 16 && d6 < 16
    ensures HexToRgb(['#', HexDigitChar(d1), HexDigitChar(d2), HexDigitChar(d3),
                      HexDigitChar(d4), HexDigitChar(d5), HexDigitChar(d6)]) ==
            Rgb((d1 * 16 + d2) as real, (d3 * 16 + d4) as real, (d5 * 16 + d6) as real)
  {
    var s := ['#', HexDigitChar(d1), HexDigitChar(d2), HexDigitChar(d3),
              HexDigitChar(d4), HexDigitChar(d5), HexDigitChar(d6)];
    HexDigitCharValue(d1);
    HexDigitCharValue(d2);
    HexDigitCharValue(d3);
    HexDigitCharValue(d4);
    HexDigitCharValue(d5);
    HexDigitCharValue(d6);
    assert s[1..] == [HexDigitChar(d1), HexDigitChar(d2), HexDigitChar(d3),
                      HexDigitChar(d4), HexDigitChar(d5), HexDigitChar(d6)];
    ReadHash(s);
  }

  /** Lower-casing a hex digit is writing its value back as a lower-case digit. */
  lemma HexDigitLower(c: char)
    requires IsHexDigit(c)
    ensures HexDigitChar(HexValue(c)) == ToLowerAscii(c)
  {
  }

  lemma DigitsOfByte(h: nat, l: nat)
    requires h < 16 && l < 16
    ensures (h * 16 + l) / 16 == h && (h * 16 + l) % 16 == l
  {
  }

  lemma RoundWhole(n: int)
    ensures Round(n as real) == n
  {
  }

  /** Reading a well-formed hex colour and writing it back gives its digits in lower case with a '#'. */
  lemma RgbRoundTrip(hex: string)
    requires HexBody(hex).Digits?
    ensures RgbToHex(HexToRgb(hex)) == "#" + ToLowerAsciiString(HexBody(hex).digits)
  {
    ReadBody(hex);
    WriteBytes(HexBody(hex).digits, HexToRgb(hex));
  }

  lemma WriteBytes(d: string, c: Rgb)
    requires |d| == 6 && AllHex(d)
    requires c == Rgb(ByteAt(d, 0) as real, ByteAt(d, 2) as real, ByteAt(d, 4) as real)
    ensures RgbToHex(c) == "#" + ToLowerAsciiString(d)
  {
    var l := ToLowerAsciiString(d);
    WriteDigits(c, HexValue(d[0]), HexValue(d[1]), HexValue(d[2]), HexValue(d[3]), HexValue(d[4]), HexValue(d[5]));
    HexDigitLower(d[0]);
    HexDigitLower(d[1]);
    HexDigitLower(d[2]);
    HexDigitLower(d[3]);
    HexDigitLower(d[4]);
    HexDigitLower(d[5]);
    HashAndSix(l);
  }

  lemma WriteDigits(c: Rgb, d1: nat, d2: nat, d3: nat, d4: nat, d5: nat, d6: nat)
    requires d1 < 16 && d2 < 16 && d3 < 16 && d4 < 16 && d5 < 16 && d6 < 16
    requires c == Rgb((d1 * 16 + d2) as real, (d3 * 16 + d4) as real, (d5 * 16 + d6) as real)
    ensures RgbToHex(c) ==
            ['#', HexDigitChar(d1), HexDigitChar(d2), HexDigitChar(d3),
             HexDigitChar(d4), HexDigitChar(d5), HexDigitChar(d6)]
  {
    DigitsOfByte(d1, d2);
    DigitsOfByte(d3, d4);
    DigitsOfByte(d5, d6);
    WholeBytes(c, d1 * 16 + d2, d3 * 16 + d4, d5 * 16 + d6);
  }

  lemma WholeBytes(c: Rgb, r: nat, g: nat, b: nat)
    requires r < 256 && g < 256 && b < 256
    requires c == Rgb(r as real, g as real, b as real)
    ensures RgbToHex(c) ==
            ['#', HexDigitChar(r / 16), HexDigitChar(r % 16), HexDigitChar(g / 16),
             HexDigitChar(g % 16), HexDigitChar(b / 16), HexDigitChar(b % 16)]
  {
    RoundWhole(r);
    RoundWhole(g);
    RoundWhole(b);
    RgbToHexDigits(c);
  }

  lemma ReadBody(hex: string)
    requires HexBody(hex).Digits?
    ensures var d := HexBody(hex).digits;
            HexToRgb(hex) == Rgb(ByteAt(d, 0) as real, ByteAt(d, 2) as real, ByteAt(d, 4) as real)
  {
  }

  /** One channel of a blend: `a + (b - a) * progress`. */
  function Blend(a: real, b: real, progress: real): real
  {
    a + (b - a) * progress
  }

  lemma BlendBetween(a: real, b: real, progress: real)
    requires 0.0 <= progress <= 1.0
    ensures Blend(a, b, 0.0) == a && Blend(a, b, 1.0) == b
    ensures a <= b ==> a <= Blend(a, b, progress) <= b
    ensures b <= a ==> b <= Blend(a, b, progress) <= a
  {
    if a <= b {
      BlendRising(a, b, progress);
    }
    if b <= a {
      BlendFalling(a, b, progress);
    }
  }

  lemma BlendRising(a: real, b: real, p: real)
    requires a <= b && 0.0 <= p <= 1.0
    ensures a <= Blend(a, b, p) <= b
  {
    if a == b {
      assert Blend(a, b, p) == a + 0.0 * p;
    } else {
      var d := b - a;
      assert Blend(a, b, p) == a + d * p;
      MulMono(0.0, p, d);
      MulMono(p, 1.0, d);
      assert d * p <= d;
      assert a + d == b;
    }
  }

  lemma BlendFalling(a: real, b: real, p: real)
    requires b <= a && 0.0 <= p <= 1.0
    ensures b <= Blend(a, b, p) <= a
  {
    if a == b {
      assert Blend(a, b, p) == a + 0.0 * p;
    } else {
      var d := a - b;
      assert Blend(a, b, p) == a - d * p;
      MulMono(0.0, p, d);
      MulMono(p, 1.0, d);
    }
  }

  /** `interpolateColor`: each channel blended from the first colour towards the second. */
  function InterpolateColor(c1: Rgb, c2: Rgb, progress: real): Rgb
  {
    Rgb(Blend(c1.r, c2.r, progress), Blend(c1.g, c2.g, progress), Blend(c1.b, c2.b, progress))
  }

  predicate ChannelBetween(x: real, a: real, b: real)
  {
    (a <= b && a <= x <= b) || (b <= a && b <= x <= a)
  }

  /** The blend starts at the first colour, ends at the second and stays between them on every channel. */
  lemma InterpolateBetween(c1: Rgb, c2: Rgb, progress: real)
    requires 0.0 <= progress <= 1.0
    ensures InterpolateColor(c1, c2, 0.0) == c1 && InterpolateColor(c1, c2, 1.0) == c2
    ensures var c := InterpolateColor(c1, c2, progress);
            ChannelBetween(c.r, c1.r, c2.r) && ChannelBetween(c.g, c1.g, c2.g) && ChannelBetween(c.b, c1.b, c2.b)
  {
    BlendBetween(c1.r, c2.r, progress);
    BlendBetween(c1.g, c2.g, progress);
    BlendBetween(c1.b, c2.b, progress);
  }

  /** One animation frame: every current colour blended towards the target colour at its position. */
  function InterpolatePalette(current: seq<Rgb>, target: seq<Rgb>, progress: real): (p: seq<Rgb>)
    requires |current| <= |target|
    ensures |p| == |current|
    ensures forall i :: 0 <= i < |current| ==> p[i] == InterpolateColor(current[i], target[i], progress)
  {
    seq(|current|, i requires 0 <= i < |current| => InterpolateColor(current[i], target[i], progress))
  }

  /** The last frame (progress 1) shows the target palette. */
  lemma FinalFrameIsTarget(current: seq<Rgb>, target: seq<Rgb>)
    requires |current| == |target|
    ensures InterpolatePalette(current, target, 1.0) == target
  {
    forall i | 0 <= i < |current|
      ensures InterpolatePalette(current, target, 1.0)[i] == target[i]
    {
      InterpolateBetween(current[i], target[i], 1.0);
    }
  }

  /** Byte-valued palettes stay in 0..255 on every frame, so every frame is written as `#rrggbb`. */
  lemma FrameStaysInRange(current: seq<Rgb>, target: seq<Rgb>, progress: real, i: nat)
    requires |current| <= |target| && 0.0 <= progress <= 1.0 && i < |current|
    requires IsByteColor(current[i]) && IsByteColor(target[i])
    ensures var c := InterpolatePalette(current, target, progress)[i];
            0.0 <= c.r <= 255.0 && 0.0 <= c.g <= 255.0 && 0.0 <= c.b <= 255.0
    ensures |RgbToHex(InterpolatePalette(current, target, progress)[i])| == 7
  {
    InterpolateBetween(current[i], target[i], progress);
    RgbToHexShape(InterpolatePalette(current, target, progress)[i]);
  }

  /** The index drawn for position `i`: `Math.floor(draw * (i + 1))`. */
  function Pick(draw: real, i: nat): (j: nat)
    requires 0.0 <= draw < 1.0
    ensures j <= i
  {
    var k := (i + 1) as real;
    MulMono(0.0, draw, k);
    MulStrict(draw, 1.0, k);
    (draw * k).Floor
  }

  predicate ValidDraws(draws: seq<real>)
  {
    forall i :: 0 <= i < |draws| ==> 0.0 <= draws[i] < 1.0
  }

  function Swap<T>(s: seq<T>, i: nat, j: nat): (r: seq<T>)
    requires i < |s| && j < |s|
    ensures |r| == |s|
  {
    s[i := s[j]][j := s[i]]
  }

  /**
   * The Durstenfeld shuffle as a function: positions from the last down to `from`
   * have each been swapped with the position drawn for them.
   */
  function Durstenfeld<T>(s: seq<T>, draws: seq<real>, from: nat): (r: seq<T>)
    requires |draws| == |s| && ValidDraws(draws) && from <= |s|
    ensures |r| == |s|
    decreases |s| - from
  {
    if from == |s| then s
    else
      var t := Durstenfeld(s, draws, from + 1);
      Swap(t, from, Pick(draws[from], from))
  }

  lemma SwapPermutes<T>(s: seq<T>, i: nat, j: nat)
    requires i < |s| && j < |s|
    ensures multiset(Swap(s, i, j)) == multiset(s)
  {
  }

  /** The shuffle only reorders: the same colours, each as often as before. */
  lemma {:induction false} DurstenfeldPermutes<T>(s: seq<T>, draws: seq<real>, from: nat)
    requires |draws| == |s| && ValidDraws(draws) && from <= |s|
    ensures multiset(Durstenfeld(s, draws, from)) == multiset(s)
    decreases |s| - from
  {
    if from < |s| {
      DurstenfeldPermutes(s, draws, from + 1);
      SwapPermutes(Durstenfeld(s, draws, from + 1), from, Pick(draws[from], from));
    }
  }

  /** A position is settled once the shuffle has passed it: later swaps only touch lower positions. */
  lemma {:induction false} SettledOncePassed<T>(s: seq<T>, draws: seq<real>, from: nat, i: nat)
    requires |draws| == |s| && ValidDraws(draws) && from <= i < |s|
    ensures Durstenfeld(s, draws, from)[i] == Durstenfeld(s, draws, i)[i]
    decreases i - from
  {
    if from < i {
      SettledOncePassed(s, draws, from + 1, i);
    }
  }

  /** `shuffleArray`: the in-place Durstenfeld shuffle, with the random draws given up front. */
  method ShuffleArray<T>(a: array<T>, draws: seq<real>)
    requires |draws| == a.Length && ValidDraws(draws)
    modifies a
    ensures a[..] == Durstenfeld(old(a[..]), draws, 0)
    ensures multiset(a[..]) == multiset(old(a[..]))
  {
    ghost var original := a[..];
    var i := a.Length;
    while i > 0
      invariant 0 <= i <= a.Length
      invariant a[..] == Durstenfeld(original, draws, i)
    {
      i := i - 1;
      var j := Pick(draws[i], i);
      var temp := a[i];
      a[i] := a[j];
      a[j] := temp;
    }
    DurstenfeldPermutes(original, draws, 0);
  }

  /** The new target palette: the extracted hex colours parsed, then shuffled. */
  method NewTarget(palette: seq<string>, draws: seq<real>) returns (target: seq<Rgb>)
    requires |draws| == |palette| && ValidDraws(draws)
    ensures |target| == |palette|
    ensures target == Durstenfeld(seq(|palette|, i requires 0 <= i < |palette| => HexToRgb(palette[i])), draws, 0)
    ensures multiset(target) == multiset(seq(|palette|, i requires 0 <= i < |palette| => HexToRgb(palette[i])))
    ensures forall i :: 0 <= i < |target| ==> IsByteColor(target[i])
  {
    var parsed := seq(|palette|, i requires 0 <= i < |palette| => HexToRgb(palette[i]));
    var colors := new Rgb[|palette|](i requires 0 <= i < |palette| => HexToRgb(palette[i]));
    assert colors[..] == parsed;
    ShuffleArray(colors, draws);
    target := colors[..];
    forall i | 0 <= i < |target|
      ensures IsByteColor(target[i])
    {
      assert target[i] in multiset(parsed);
    }
  }

  /** The colours handed to the background: every current colour as a hex string. */
  function Colors(current: seq<Rgb>): (hexes: seq<string>)
    ensures |hexes| == |current|
    ensures forall i :: 0 <= i < |current| ==> hexes[i] == RgbToHex(current[i])
  {
    seq(|current|, i requires 0 <= i < |current| => RgbToHex(current[i]))
  }

  /** A palette of whole-byte colours reads back from the strings handed to the background. */
  lemma ColorsReadBack(current: seq<Rgb>)
    requires forall i :: 0 <= i < |current| ==> IsByteColor(current[i])
    ensures forall i :: 0 <= i < |current| ==> HexToRgb(Colors(current)[i]) == current[i]
  {
    forall i | 0 <= i < |current|
      ensures HexToRgb(Colors(current)[i]) == current[i]
    {
      HexRoundTrip(current[i]);
    }
  }
}
