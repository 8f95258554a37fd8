/**
 * Colour helpers of the theme (lib/theme/helpers/color.ts): the palette
 * name of a colour path and of an intent, and the deterministic "random"
 * colours derived from a string hash. JavaScript's 32-bit integer
 * operators are written out: ToInt32 wraps a value into the signed 32-bit
 * range, `>>` is a floor division, `& 255` a remainder.
 */
module Color {
  import opened Js

  // ---------------------------------------------------------------------
  // getThemeColorName, getIntentColorName

  /** getThemeColorName(color); None stands for `false`. The name is the
      text before the first dot, the whole colour when there is none. */
  function GetThemeColorName(color: string): (r: Option<string>)
    ensures r.None? <==> color == ""
    ensures r.Some? ==> '.' !in r.value && |r.value| <= |color| && color[..|r.value|] == r.value
    ensures r.Some? && |r.value| < |color| ==> color[|r.value|] == '.'
    ensures color != "" && '.' !in color ==> r == Some(color)
  {
    if color == "" then None
    else
      var parts := Split(color, '.');
      SplitFirst(color, '.');
      Some(parts[0])
  }

  /** 'red.600' names the palette 'red'; a colour without a dot is itself
      the palette name. */
  lemma ThemeColorNameOfPath(palette: string, shade: string)
    requires palette != "" && '.' !in palette
    ensures GetThemeColorName(palette + "." + shade) == Some(palette)
    ensures GetThemeColorName(palette) == Some(palette)
  {
    var s := palette + "." + shade;
    var r := GetThemeColorName(s).value;
    assert s[|palette|] == '.';
    assert forall i :: 0 <= i < |palette| ==> s[i] == palette[i] != '.';
    assert !(|r| > |palette|) by {
      assert forall i :: 0 <= i < |r| ==> r[i] == s[i];
    }
    assert |r| >= |palette|;
    assert r == s[..|palette|] == palette;
  }

  datatype Intent = Primary | Secondary | Dark | Light | Info | Warning | Success | Danger

  /** The intent named by a string, None for any other string. */
  function IntentOf(s: string): Option<Intent> {
    if s == "primary" then Some(Primary)
    else if s == "secondary" then Some(Secondary)
    else if s == "dark" then Some(Dark)
    else if s == "light" then Some(Light)
    else if s == "info" then Some(Info)
    else if s == "warning" then Some(Warning)
    else if s == "success" then Some(Success)
    else if s == "danger" then Some(Danger)
    else None
  }

  function IntentPalette(intent: Intent): string {
    match intent
    case Primary => "primary"
    case Secondary => "secondary"
    case Dark => "dark"
    case Light => "gray"
    case Info => "blue"
    case Warning => "yellow"
    case Success => "green"
    case Danger => "red"
  }

  /** getIntentColorName(intent) for any string the caller passes. */
  function GetIntentColorName(intent: string): (r: string)
    ensures IntentOf(intent).Some? ==> r == IntentPalette(IntentOf(intent).value)
    ensures IntentOf(intent).None? ==> r == "dark"
  {
    match IntentOf(intent)
    case Some(i) => IntentPalette(i)
    case None => "dark"
  }

  /** Only 'light' is renamed; the other brand intents keep their own name. */
  lemma IntentNames(s: string)
    requires IntentOf(s).Some?
    ensures GetIntentColorName(s) == (if s == "light" then "gray"
      else if s == "info" then "blue"
      else if s == "warning" then "yellow"
      else if s == "success" then "green"
      else if s == "danger" then "red"
      else s)
  {
  }

  // ---------------------------------------------------------------------
  // 32-bit integer arithmetic

  const Two32: int := 0x1_0000_0000
  const Two31: int := 0x8000_0000

  /** ECMAScript ToInt32. */
  function ToInt32(x: int): (r: int)
    ensures -Two31 <= r < Two31
    ensures (x - r) % Two32 == 0
  {
    var m := x % Two32;
    if m >= Two31 then m - Two32 else m
  }

  lemma ToInt32Congruent(x: int, y: int)
    requires (x - y) % Two32 == 0
    ensures ToInt32(x) == ToInt32(y)
  {
    var k := (x - y) / Two32;
    assert x == y + k * Two32;
    ModShift(y, k);
  }

  lemma {:induction false} ModShift(y: int, k: int)
    ensures (y + k * Two32) % Two32 == y % Two32
    decreases if k < 0 then -k else k
  {
    if k > 0 {
      ModShift(y, k - 1);
      assert y + k * Two32 == (y + (k - 1) * Two32) + Two32;
    } else if k < 0 {
      ModShift(y, k + 1);
      assert y + k * Two32 == (y + (k + 1) * Two32) - Two32;
    }
  }

  lemma MultipleScaled(a: int, c: int)
    requires a % Two32 == 0
    ensures (c * a) % Two32 == 0
  {
    var k := a / Two32;
    assert a == k * Two32;
    assert c * a == (c * k) * Two32;
    ModShift(0, c * k);
  }

  /** One step of the loop: `h = c + ((h << 5) - h); h = h & h`. */
  function HashStep(h: int, c: int): int {
    ToInt32(c + (ToInt32(h * 32) - h))
  }

  /** The hash of the source, character code by character code, as the
      recurrence h := h * 31 + code taken modulo 2^32 (signed). */
  function Hash(s: string): (h: int)
    ensures -Two31 <= h < Two31
  {
    if s == [] then 0 else ToInt32(31 * Hash(s[..|s| - 1]) + s[|s| - 1] as int)
  }

  /** The same polynomial with unbounded integers. */
  function Poly(s: string): int {
    if s == [] then 0 else 31 * Poly(s[..|s| - 1]) + s[|s| - 1] as int
  }

  /** `(h << 5) - h` wraps only in the shift, and that wrap does not change
      the result modulo 2^32. */
  lemma HashStepIsRecurrence(h: int, c: int)
    ensures HashStep(h, c) == ToInt32(31 * h + c)
  {
    var w := ToInt32(h * 32);
    assert (c + (w - h)) - (31 * h + c) == -(h * 32 - w);
    MultipleScaled(h * 32 - w, -1);
    ToInt32Congruent(c + (w - h), 31 * h + c);
  }

  /** The wrapped hash agrees with the unbounded polynomial modulo 2^32. */
  lemma {:induction false} HashIsPolyMod(s: string)
    ensures (Hash(s) - Poly(s)) % Two32 == 0
    decreases |s|
  {
    if s != [] {
      var p := s[..|s| - 1];
      var c := s[|s| - 1] as int;
      HashIsPolyMod(p);
      MultipleScaled(Hash(p) - Poly(p), 31);
      var x := 31 * Hash(p) + c;
      assert (x - ToInt32(x)) % Two32 == 0;
      assert Hash(s) - Poly(s) == -(x - ToInt32(x)) + 31 * (Hash(p) - Poly(p));
      MultipleScaled(x - ToInt32(x), -1);
      ModSum(-(x - ToInt32(x)), 31 * (Hash(p) - Poly(p)));
    }
  }

  lemma ModSum(a: int, b: int)
    requires a % Two32 == 0 && b % Two32 == 0
    ensures (a + b) % Two32 == 0
  {
    var k := b / Two32;
    assert b == k * Two32;
    ModShift(a, k);
  }

  /** The loop of the source over the character codes. */
  method HashOf(str: string) returns (hash: int)
    ensures hash == Hash(str)
  {
    hash := 0;
    for i := 0 to |str|
      invariant hash == Hash(str[..i])
    {
      assert str[..i + 1][..i] == str[..i];
      HashStepIsRecurrence(hash, str[i] as int);
      hash := str[i] as int + (ToInt32(hash * 32) - hash);
      hash := ToInt32(hash);
    }
    assert str[..|str|] == str;
  }

  // ---------------------------------------------------------------------
  // Hexadecimal digits

  function HexDigit(d: nat): (c: char)
    requires d < 16
    ensures IsHexDigit(c)
  {
    "0123456789abcdef"[d]
  }

  predicate IsHexDigit(c: char) {
    ('0' <= c <= '9') || ('a' <= c <= 'f')
  }

  function HexValue(c: char): nat {
    if '0' <= c <= '9' then (c as int) - ('0' as int)
    else if 'a' <= c <= 'f' then (c as int) - ('a' as int) + 10
    else 0
  }

  lemma HexDigitValue(d: nat)
    requires d < 16
    ensures HexValue(HexDigit(d)) == d
  {
  }

  /** Number.prototype.toString(16) for a non-negative integer. */
  function ToHex(v: nat): (r: string)
    ensures |r| >= 1
    decreases v
  {
    if v < 16 then [HexDigit(v)] else ToHex(v / 16) + [HexDigit(v % 16)]
  }

  /** ('00' + value.toString(16)).substr(-2) */
  function Pad2(v: nat): string {
    var s := "00" + ToHex(v);
    s[|s| - 2..]
  }

  /** A byte is padded to exactly its two hex digits, high digit first. */
  lemma Pad2Byte(v: nat)
    requires v < 256
    ensures Pad2(v) == [HexDigit(v / 16), HexDigit(v % 16)]
  {
    if v >= 16 {
      assert ToHex(v / 16) == [HexDigit(v / 16)];
    }
  }

  function ParseHex2(s: string): nat
    requires |s| == 2
  {
    16 * HexValue(s[0]) + HexValue(s[1])
  }

  lemma Pad2RoundTrip(v: nat)
    requires v < 256
    ensures |Pad2(v)| == 2 && IsHexDigit(Pad2(v)[0]) && IsHexDigit(Pad2(v)[1])
    ensures ParseHex2(Pad2(v)) == v
  {
    Pad2Byte(v);
    HexDigitValue(v / 16);
    HexDigitValue(v % 16);
  }

  // ---------------------------------------------------------------------
  // randomColorFromString

  /** `(hash >> (j * 8)) & 255`: byte j of the two's-complement word. */
  function Byte(hash: int, j: nat): (b: nat)
    requires j < 3
    ensures b < 256
  {
    var shifted := hash / (if j == 0 then 1 else if j == 1 then 256 else 65536);
    shifted % 256
  }

  /** '#' followed by the padded bytes 0 .. n-1: the string the second loop
      has built after n turns. */
  function Pads(hash: int, n: nat): string
    requires n <= 3
  {
    if n == 0 then "#" else Pads(hash, n - 1) + Pad2(Byte(hash, n - 1))
  }

  /** randomColorFromString(str) */
  function ColorFromString(str: string): string {
    if |str| == 0 then "0" else Pads(Hash(str), 3)
  }

  method RandomColorFromString(str: string) returns (color: string)
    ensures color == ColorFromString(str)
  {
    var hash := HashOf(str);
    if |str| == 0 {
      return "0";
    }
    color := "#";
    for j := 0 to 3
      invariant color == Pads(hash, j)
    {
      var value := (if j == 0 then hash else if j == 1 then hash / 256 else hash / 65536) % 256;
      color := color + Pad2(value);
    }
  }

  /** The colour of a non-empty string is '#' and six lowercase hex digits,
      the low byte of the hash first; the empty string gives "0". */
  lemma ColorFromStringShape(str: string)
    ensures str == [] ==> ColorFromString(str) == "0"
    ensures str != [] ==> (
      var r := ColorFromString(str);
      |r| == 7 && r[0] == '#' && (forall i :: 1 <= i < 7 ==> IsHexDigit(r[i])) &&
      ParseHex2(r[1..3]) == Byte(Hash(str), 0) &&
      ParseHex2(r[3..5]) == Byte(Hash(str), 1) &&
      ParseHex2(r[5..7]) == Byte(Hash(str), 2))
  {
    if str != [] {
      var h := Hash(str);
      Pad2RoundTrip(Byte(h, 0));
      Pad2RoundTrip(Byte(h, 1));
      Pad2RoundTrip(Byte(h, 2));
      var r := ColorFromString(str);
      assert Pads(h, 1) == "#" + Pad2(Byte(h, 0));
      assert Pads(h, 2) == "#" + Pad2(Byte(h, 0)) + Pad2(Byte(h, 1));
      assert r == "#" + Pad2(Byte(h, 0)) + Pad2(Byte(h, 1)) + Pad2(Byte(h, 2));
      assert r[1..3] == Pad2(Byte(h, 0));
      assert r[3..5] == Pad2(Byte(h, 1));
      assert r[5..7] == Pad2(Byte(h, 2));
    }
  }

  /** The three bytes are the low 24 bits of the wrapped hash. */
  lemma BytesOfWord(h: int)
    ensures Byte(h, 0) + 256 * Byte(h, 1) + 65536 * Byte(h, 2) == h % 0x100_0000
  {
    var q0 := h / 256;
    var q1 := q0 / 256;
    var q2 := q1 / 256;
    assert h == 256 * q0 + h % 256;
    assert q0 == 256 * q1 + q0 % 256;
    assert q1 == 256 * q2 + q1 % 256;
    var low := h % 256 + 256 * (q0 % 256);
    assert h == 65536 * q1 + low && 0 <= low < 65536;
    assert h / 65536 == q1;
    var sum := low + 65536 * (q1 % 256);
    assert h == 0x100_0000 * q2 + sum && 0 <= sum < 0x100_0000;
  }

  /** Those bits do not depend on the wrap-around: they are the low 24 bits
      of the unbounded polynomial. */
  lemma BytesOfHash(str: string)
    ensures Byte(Hash(str), 0) + 256 * Byte(Hash(str), 1) + 65536 * Byte(Hash(str), 2) == Poly(str) % 0x100_0000
  {
    var h := Hash(str);
    HashIsPolyMod(str);
    BytesOfWord(h);
    var k := (Poly(str) - h) / Two32;
    assert Poly(str) - h == k * Two32;
    assert Poly(str) == h + (k * 256) * 0x100_0000;
    Mod24Shift(h, k * 256);
  }

  lemma {:induction false} Mod24Shift(y: int, k: int)
    ensures (y + k * 0x100_0000) % 0x100_0000 == y % 0x100_0000
    decreases if k < 0 then -k else k
  {
    if k > 0 {
      Mod24Shift(y, k - 1);
      assert y + k * 0x100_0000 == (y + (k - 1) * 0x100_0000) + 0x100_0000;
    } else if k < 0 {
      Mod24Shift(y, k + 1);
      assert y + k * 0x100_0000 == (y + (k + 1) * 0x100_0000) - 0x100_0000;
    }
  }

  // ---------------------------------------------------------------------
  // randomColorFromList, randomColor

  /** JavaScript's `%`, whose remainder takes the sign of the dividend. */
  function JsRem(a: int, n: int): (r: int)
    requires n > 0
    ensures a >= 0 ==> 0 <= r < n
    ensures a < 0 ==> -n < r <= 0
  {
    if a >= 0 then a % n else -((-a) % n)
  }

  /** `((index % n) + n) % n` is the Euclidean remainder. */
  lemma NormalizedIndex(a: int, n: int)
    requires n > 0
    ensures JsRem(JsRem(a, n) + n, n) == a % n
  {
    if a < 0 {
      var q := (-a) / n;
      var m := (-a) % n;
      assert -a == q * n + m;
      if m == 0 {
        ModUnique(n, n, 1, 0);
        assert a == (-q) * n + 0;
        ModUnique(a, n, -q, 0);
      } else {
        ModUnique(n - m, n, 0, n - m);
        assert (-q - 1) * n == -(q * n) - n;
        ModUnique(a, n, -q - 1, n - m);
      }
    } else {
      ModUnique(a % n + n, n, 1, a % n);
    }
  }

  /** The remainder is the m with x == q * n + m and 0 <= m < n. */
  lemma ModUnique(x: int, n: int, q: int, m: int)
    requires n > 0 && x == q * n + m && 0 <= m < n
    ensures x % n == m
  {
    var q' := x / n;
    assert x == q' * n + x % n;
    assert (q - q') * n == x % n - m;
    SmallMultiple(q - q', n);
  }

  lemma SmallMultiple(k: int, n: int)
    requires n > 0 && -n < k * n < n
    ensures k == 0
  {
    MulBounds(k, n);
  }

  lemma {:induction false} MulBounds(k: int, n: int)
    requires n > 0
    ensures k >= 1 ==> k * n >= n
    ensures k <= -1 ==> k * n <= -n
    decreases if k < 0 then -k else k
  {
    if k > 1 {
      MulBounds(k - 1, n);
      assert k * n == (k - 1) * n + n;
    } else if k < -1 {
      MulBounds(k + 1, n);
      assert k * n == (k + 1) * n - n;
    }
  }

  /** list[i], undefined past the end. */
  function At(list: seq<string>, i: int): Option<string> {
    if 0 <= i < |list| then Some(list[i]) else None
  }

  /** randomColorFromList(str, list); None stands for undefined, which an
      empty list gives (`% 0` is NaN). */
  function ColorFromList(str: string, list: seq<string>): Option<string> {
    if |str| == 0 then At(list, 0)
    else if |list| == 0 then None
    else At(list, JsRem(JsRem(Hash(str), |list|) + |list|, |list|))
  }

  method RandomColorFromList(str: string, list: seq<string>) returns (r: Option<string>)
    ensures r == ColorFromList(str, list)
  {
    var index := 0;
    if |str| == 0 {
      return At(list, 0);
    }
    index := HashOf(str);
    if |list| == 0 {
      return None;
    }
    index := JsRem(JsRem(index, |list|) + |list|, |list|);
    r := At(list, index);
  }

  /** A non-empty list always yields one of its elements: list[0] for the
      empty string, and otherwise the element at the hash modulo the length. */
  lemma ColorFromListPicks(str: string, list: seq<string>)
    requires |list| > 0
    ensures ColorFromList(str, list).Some? && ColorFromList(str, list).value in list
    ensures str == [] ==> ColorFromList(str, list) == Some(list[0])
    ensures str != [] ==> ColorFromList(str, list) == Some(list[Hash(str) % |list|])
  {
    NormalizedIndex(Hash(str), |list|);
  }

  /** The options of randomColor; None for a key that is absent. */
  datatype RandomColorOptions = RandomColorOptions(str: Option<string>, colors: Option<seq<string>>)

  /** randomFromList(list) with its random index `pick`, which
      Math.floor(Math.random() * list.length) keeps below the length. */
  function RandomFromList(list: seq<string>, pick: nat): (r: Option<string>)
    requires |list| > 0 ==> pick < |list|
    ensures r.Some? <==> |list| > 0
    ensures r.Some? ==> r.value in list
  {
    At(list, pick)
  }

  predicate HasString(o: RandomColorOptions) { o.str.Some? && o.str.value != "" }

  /** randomColor(opts); `fallback` is the random colour tinycolor makes and
      `pick` the random index of randomFromList. */
  function RandomColor(opts: Option<RandomColorOptions>, fallback: string, pick: nat): (r: Option<string>)
    requires opts.Some? && opts.value.colors.Some? && |opts.value.colors.value| > 0 ==> pick < |opts.value.colors.value|
    ensures opts.None? || opts.value == RandomColorOptions(None, None) ==> r == Some(fallback)
    ensures opts.Some? && HasString(opts.value) && opts.value.colors.Some? ==>
      r == ColorFromList(opts.value.str.value, opts.value.colors.value)
    ensures opts.Some? && HasString(opts.value) && opts.value.colors.None? ==>
      r == Some(ColorFromString(opts.value.str.value))
    ensures opts.Some? && !HasString(opts.value) && opts.value.colors.Some? ==>
      r == RandomFromList(opts.value.colors.value, pick)
    ensures opts.Some? && !HasString(opts.value) && opts.value.colors.None? ==> r == Some(fallback)
  {
    if opts.None? || opts.value == RandomColorOptions(None, None) then Some(fallback)
    else
      var o := opts.value;
      if HasString(o) && o.colors.Some? then ColorFromList(o.str.value, o.colors.value)
      else if HasString(o) then Some(ColorFromString(o.str.value))
      else if o.colors.Some? then RandomFromList(o.colors.value, pick)
      else Some(fallback)
  }
}
