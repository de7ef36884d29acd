/**
 * The article colour picker (src/lib/colors.ts): a 32-bit string hash in the
 * style of Java's `String.hashCode`, made non-negative, plus the article's list
 * position, reduced modulo the palette size.
 */
module Colors {
  import opened Wrappers

  datatype Color = Color(bg: string, sidebar: string)

  const PALETTE: seq<Color> := [
    Color("#9B4D3A", "rgba(80,30,20,0.45)"),
    Color("#1E3A2F", "rgba(10,30,22,0.45)"),
    Color("#2D2640", "rgba(20,16,35,0.45)"),
    Color("#3A5A6E", "rgba(25,45,58,0.45)"),
    Color("#5C4033", "rgba(45,28,18,0.45)"),
    Color("#2E4A3E", "rgba(18,35,28,0.45)"),
    Color("#4A3B5C", "rgba(35,25,48,0.45)"),
    Color("#6B4E3D", "rgba(55,35,25,0.45)"),
    Color("#2B3D50", "rgba(15,28,42,0.45)"),
    Color("#8B5E3C", "rgba(70,42,22,0.45)"),
    Color("#3D5C4A", "rgba(25,45,32,0.45)"),
    Color("#5A3D4A", "rgba(45,25,35,0.45)"),
    Color("#4E6B5A", "rgba(32,55,40,0.45)"),
    Color("#704A3A", "rgba(58,32,22,0.45)"),
    Color("#384858", "rgba(22,32,45,0.45)"),
    Color("#C25D40", "rgba(100,38,24,0.45)"),
    Color("#2A4A4A", "rgba(15,38,38,0.45)"),
    Color("#5C5040", "rgba(45,38,28,0.45)"),
    Color("#3A2E4E", "rgba(25,18,40,0.45)"),
    Color("#6E4A5A", "rgba(55,32,42,0.45)"),
    Color("#445E3E", "rgba(28,48,25,0.45)"),
    Color("#5E3A28", "rgba(48,22,12,0.45)"),
    Color("#304060", "rgba(18,28,50,0.45)"),
    Color("#7A5548", "rgba(62,38,30,0.45)"),
    Color("#3E5050", "rgba(25,40,40,0.45)"),
    Color("#8A6040", "rgba(70,42,25,0.45)"),
    Color("#4A5A3A", "rgba(32,45,22,0.45)"),
    Color("#504058", "rgba(38,28,45,0.45)"),
    Color("#6A4840", "rgba(54,30,25,0.45)"),
    Color("#385048", "rgba(22,40,32,0.45)"),
    Color("#5A4A38", "rgba(45,35,22,0.45)")
  ]

  lemma PaletteSize()
    ensures |PALETTE| == 31
  {
  }

  const TwoTo31: int := 0x8000_0000
  const TwoTo32: int := 0x1_0000_0000

  predicate IsInt32(x: int) {
    -TwoTo31 <= x < TwoTo31
  }

  /** JavaScript's ToInt32 (what `x | 0` and the operand of `<<` go through): signed wrap modulo 2^32. */
  function ToInt32(x: int): (r: int)
    ensures IsInt32(r)
    ensures (x - r) % TwoTo32 == 0
  {
    var m := x % TwoTo32;
    if m >= TwoTo31 then m - TwoTo32 else m
  }

  /** ToInt32 sees only the value modulo 2^32. */
  lemma ToInt32Congruent(x: int, y: int)
    requires (x - y) % TwoTo32 == 0
    ensures ToInt32(x) == ToInt32(y)
  {
    var q := (x - y) / TwoTo32;
    assert x == y + q * TwoTo32;
    ModShift(y, q);
  }

  lemma ModShift(y: int, q: int)
    ensures (y + q * TwoTo32) % TwoTo32 == y % TwoTo32
  {
  }

  /** The code of a character; `charCodeAt` gives the same for every character of the Basic Multilingual Plane. */
  function CodeOf(c: char): int {
    c as int
  }

  /** The hash recurrence h := ToInt32(31 * h + code), from 0, over the characters in order. */
  function HashRaw(s: string): (h: int)
    ensures IsInt32(h)
  {
    if s == [] then 0 else ToInt32(31 * HashRaw(s[..|s| - 1]) + CodeOf(s[|s| - 1]))
  }

  function Abs(x: int): int {
    if x < 0 then -x else x
  }

  /** hashString as a value: the absolute value of the wrapped hash. */
  function Hash(s: string): (h: nat)
    ensures h <= TwoTo31
    ensures s == [] ==> h == 0
  {
    Abs(HashRaw(s))
  }

  /** One round of the loop body, `((hash << 5) - hash) + char` then `| 0`, is the recurrence step. */
  lemma ShiftStep(h: int, c: int)
    requires IsInt32(h)
    ensures ToInt32(ToInt32(h * 32) - h + c) == ToInt32(31 * h + c)
  {
    var s := ToInt32(h * 32);
    var q := (h * 32 - s) / TwoTo32;
    assert h * 32 - s == q * TwoTo32;
    assert (s - h + c) - (31 * h + c) == -(q * TwoTo32);
    NegMultiple(q);
    ToInt32Congruent(s - h + c, 31 * h + c);
  }

  lemma NegMultiple(q: int)
    ensures (-(q * TwoTo32)) % TwoTo32 == 0
  {
    assert -(q * TwoTo32) == (-q) * TwoTo32;
  }

  /** hashString, as the source writes it. */
  method HashString(str: string) returns (h: int)
    ensures h == Hash(str)
    ensures 0 <= h <= TwoTo31
  {
    var hash := 0;
    for i := 0 to |str|
      invariant hash == HashRaw(str[..i])
    {
      var c := CodeOf(str[i]);
      assert str[..i + 1][..i] == str[..i];
      ShiftStep(hash, c);
      hash := ToInt32(ToInt32(hash * 32) - hash + c);
    }
    assert str[..|str|] == str;
    h := Abs(hash);
  }

  /**
   * The bound 2^31 is reached: the running hash of this ASCII string is
   * exactly 2^31 before the last wrap, which turns it into -2^31, and the
   * absolute value of that is 2^31.
   */
  lemma HashReachesTwoTo31()
    ensures Hash("HZdZH@") == TwoTo31
  {
    var s := "HZdZH@";
    assert s[..1] == "H" && s[..1][..0] == [];
    assert s[..2][..1] == s[..1] && s[..3][..2] == s[..2] && s[..4][..3] == s[..3];
    assert s[..5][..4] == s[..4] && s[..6] == s && s[..6][..5] == s[..5];
    assert HashRaw(s[..1]) == 72;
    assert HashRaw(s[..2]) == 2322;
    assert HashRaw(s[..3]) == 72082;
    assert HashRaw(s[..4]) == 2234632;
    assert HashRaw(s[..5]) == 69273664;
    assert HashRaw(s) == -TwoTo31;
  }

  /** JavaScript's `%`: the remainder takes the sign of the dividend. */
  function JsRem(a: int, b: int): (r: int)
    requires b > 0
    ensures a >= 0 ==> 0 <= r < b && r == a % b
    ensures a < 0 ==> -b < r <= 0
  {
    if a >= 0 then a % b else -((-a) % b)
  }

  /**
   * getColorForPodcast: palette entry number (hash + index) % 31. A negative sum
   * with a non-zero remainder indexes outside the array (`undefined`).
   */
  function GetColorForPodcast(id: string, index: int): (r: Option<Color>)
    ensures index >= 0 ==> r == Some(PALETTE[(Hash(id) + index) % |PALETTE|])
    ensures r.Some? ==> r.value in PALETTE
  {
    var idx := JsRem(Hash(id) + index, |PALETTE|);
    if 0 <= idx < |PALETTE| then Some(PALETTE[idx]) else None
  }

  /** Articles 31 positions apart get the same colour. */
  lemma ColorPeriodic(id: string, index: nat)
    ensures GetColorForPodcast(id, index + 31) == GetColorForPodcast(id, index)
  {
    PaletteSize();
    var a := Hash(id) + index;
    assert (a + 31) % 31 == a % 31;
  }

  /** A negative position can push the sum below zero, where the lookup misses. */
  lemma NegativeIndexMisses(id: string, index: int)
    requires Hash(id) + index < 0 && (Hash(id) + index) % 31 != 0
    ensures GetColorForPodcast(id, index).None?
  {
    PaletteSize();
    var a := Hash(id) + index;
    assert JsRem(a, 31) < 0;
  }
}
