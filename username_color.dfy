/**
 * The client's avatar colouring: a rolling hash over a username's UTF-16
 * code units, reduced to an index into a fixed palette of 20 colours.
 *
 * JavaScript numbers are doubles. The shift `hash << 5` first converts its
 * operand to a signed 32-bit integer (ToInt32) and wraps its result to one,
 * but the subtraction and addition around it are plain double arithmetic,
 * which is exact integer arithmetic as long as every value stays within
 * 2^53 - 1 in magnitude. The model uses unbounded integers with an explicit
 * ToInt32, and the length bound MaxExactUnits keeps every intermediate
 * hash within that exact range.
 */
module UsernameColor {
  import opened JsText

  const TwoTo31: int := 0x8000_0000
  const TwoTo32: int := 0x1_0000_0000

  /** Number.MAX_SAFE_INTEGER: up to here every integer is a double. */
  const MaxSafeInteger: int := 0x1F_FFFF_FFFF_FFFF

  /** How far one hash step can move the hash away from zero. */
  const StepGrowth: int := TwoTo31 + 0xFFFF

  /** Names of at most this many code units hash without any rounding. */
  const MaxExactUnits: int := 0x20_0000

  /** The fixed colour palette, in order. */
  const Palette: seq<string> := [
    "#FFB6C1", "#ADD8E6", "#90EE90", "#FFD700", "#FFA07A",
    "#E0FFFF", "#D8BFD8", "#F0E68C", "#FFDEAD", "#F5DEB3",
    "#FF69B4", "#87CEFA", "#98FB98", "#DAA520", "#FF6347",
    "#AFEEEE", "#BA55D3", "#EEE8AA", "#FFA500", "#B0C4DE"
  ]

  /** Math.abs on an integer. */
  function Abs(x: int): nat {
    if x < 0 then -x else x
  }

  /** The ECMAScript ToInt32 conversion of an integral number: the signed
      32-bit integer congruent to it modulo 2^32. */
  function ToInt32(x: int): (r: int)
    ensures -TwoTo31 <= r < TwoTo31
    ensures (x - r) % TwoTo32 == 0
    ensures -TwoTo31 <= x < TwoTo31 ==> r == x
  {
    var m := x % TwoTo32;
    if m >= TwoTo31 then m - TwoTo32 else m
  }

  /** `h << 5`: ToInt32 of the operand, shifted, wrapped to 32 bits again.
      The result is 32 * h modulo 2^32, as a signed 32-bit integer. */
  function ShiftLeft5(h: int): (r: int)
    ensures -TwoTo31 <= r < TwoTo31
    ensures (32 * h - r) % TwoTo32 == 0
  {
    var a := ToInt32(h);
    var r := ToInt32(a * 32);
    MultipleOfWord(32, h - a);
    SumOfMultiples(32 * (h - a), 32 * a - r);
    assert 32 * h - r == 32 * (h - a) + (32 * a - r);
    r
  }

  lemma MultipleOfWord(k: int, x: int)
    requires x % TwoTo32 == 0
    ensures (k * x) % TwoTo32 == 0
  {
    var q := x / TwoTo32;
    assert x == q * TwoTo32;
    assert k * x == (k * q) * TwoTo32;
  }

  lemma SumOfMultiples(x: int, y: int)
    requires x % TwoTo32 == 0 && y % TwoTo32 == 0
    ensures (x + y) % TwoTo32 == 0
  {
    var a, b := x / TwoTo32, y / TwoTo32;
    assert x == a * TwoTo32 && y == b * TwoTo32;
    assert x + y == (a + b) * TwoTo32;
  }

  /** One iteration of the loop: `hash = c + ((hash << 5) - hash)`. Modulo
      2^32 this is the polynomial step 31 * hash + c, and it moves the hash
      at most StepGrowth away from where it was. */
  function Step(h: int, c: CodeUnit): (r: int)
    ensures (r - (31 * h + c)) % TwoTo32 == 0
    ensures Abs(r) <= Abs(h) + StepGrowth
  {
    var s := ShiftLeft5(h);
    MultipleOfWord(-1, 32 * h - s);
    assert (c + (s - h)) - (31 * h + c) == -1 * (32 * h - s);
    c + (s - h)
  }

  /** The hash after the loop has consumed `units`, one step per code unit,
      last unit last. */
  function Hash(units: seq<CodeUnit>): int {
    if units == [] then 0
    else Step(Hash(units[..|units| - 1]), units[|units| - 1])
  }

  /** The same loop written as a left fold from an initial hash `h`. */
  function HashFrom(h: int, units: seq<CodeUnit>): int
    decreases |units|
  {
    if units == [] then h else HashFrom(Step(h, units[0]), units[1..])
  }

  lemma {:induction false} HashFromSnoc(h: int, units: seq<CodeUnit>, c: CodeUnit)
    ensures HashFrom(h, units + [c]) == Step(HashFrom(h, units), c)
    decreases |units|
  {
    if units != [] {
      assert (units + [c])[1..] == units[1..] + [c];
      HashFromSnoc(Step(h, units[0]), units[1..], c);
    }
  }

  /** The hash is the left fold of the step over the code units, from 0. */
  lemma {:induction false} HashIsLeftFold(units: seq<CodeUnit>)
    ensures Hash(units) == HashFrom(0, units)
  {
    if units != [] {
      var init := units[..|units| - 1];
      HashIsLeftFold(init);
      HashFromSnoc(0, init, units[|units| - 1]);
      assert init + [units[|units| - 1]] == units;
    }
  }

  /** The polynomial hash the loop approximates: each code unit weighted by
      31 to the power of the number of units after it. */
  function PolynomialHash(units: seq<CodeUnit>): int {
    if units == [] then 0
    else 31 * PolynomialHash(units[..|units| - 1]) + units[|units| - 1]
  }

  /** The shift-and-subtract hash agrees with the polynomial hash modulo 2^32. */
  lemma {:induction false} HashMatchesPolynomial(units: seq<CodeUnit>)
    ensures (Hash(units) - PolynomialHash(units)) % TwoTo32 == 0
  {
    if units != [] {
      var init, c := units[..|units| - 1], units[|units| - 1];
      var h, p := Hash(init), PolynomialHash(init);
      HashMatchesPolynomial(init);
      MultipleOfWord(31, h - p);
      SumOfMultiples(Step(h, c) - (31 * h + c), 31 * (h - p));
      assert Hash(units) - PolynomialHash(units) == (Step(h, c) - (31 * h + c)) + 31 * (h - p);
    }
  }

  /** After n code units the hash is at most n * StepGrowth in magnitude. */
  lemma {:induction false} HashBound(units: seq<CodeUnit>)
    ensures Abs(Hash(units)) <= |units| * StepGrowth
  {
    if units != [] {
      var n := |units|;
      var h := Hash(units[..n - 1]);
      HashBound(units[..n - 1]);
      assert Abs(h) <= (n - 1) * StepGrowth;
      assert Abs(Hash(units)) <= Abs(h) + StepGrowth;
      assert (n - 1) * StepGrowth + StepGrowth == n * StepGrowth;
    }
  }

  /** Within MaxExactUnits code units the hash is a safe integer, so the
      double arithmetic of the source computes it exactly. */
  lemma HashIsSafe(units: seq<CodeUnit>)
    requires |units| <= MaxExactUnits
    ensures Abs(Hash(units)) <= MaxSafeInteger
  {
    HashBound(units);
    assert |units| * StepGrowth <= MaxExactUnits * StepGrowth;
  }

  /** The intermediate value `(hash << 5) - hash` of the next step is a safe
      integer too, so the subtraction is exact as well. */
  lemma ShiftedDifferenceIsSafe(units: seq<CodeUnit>)
    requires |units| < MaxExactUnits
    ensures Abs(ShiftLeft5(Hash(units)) - Hash(units)) <= MaxSafeInteger
  {
    HashBound(units);
    assert |units| * StepGrowth <= (MaxExactUnits - 1) * StepGrowth;
  }

  /** `Math.abs(hash) % usernameColors.length`: always a palette index. */
  function ColorIndex(units: seq<CodeUnit>): (i: nat)
    ensures i < |Palette|
    ensures units == [] ==> i == 0
  {
    Abs(Hash(units)) % |Palette|
  }

  /** getUsernameColor. A JavaScript string is a sequence of UTF-16 code
      units (`Utf16` gives them for a Dafny string); the loop hashes them in
      order and the hash selects the palette entry. */
  method GetUsernameColor(username: seq<CodeUnit>) returns (color: string)
    requires |username| <= MaxExactUnits
    ensures color in Palette
    ensures color == Palette[ColorIndex(username)]
    ensures username == [] ==> color == "#FFB6C1"
  {
    var hash := 0;
    for i := 0 to |username|
      invariant hash == Hash(username[..i])
      invariant Abs(hash) <= MaxSafeInteger
    {
      assert username[..i + 1][..i] == username[..i];
      ShiftedDifferenceIsSafe(username[..i]);
      hash := username[i] + (ShiftLeft5(hash) - hash);
      HashIsSafe(username[..i + 1]);
    }
    assert username[..|username|] == username;
    var index := Abs(hash) % |Palette|;
    color := Palette[index];
  }

  /** Colouring the same name twice gives the same colour. */
  method SameNameSameColor(username: seq<CodeUnit>) returns (first: string, second: string)
    requires |username| <= MaxExactUnits
    ensures first == second
  {
    first := GetUsernameColor(username);
    second := GetUsernameColor(username);
  }

  /** The colour of a name held as a Dafny string: the colour of its UTF-16
      code units, which is what the JavaScript string holds. */
  method ColorOfName(name: string) returns (color: string)
    requires |name| <= MaxExactUnits / 2
    ensures color in Palette
    ensures color == Palette[ColorIndex(Utf16(name))]
  {
    color := GetUsernameColor(Utf16(name));
  }
}
