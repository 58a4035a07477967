/** The wallet's amount formatter and parser (BitcoinUnits): the three display
    units and their scaling, the fixed-point rendering of an amount with an
    optional sign and thin-space digit grouping, and the parser that reads
    such text back. An amount (CAmount) is a signed 64-bit count of the
    smallest unit. */
module BitcoinUnits {
  import opened Common

  /** BitcoinUnits::Unit */
  const LENO: int := 0
  const mLENO: int := 1
  const uLENO: int := 2

  const INT64_MIN: int64 := -0x8000_0000_0000_0000

  /** THIN_SP_CP: U+2009 THIN SPACE. */
  const THIN_SP: char := '\U{2009}'

  datatype SeparatorStyle = SeparatorNever | SeparatorStandard | SeparatorAlways

  // ---------------------------------------------------------------------------
  // Units

  /** availableUnits */
  function AvailableUnits(): (units: seq<int>)
    ensures |units| == 3 && forall i, j :: 0 <= i < j < |units| ==> units[i] != units[j]
  {
    [LENO, mLENO, uLENO]
  }

  /** valid */
  predicate IsValid(unit: int) {
    unit == LENO || unit == mLENO || unit == uLENO
  }

  /** The units that are valid are exactly those availableUnits lists. */
  lemma ValidIffAvailable(unit: int)
    ensures IsValid(unit) <==> unit in AvailableUnits()
  {
  }

  /** id: the unit's settings identifier. */
  function Id(unit: int): (s: string)
    ensures IsValid(unit) <==> s != "???"
  {
    if unit == LENO then "lenocore"
    else if unit == mLENO then "mlenocore"
    else if unit == uLENO then "ulenocore"
    else "???"
  }

  /** name: the unit's symbol, with a "t" on networks other than the main
      network. */
  function Name(unit: int, mainNet: bool): (s: string)
    ensures IsValid(unit) <==> s != "???"
    ensures ' ' !in s
  {
    if mainNet then
      if unit == LENO then "LENO"
      else if unit == mLENO then "mLENO"
      else if unit == uLENO then "\U{03BC}LENO"
      else "???"
    else
      if unit == LENO then "tLENO"
      else if unit == mLENO then "mtLENO"
      else if unit == uLENO then "\U{03BC}tLENO"
      else "???"
  }

  /** On either network the three units have three different ids and names. */
  lemma UnitsDistinguishable(a: int, b: int, mainNet: bool)
    requires IsValid(a) && IsValid(b) && a != b
    ensures Id(a) != Id(b) && Name(a, mainNet) != Name(b, mainNet)
  {
    assert "LENO"[0] != "mLENO"[0] && "LENO"[0] != "\U{03BC}LENO"[0] && "mLENO"[0] != "\U{03BC}LENO"[0];
    assert "tLENO"[0] != "mtLENO"[0] && "tLENO"[0] != "\U{03BC}tLENO"[0] && "mtLENO"[0] != "\U{03BC}tLENO"[0];
    assert "lenocore"[0] != "mlenocore"[0] && "lenocore"[0] != "ulenocore"[0] && "mlenocore"[0] != "ulenocore"[0];
  }

  function Pow10(k: nat): (r: nat)
    ensures r >= 1
  {
    if k == 0 then 1 else 10 * Pow10(k - 1)
  }

  /** decimals: 8, 5 and 2 for the valid units, 0 otherwise. */
  function Decimals(unit: int): (d: nat)
    ensures IsValid(unit) ==> 2 <= d <= 8
    ensures !IsValid(unit) ==> d == 0
  {
    if unit == LENO then 8
    else if unit == mLENO then 5
    else if unit == uLENO then 2
    else 0
  }

  /** factor: one of the unit in smallest units; an invalid unit is treated
      as the whole coin. */
  function Factor(unit: int): (f: int64)
    ensures IsValid(unit) ==> f == Pow10(Decimals(unit))
    ensures !IsValid(unit) ==> f == Pow10(8)
  {
    if unit == LENO then 100000000
    else if unit == mLENO then 100000
    else if unit == uLENO then 100
    else 100000000
  }

  function Repeat(c: char, k: nat): (s: string)
    ensures |s| == k && forall i :: 0 <= i < k ==> s[i] == c
  {
    seq(k, _ => c)
  }

  /** QString::rightJustified without truncation: fill on the left up to the
      width. */
  function RightJustified(s: string, width: int, fill: char): (r: string)
    ensures |r| == if |s| >= width then |s| else width
    ensures |s| >= width ==> r == s
    ensures |s| < width ==> r[width - |s|..] == s && forall i :: 0 <= i < width - |s| ==> r[i] == fill
  {
    if |s| >= width then s else Repeat(fill, width - |s|) + s
  }

  /** A QString is a sequence of UTF-16 code units: a character outside the
      Basic Multilingual Plane takes two of them, a surrogate pair. */
  predicate IsBmp(c: char) {
    c as int <= 0xFFFF
  }

  /** QString::size of the text: its length in UTF-16 code units. */
  function Utf16Length(s: string): (n: nat)
    ensures |s| <= n <= 2 * |s|
  {
    if s == [] then 0
    else Utf16Length(s[..|s| - 1]) + (if IsBmp(s[|s| - 1]) then 1 else 2)
  }

  lemma {:induction false} Utf16Append(a: string, b: string)
    ensures Utf16Length(a + b) == Utf16Length(a) + Utf16Length(b)
    decreases |b|
  {
    if b == [] {
      assert a + b == a;
    } else {
      assert (a + b)[..|a + b| - 1] == a + b[..|b| - 1];
      Utf16Append(a, b[..|b| - 1]);
    }
  }

  /** Text inside the Basic Multilingual Plane has one code unit per
      character. */
  lemma {:induction false} BmpUtf16(s: string)
    requires forall i :: 0 <= i < |s| ==> IsBmp(s[i])
    ensures Utf16Length(s) == |s|
  {
    if s != [] {
      BmpUtf16(s[..|s| - 1]);
    }
  }

  lemma DigitsUtf16(s: string)
    requires AllDigits(s)
    ensures Utf16Length(s) == |s|
  {
    BmpUtf16(s);
  }

  lemma SignedDigitsUtf16(sign: string, digits: string)
    requires (sign == "" || sign == "-" || sign == "+") && AllDigits(digits)
    ensures Utf16Length(sign + digits) == |sign| + |digits|
  {
    BmpUtf16(sign);
    DigitsUtf16(digits);
    Utf16Append(sign, digits);
  }

  /** QString::leftJustified without truncation: fill on the right until the
      text is `width` code units long. */
  function LeftJustified(s: string, width: int, fill: char): (r: string)
    requires IsBmp(fill)
    ensures Utf16Length(s) >= width ==> r == s
    ensures Utf16Length(s) < width ==>
              && |r| == |s| + (width - Utf16Length(s)) && r[..|s|] == s
              && forall i :: |s| <= i < |r| ==> r[i] == fill
    ensures Utf16Length(r) == if Utf16Length(s) >= width then Utf16Length(s) else width
  {
    if Utf16Length(s) >= width then s
    else
      var z := Repeat(fill, width - Utf16Length(s));
      BmpUtf16(z);
      Utf16Append(s, z);
      s + z
  }

  lemma {:induction false} DecimalAppend(a: string, b: string)
    requires AllDigits(a) && AllDigits(b)
    ensures AllDigits(a + b) && DecimalValue(a + b) == DecimalValue(a) * Pow10(|b|) + DecimalValue(b)
    decreases |b|
  {
    if b == [] {
      assert a + b == a;
    } else {
      var b' := b[..|b| - 1];
      var ab := a + b;
      assert ab[..|ab| - 1] == a + b' && ab[|ab| - 1] == b[|b| - 1];
      DecimalAppend(a, b');
      ShiftDigit(DecimalValue(a), Pow10(|b'|), DecimalValue(b'), b[|b| - 1] as int - '0' as int);
    }
  }

  lemma ShiftDigit(x: int, p: int, y: int, c: int)
    ensures (x * p + y) * 10 + c == x * (10 * p) + (y * 10 + c)
  {
  }

  lemma {:induction false} ZerosValue(k: nat)
    ensures AllDigits(Repeat('0', k)) && DecimalValue(Repeat('0', k)) == 0
  {
    if k > 0 {
      var z := Repeat('0', k);
      assert z[..k - 1] == Repeat('0', k - 1);
      ZerosValue(k - 1);
    }
  }

  lemma {:induction false} DecimalBound(s: string)
    requires AllDigits(s)
    ensures DecimalValue(s) < Pow10(|s|)
  {
    if s != [] {
      DecimalBound(s[..|s| - 1]);
    }
  }

  /** A number below 10^k has at most k digits. */
  lemma {:induction false} DigitsLength(x: nat, k: nat)
    requires k >= 1 && x < Pow10(k)
    ensures |Digits(x)| <= k
  {
    if x >= 10 {
      assert k >= 2;
      DigitsLength(x / 10, k - 1);
    }
  }

  // ---------------------------------------------------------------------------
  // Grouping

  /** Whether m is a whole number of groups of three. */
  predicate Threes(m: nat) {
    if m < 3 then m == 0 else Threes(m - 3)
  }

  /** Each three characters, preceded by a thin space. */
  function Groups(t: string): (r: string)
    requires Threes(|t|)
    ensures 3 * |r| == 4 * |t|
    decreases |t|
  {
    if t == [] then [] else [THIN_SP] + t[..3] + Groups(t[3..])
  }

  /** The quotient with a thin space before each group of three characters
      counted from the right: a head of one to three characters, then groups. */
  function Grouped(d: string): string
    requires |d| >= 1
  {
    GroupedFrom(d, HeadLength(|d|))
  }

  /** d with its characters from m on grouped. */
  function GroupedFrom(d: string, m: nat): string
    requires m <= |d| && Threes(|d| - m)
  {
    d[..m] + Groups(d[m..])
  }

  /** The length of the ungrouped head: one to three characters, leaving a
      multiple of three. */
  function HeadLength(n: nat): (h: nat)
    requires n >= 1
    ensures 1 <= h <= 3 && h <= n && Threes(n - h)
  {
    if n <= 3 then n else HeadLength(n - 3)
  }

  /** Whether format groups a quotient of qSize characters. */
  predicate GroupsDigits(sep: SeparatorStyle, qSize: int) {
    sep == SeparatorAlways || (sep == SeparatorStandard && qSize > 4)
  }

  /** removeSpaces: drops spaces and thin spaces. */
  function RemoveSpaces(s: string): (r: string)
    ensures ' ' !in r && THIN_SP !in r
  {
    if s == [] then []
    else
      var rest := RemoveSpaces(s[1..]);
      if s[0] == ' ' || s[0] == THIN_SP then rest
      else
        assert s == [s[0]] + s[1..];
        [s[0]] + rest
  }

  /** Text without spaces is left as it is. */
  lemma {:induction false} NoSpacesKept(s: string)
    requires ' ' !in s && THIN_SP !in s
    ensures RemoveSpaces(s) == s
  {
    if s != [] {
      assert s == [s[0]] + s[1..];
      NoSpacesKept(s[1..]);
    }
  }

  lemma {:induction false} RemoveSpacesAppend(a: string, b: string)
    ensures RemoveSpaces(a + b) == RemoveSpaces(a) + RemoveSpaces(b)
  {
    if a != [] {
      assert (a + b)[0] == a[0] && (a + b)[1..] == a[1..] + b;
      RemoveSpacesAppend(a[1..], b);
    } else {
      assert a + b == b;
    }
  }

  lemma {:induction false} GroupsStrip(t: string)
    requires Threes(|t|)
    ensures RemoveSpaces(Groups(t)) == RemoveSpaces(t)
    decreases |t|
  {
    if t != [] {
      GroupsStrip(t[3..]);
      RemoveSpacesAppend([THIN_SP] + t[..3], Groups(t[3..]));
      RemoveSpacesAppend([THIN_SP], t[..3]);
      assert t == t[..3] + t[3..];
      RemoveSpacesAppend(t[..3], t[3..]);
    }
  }

  lemma RemoveSpacesSplit(d: string, h: nat)
    requires h <= |d|
    ensures RemoveSpaces(d) == RemoveSpaces(d[..h]) + RemoveSpaces(d[h..])
  {
    assert d == d[..h] + d[h..];
    RemoveSpacesAppend(d[..h], d[h..]);
  }

  /** Grouping inserts nothing but thin spaces: removing them gives back the
      digits. */
  lemma GroupedStrip(d: string)
    requires |d| >= 1
    ensures RemoveSpaces(Grouped(d)) == RemoveSpaces(d)
  {
    var h := HeadLength(|d|);
    RemoveSpacesAppend(d[..h], Groups(d[h..]));
    GroupsStrip(d[h..]);
    RemoveSpacesSplit(d, h);
  }

  lemma TakeParts(d: string, h: nat, k: nat)
    requires h <= k <= |d|
    ensures d[..k][..h] == d[..h] && d[..k][h..] + d[k..] == d[h..]
  {
  }

  lemma Regroup(a: string, b: string, c: string, e: string)
    ensures a + (b + c + e) == a + b + c + e
  {
  }

  /** One more group of three on the right adds a thin space and the group. */
  lemma {:induction false} GroupsSnoc(t: string, x: string)
    requires Threes(|t|) && |x| == 3
    ensures Threes(|t + x|) && Groups(t + x) == Groups(t) + [THIN_SP] + x
    decreases |t|
  {
    if t == [] {
      assert t + x == x && x[..3] == x && x[3..] == [];
    } else {
      GroupsSnoc(t[3..], x);
      assert (t + x)[..3] == t[..3] && (t + x)[3..] == t[3..] + x;
    }
  }

  /** Grouping, read from the right: a quotient of more than three characters
      is its front grouped, a thin space, and its last three characters; a
      shorter one is left as it is. */
  lemma GroupedRight(d: string)
    requires |d| >= 1
    ensures |d| <= 3 ==> Grouped(d) == d
    ensures |d| > 3 ==> Grouped(d) == Grouped(d[..|d| - 3]) + [THIN_SP] + d[|d| - 3..]
  {
    if |d| > 3 {
      var h := HeadLength(|d|);
      var front := d[..|d| - 3];
      var x := d[|d| - 3..];
      TakeParts(d, h, |d| - 3);
      GroupsSnoc(front[h..], x);
      Regroup(d[..h], Groups(front[h..]), [THIN_SP], x);
    } else {
      assert d[..|d|] == d && d[|d|..] == [];
    }
  }

  /** A grouped string of digits starts with its first digit and holds only
      digits and thin spaces. */
  lemma {:induction false} GroupsChars(t: string)
    requires Threes(|t|) && AllDigits(t)
    ensures forall i :: 0 <= i < |Groups(t)| ==> IsDigit(Groups(t)[i]) || Groups(t)[i] == THIN_SP
    decreases |t|
  {
    if t != [] {
      GroupsChars(t[3..]);
      assert Groups(t) == [THIN_SP] + t[..3] + Groups(t[3..]);
    }
  }

  lemma GroupedChars(d: string)
    requires |d| >= 1 && AllDigits(d)
    ensures Grouped(d)[0] == d[0]
    ensures forall i :: 0 <= i < |Grouped(d)| ==> IsDigit(Grouped(d)[i]) || Grouped(d)[i] == THIN_SP
  {
    GroupsChars(d[HeadLength(|d|)..]);
  }

  // ---------------------------------------------------------------------------
  // format

  /** Two's-complement wrap-around into 64 bits. */
  function Wrap64(x: int): (r: int64)
    ensures -0x8000_0000_0000_0000 <= x < 0x8000_0000_0000_0000 ==> r == x
  {
    var m := x % 0x1_0000_0000_0000_0000;
    if m < 0x8000_0000_0000_0000 then m else m - 0x1_0000_0000_0000_0000
  }

  /** n_abs as the source computes it: -n in 64 bits, which wraps for the
      most negative amount. */
  function AsWrittenMagnitude(n: int64): (m: int64)
    ensures n != INT64_MIN ==> m >= 0
  {
    if n > 0 then n else Wrap64(-(n as int))
  }

  /** The magnitude of the amount, which format renders. */
  function Magnitude(n: int64): (m: nat)
    ensures m == if n < 0 then -(n as int) else n
  {
    if n > 0 then n else -(n as int)
  }

  /** The two magnitudes differ only at the most negative amount. */
  lemma MagnitudesAgree(n: int64)
    ensures AsWrittenMagnitude(n) == Magnitude(n) <==> n != INT64_MIN
  {
  }

  /** C++ division and remainder, which truncate toward zero. */
  function TruncDiv(a: int, b: int): int
    requires b > 0
  {
    if a >= 0 then a / b else -((-a) / b)
  }

  function TruncMod(a: int, b: int): int
    requires b > 0
  {
    a - b * TruncDiv(a, b)
  }

  /** On a magnitude they agree with Euclidean division. */
  lemma TruncOfNatural(a: nat, b: int)
    requires b > 0
    ensures TruncDiv(a, b) == a / b && TruncMod(a, b) == a % b
  {
  }

  /** The whole units in the amount's magnitude, and the smallest units left
      over. */
  function WholeUnits(unit: int, n: int64): nat {
    Magnitude(n) / Factor(unit)
  }

  function FractionUnits(unit: int, n: int64): (r: nat)
    ensures r < Factor(unit)
  {
    Magnitude(n) % Factor(unit)
  }

  lemma MagnitudeSplit(unit: int, n: int64)
    ensures WholeUnits(unit, n) * Factor(unit) + FractionUnits(unit, n) == Magnitude(n)
  {
  }

  /** The sign format puts in front: "-" for a negative amount, "+" for a
      positive one when asked, nothing otherwise. */
  function SignText(n: int64, plus: bool): (s: string)
    ensures s == "-" <==> n < 0
    ensures s == "+" <==> plus && n > 0
    ensures s == "" <==> n == 0 || (n > 0 && !plus)
  {
    if n < 0 then "-" else if plus && n > 0 then "+" else ""
  }

  /** The whole part, then ".", then the fraction, unless the unit has no
      decimals. */
  function WithFraction(whole: string, fraction: string, decimals: int): string {
    if decimals <= 0 then whole else whole + "." + fraction
  }

  /** The quotient text as format shows it: grouped when the style asks. */
  function Shown(quotient: string, sep: SeparatorStyle): string {
    if GroupsDigits(sep, |quotient|) && |quotient| >= 1 then Grouped(quotient) else quotient
  }

  /** format's text from its parts: the sign, the quotient text as shown, and
      the remainder text padded with zeros to the unit's decimals. */
  function Render(sign: string, quotient: string, remainder: string, decimals: int, sep: SeparatorStyle): string {
    WithFraction(sign + Shown(quotient, sep), RightJustified(remainder, decimals, '0'), decimals)
  }

  /** format's text when n_abs is mag: empty for an invalid unit; otherwise
      the quotient and remainder of mag by the factor, rendered. */
  function FormatWith(unit: int, mag: int, n: int64, plus: bool, sep: SeparatorStyle): string {
    if !IsValid(unit) then ""
    else
      var coin := Factor(unit);
      Render(SignText(n, plus), NumberText(TruncDiv(mag, coin)), NumberText(TruncMod(mag, coin)), Decimals(unit), sep)
  }

  /** What format renders for the amount n. */
  function FormatText(unit: int, n: int64, plus: bool, sep: SeparatorStyle): string {
    FormatWith(unit, Magnitude(n), n, plus, sep)
  }

  lemma GroupCount(qSize: nat, i: nat)
    requires Threes(i) && 3 <= i && i - 3 < qSize <= i
    ensures HeadLength(qSize) == qSize - (i - 3)
  {
    if i > 3 {
      GroupCount(qSize - 3, i - 3);
    }
  }

  /** Inserting a thin space before the next group from the right. */
  lemma InsertGroup(d: string, m: nat)
    requires m + 3 <= |d| && Threes(|d| - (m + 3))
    ensures var s := GroupedFrom(d, m + 3);
            s[..m] + [THIN_SP] + s[m..] == GroupedFrom(d, m)
  {
    var tail := d[m + 3..];
    assert Threes(|d[m..]|);
    assert d[m..][..3] == d[m..m + 3] && d[m..][3..] == tail;
    var s := d[..m + 3] + Groups(tail);
    assert s[..m] == d[..m];
    assert s[m..] == d[m..m + 3] + Groups(tail);
  }

  /** format's separator loop: a thin space inserted at size - i for i = 3,
      6, ... below the size, right to left. */
  method InsertSeparators(quotient: string) returns (grouped: string)
    requires |quotient| >= 1
    ensures grouped == Grouped(quotient)
  {
    grouped := quotient;
    var qSize := |quotient|;
    var i := 3;
    assert quotient[..qSize] == quotient && quotient[qSize..] == [];
    while i < qSize
      invariant Threes(i) && 3 <= i && i - 3 < qSize
      invariant grouped == GroupedFrom(quotient, qSize - (i - 3))
      decreases qSize - i
    {
      InsertGroup(quotient, qSize - i);
      assert GroupedFrom(quotient, qSize - (i - 3)) == GroupedFrom(quotient, (qSize - i) + 3);
      grouped := grouped[..qSize - i] + [THIN_SP] + grouped[qSize - i..];
      i := i + 3;
    }
    GroupCount(qSize, i);
  }

  /** format, with the magnitude taken without overflow. */
  method Format(unit: int, n: int64, plus: bool, sep: SeparatorStyle) returns (s: string)
    ensures s == FormatText(unit, n, plus, sep)
  {
    if !IsValid(unit) {
      return "";
    }
    var coin := Factor(unit);
    var numDecimals := Decimals(unit);
    var nAbs := Magnitude(n);
    FormatTextLayout(unit, n, plus, sep);
    var quotient := nAbs / coin;
    var remainder := nAbs % coin;
    var quotientStr := NumberText(quotient);
    var remainderStr := RightJustified(NumberText(remainder), numDecimals, '0');
    ghost var digits := quotientStr;
    var qSize := |quotientStr|;
    if sep == SeparatorAlways || (sep == SeparatorStandard && qSize > 4) {
      quotientStr := InsertSeparators(quotientStr);
    }
    assert quotientStr == Shown(digits, sep);
    if n < 0 {
      quotientStr := "-" + quotientStr;
    } else if plus && n > 0 {
      quotientStr := "+" + quotientStr;
    }
    assert quotientStr == SignText(n, plus) + Shown(digits, sep);
    s := WithFraction(quotientStr, remainderStr, numDecimals);
  }

  /** For a valid unit, format's text from the Euclidean quotient and
      remainder of the magnitude. */
  lemma FormatTextLayout(unit: int, n: int64, plus: bool, sep: SeparatorStyle)
    requires IsValid(unit)
    ensures FormatText(unit, n, plus, sep)
              == WithFraction(SignText(n, plus) + Shown(NumberText(Magnitude(n) / Factor(unit)), sep),
                              RightJustified(NumberText(Magnitude(n) % Factor(unit)), Decimals(unit), '0'),
                              Decimals(unit))
  {
    TruncOfNatural(Magnitude(n), Factor(unit));
  }

  /** formatWithUnit: the formatted amount, a space, and the unit's name. */
  method FormatWithUnit(unit: int, amount: int64, plus: bool, sep: SeparatorStyle, mainNet: bool)
    returns (s: string)
    ensures var text := FormatText(unit, amount, plus, sep);
            |s| == |text| + 1 + |Name(unit, mainNet)|
            && s[..|text|] == text && s[|text|] == ' ' && s[|text| + 1..] == Name(unit, mainNet)
  {
    var text := Format(unit, amount, plus, sep);
    s := text + " " + Name(unit, mainNet);
  }

  /** For a valid unit, format's text is the sign, the quotient's digits as
      shown, a dot, and the remainder's digits padded to the unit's decimals. */
  lemma FormatTextParts(unit: int, n: int64, plus: bool, sep: SeparatorStyle)
    requires IsValid(unit)
    ensures var q, r := WholeUnits(unit, n), FractionUnits(unit, n);
            FormatText(unit, n, plus, sep)
              == SignText(n, plus) + Shown(Digits(q), sep) + "." + RightJustified(Digits(r), Decimals(unit), '0')
  {
    TruncOfNatural(Magnitude(n), Factor(unit));
  }

  /** The padded remainder has exactly the unit's decimals, all digits, and
      denotes the remainder. */
  lemma FractionDigits(r: nat, d: nat)
    requires d >= 1 && r < Pow10(d)
    ensures var f := RightJustified(Digits(r), d, '0');
            |f| == d && AllDigits(f) && DecimalValue(f) == r
  {
    DigitsLength(r, d);
    var zeros := Repeat('0', d - |Digits(r)|);
    assert RightJustified(Digits(r), d, '0') == zeros + Digits(r);
    ZerosValue(d - |Digits(r)|);
    DecimalAppend(zeros, Digits(r));
    DigitsValue(r);
  }

  /** Text made only of digits and thin spaces. */
  predicate DigitsOrThin(s: string) {
    forall i :: 0 <= i < |s| ==> IsDigit(s[i]) || s[i] == THIN_SP
  }

  /** Such text holds no sign, no dot and no plain space. */
  lemma PlainChars(s: string)
    requires DigitsOrThin(s)
    ensures '-' !in s && '+' !in s && '.' !in s && ' ' !in s
  {
  }

  /** The shown quotient starts with the quotient's first digit, holds only
      digits and thin spaces, has thin spaces exactly when the style groups a
      quotient of more than three digits, and loses nothing to them. */
  lemma ShownProperties(q: string, sep: SeparatorStyle)
    requires |q| >= 1 && AllDigits(q)
    ensures var s := Shown(q, sep);
            |s| >= 1 && s[0] == q[0] && RemoveSpaces(s) == q && DigitsOrThin(s)
            && (THIN_SP in s <==> GroupsDigits(sep, |q|) && |q| > 3)
  {
    GroupedChars(q);
    GroupedStrip(q);
    assert ' ' !in q && THIN_SP !in q;
    NoSpacesKept(q);
    GroupedRight(q);
    if GroupsDigits(sep, |q|) && |q| > 3 {
      var front := Grouped(q[..|q| - 3]);
      assert (front + [THIN_SP] + q[|q| - 3..])[|front|] == THIN_SP;
    }
  }

  /** A sign, then text that starts with a digit and holds no sign: the sign
      is the first character and there is no other. */
  lemma SignOnlyInFront(sign: string, shown: string, f: string)
    requires sign == "" || sign == "-" || sign == "+"
    requires |shown| >= 1 && IsDigit(shown[0])
    requires '-' !in shown && '+' !in shown && '-' !in f && '+' !in f
    ensures var s := sign + shown + "." + f;
            |s| > 0 && (s[0] == '-' <==> sign == "-") && (s[0] == '+' <==> sign == "+")
            && '-' !in s[1..] && '+' !in s[1..]
  {
    var body := shown + "." + f;
    assert sign + shown + "." + f == sign + body;
    assert '-' !in body && '+' !in body;
    if sign == "" {
      assert (sign + body)[1..] == body[1..];
    } else {
      assert (sign + body)[1..] == body;
    }
  }

  /** The sign appears once, in front: "-" exactly for a negative amount,
      "+" exactly for a positive one when asked, and no later character of
      the text is a sign. */
  lemma FormatSignOnce(unit: int, n: int64, plus: bool, sep: SeparatorStyle)
    requires IsValid(unit)
    ensures var s := FormatText(unit, n, plus, sep);
            |s| > 0 && (s[0] == '-' <==> n < 0) && (s[0] == '+' <==> plus && n > 0)
            && '-' !in s[1..] && '+' !in s[1..]
  {
    var d := Decimals(unit);
    var q, r := WholeUnits(unit, n), FractionUnits(unit, n);
    var f := RightJustified(Digits(r), d, '0');
    FormatTextParts(unit, n, plus, sep);
    FractionDigits(r, d);
    ShownProperties(Digits(q), sep);
    var shown := Shown(Digits(q), sep);
    PlainChars(shown);
    assert DigitsOrThin(f);
    PlainChars(f);
    SignOnlyInFront(SignText(n, plus), shown, f);
  }

  /** Removing the thin spaces of sign + shown + "." + fraction leaves the
      sign, the digits, the dot and the fraction; the text has a thin space
      exactly when the shown quotient has one. */
  lemma StripShown(sign: string, shown: string, q: string, f: string)
    requires ' ' !in sign && THIN_SP !in sign && ' ' !in f && THIN_SP !in f
    requires RemoveSpaces(shown) == q
    ensures var s := sign + shown + "." + f;
            RemoveSpaces(s) == sign + q + "." + f && (THIN_SP in s <==> THIN_SP in shown)
  {
    NoSpacesKept(sign);
    NoSpacesKept(".");
    NoSpacesKept(f);
    RemoveSpacesAppend(sign + shown + ".", f);
    RemoveSpacesAppend(sign + shown, ".");
    RemoveSpacesAppend(sign, shown);
  }

  /** Separators appear exactly when the style asks for them and the
      quotient has more than three digits; removing them leaves the sign,
      the digits, the dot and the padded remainder. */
  lemma FormatGrouping(unit: int, n: int64, plus: bool, sep: SeparatorStyle)
    requires IsValid(unit)
    ensures var q, r := WholeUnits(unit, n), FractionUnits(unit, n);
            var s := FormatText(unit, n, plus, sep);
            (THIN_SP in s <==> GroupsDigits(sep, |Digits(q)|) && |Digits(q)| > 3)
            && RemoveSpaces(s) == SignText(n, plus) + Digits(q) + "." + RightJustified(Digits(r), Decimals(unit), '0')
  {
    var d := Decimals(unit);
    var q, r := WholeUnits(unit, n), FractionUnits(unit, n);
    var f := RightJustified(Digits(r), d, '0');
    FormatTextParts(unit, n, plus, sep);
    FractionDigits(r, d);
    ShownProperties(Digits(q), sep);
    assert DigitsOrThin(f);
    PlainChars(f);
    StripShown(SignText(n, plus), Shown(Digits(q), sep), Digits(q), f);
  }

  /** A minus sign in front of text that starts with one. */
  lemma MinusBeforeMinus(quotient: string, remainder: string)
    requires |quotient| >= 1 && quotient[0] == '-'
    ensures var s := "-" + quotient + "." + remainder;
            |s| >= 2 && s[0] == '-' && s[1] == '-'
  {
  }

  /** Whatever the style, the shown quotient starts as the quotient does. */
  lemma ShownFirst(quotient: string, sep: SeparatorStyle)
    requires |quotient| >= 1
    ensures |Shown(quotient, sep)| >= 1 && Shown(quotient, sep)[0] == quotient[0]
  {
  }

  lemma QuotientAtLeastOne(a: int, b: int)
    requires 0 < b <= a
    ensures a / b >= 1
  {
  }

  /** As written, the most negative amount has no magnitude in 64 bits: -n
      wraps to n, the quotient comes out negative with its own minus sign,
      and format puts a second one in front, in every unit and style. */
  lemma FormatMinAsWritten(unit: int, plus: bool, sep: SeparatorStyle)
    requires IsValid(unit)
    ensures var s := FormatWith(unit, AsWrittenMagnitude(INT64_MIN), INT64_MIN, plus, sep);
            |s| >= 2 && s[0] == '-' && s[1] == '-'
  {
    var mag := AsWrittenMagnitude(INT64_MIN);
    assert mag == INT64_MIN;
    var coin := Factor(unit);
    QuotientAtLeastOne(-(mag as int), coin);
    var q := TruncDiv(mag, coin);
    assert q < 0;
    var quotient := NumberText(q);
    ShownFirst(quotient, sep);
    var remainder := RightJustified(NumberText(TruncMod(mag, coin)), Decimals(unit), '0');
    MinusBeforeMinus(Shown(quotient, sep), remainder);
  }

  // ---------------------------------------------------------------------------
  // parse

  /** QString::split("."), keeping empty parts. */
  function Split(s: string): (parts: seq<string>)
    ensures |parts| >= 1
  {
    if s == [] then [""]
    else
      var rest := Split(s[1..]);
      assert s == [s[0]] + s[1..];
      if s[0] == '.' then [""] + rest
      else [[s[0]] + rest[0]] + rest[1..]
  }

  /** One part more than there are dots. */
  lemma {:induction false} SplitCount(s: string)
    ensures |Split(s)| == 1 + multiset(s)['.']
  {
    if s != [] {
      SplitCount(s[1..]);
      assert s == [s[0]] + s[1..];
    }
  }

  lemma {:induction false} SplitNoDot(s: string)
    requires '.' !in s
    ensures Split(s) == [s]
  {
    if s != [] {
      SplitNoDot(s[1..]);
      assert s == [s[0]] + s[1..];
    }
  }

  lemma {:induction false} SplitAtDot(a: string, b: string)
    requires '.' !in a
    ensures Split(a + "." + b) == [a] + Split(b)
  {
    if a == [] {
      assert a + "." + b == "." + b;
      assert ("." + b)[1..] == b;
    } else {
      SplitAtDot(a[1..], b);
      assert (a + "." + b)[1..] == a[1..] + "." + b;
      assert a == [a[0]] + a[1..];
    }
  }

  /** QChar::isSpace: the ASCII controls tab to carriage return, U+0085, and
      the Unicode space, line and paragraph separators. */
  predicate IsQtSpace(c: char) {
    || '\t' <= c <= '\r' || c == ' ' || c == '\U{85}' || c == '\U{A0}' || c == '\U{1680}'
    || '\U{2000}' <= c <= '\U{200A}' || c == '\U{2028}' || c == '\U{2029}' || c == '\U{202F}'
    || c == '\U{205F}' || c == '\U{3000}'
  }

  /** The text after its leading whitespace. */
  function TrimStart(s: string): (r: string)
    ensures |r| <= |s|
  {
    if s != [] && IsQtSpace(s[0]) then TrimStart(s[1..]) else s
  }

  /** The text before its trailing whitespace. */
  function TrimEnd(s: string): (r: string)
    ensures |r| <= |s|
  {
    if s != [] && IsQtSpace(s[|s| - 1]) then TrimEnd(s[..|s| - 1]) else s
  }

  /** The text toLongLong converts: without whitespace at either end. */
  function Trimmed(s: string): (r: string)
    ensures |r| <= |s|
  {
    TrimEnd(TrimStart(s))
  }

  lemma {:induction false} TrimStartSpec(s: string)
    ensures var r := TrimStart(s);
            && r == s[|s| - |r|..]
            && AllSpaces(s[..|s| - |r|])
            && (r == [] || !IsQtSpace(r[0]))
  {
    if s != [] && IsQtSpace(s[0]) {
      TrimStartSpec(s[1..]);
      var r := TrimStart(s);
      assert s[..|s| - |r|] == [s[0]] + s[1..][..|s| - 1 - |r|];
    }
  }

  lemma {:induction false} TrimEndSpec(s: string)
    ensures var r := TrimEnd(s);
            && r == s[..|r|]
            && AllSpaces(s[|r|..])
            && (r == [] || !IsQtSpace(r[|r| - 1]))
  {
    if s != [] && IsQtSpace(s[|s| - 1]) {
      var s' := s[..|s| - 1];
      TrimEndSpec(s');
      var r := TrimEnd(s);
      assert s[|r|..] == s'[|r|..] + [s[|s| - 1]];
    }
  }

  /** What toLongLong converts is a piece of the text with only whitespace
      cut from either end ... */
  lemma TrimmedSpec(s: string)
    ensures exists pre, post :: s == pre + Trimmed(s) + post && AllSpaces(pre) && AllSpaces(post)
  {
    var t := TrimStart(s);
    TrimStartSpec(s);
    var r := TrimEnd(t);
    TrimEndSpec(t);
    var pre, post := s[..|s| - |t|], t[|r|..];
    assert s == pre + r + post by {
      assert s == pre + t;
      assert t == r + post;
    }
  }

  /** ... and it neither starts nor ends with whitespace. */
  lemma TrimmedEnds(s: string)
    ensures var r := Trimmed(s);
            r == [] || (!IsQtSpace(r[0]) && !IsQtSpace(r[|r| - 1]))
  {
    var t := TrimStart(s);
    TrimStartSpec(s);
    var r := TrimEnd(t);
    TrimEndSpec(t);
    if r != [] {
      assert r[0] == t[0];
    }
  }

  predicate AllSpaces(s: string)
  {
    forall i :: 0 <= i < |s| ==> IsQtSpace(s[i])
  }

  /** Text that neither starts nor ends with whitespace is converted whole. */
  lemma TrimmedKeeps(s: string)
    requires s == [] || (!IsQtSpace(s[0]) && !IsQtSpace(s[|s| - 1]))
    ensures Trimmed(s) == s
  {
  }

  lemma {:induction false} TrimStartSkips(pre: string, x: string)
    requires forall i :: 0 <= i < |pre| ==> IsQtSpace(pre[i])
    requires x != [] && !IsQtSpace(x[0])
    ensures TrimStart(pre + x) == x
  {
    if pre != [] {
      assert (pre + x)[1..] == pre[1..] + x;
      TrimStartSkips(pre[1..], x);
    } else {
      assert pre + x == x;
    }
  }

  lemma {:induction false} TrimEndSkips(x: string, post: string)
    requires forall i :: 0 <= i < |post| ==> IsQtSpace(post[i])
    requires x != [] && !IsQtSpace(x[|x| - 1])
    ensures TrimEnd(x + post) == x
  {
    if post != [] {
      var xp := x + post;
      assert xp[..|xp| - 1] == x + post[..|post| - 1];
      assert xp[|xp| - 1] == post[|post| - 1];
      TrimEndSkips(x, post[..|post| - 1]);
    } else {
      assert x + post == x;
    }
  }

  /** Whitespace around such text is dropped. */
  lemma TrimmedDropsPadding(pre: string, s: string, post: string)
    requires forall i :: 0 <= i < |pre| ==> IsQtSpace(pre[i])
    requires forall i :: 0 <= i < |post| ==> IsQtSpace(post[i])
    requires |s| >= 1 && !IsQtSpace(s[0]) && !IsQtSpace(s[|s| - 1])
    ensures Trimmed(pre + s + post) == s
  {
    assert pre + s + post == pre + (s + post);
    TrimStartSkips(pre, s + post);
    TrimEndSkips(s, post);
  }

  /** QString::toLongLong in base 10: whitespace at either end is ignored;
      what remains must be an optional sign and at least one digit, within
      64 bits. */
  function ToLongLong(s: string): Option<int64> {
    SignedText(Trimmed(s))
  }

  /** An optional sign and at least one digit, within 64 bits. */
  function SignedText(t: string): Option<int64> {
    if |t| > 0 && (t[0] == '-' || t[0] == '+') then SignedValue(t[0] == '-', t[1..])
    else SignedValue(false, t)
  }

  /** toLongLong ignores whitespace around a number. */
  lemma ToLongLongIgnoresPadding(pre: string, s: string, post: string)
    requires forall i :: 0 <= i < |pre| ==> IsQtSpace(pre[i])
    requires forall i :: 0 <= i < |post| ==> IsQtSpace(post[i])
    requires |s| >= 1 && !IsQtSpace(s[0]) && !IsQtSpace(s[|s| - 1])
    ensures ToLongLong(pre + s + post) == ToLongLong(s)
  {
    TrimmedDropsPadding(pre, s, post);
    TrimmedKeeps(s);
  }

  /** The value of the digits after an optional sign, if they are digits and
      it fits 64 bits. */
  function SignedValue(negative: bool, digits: string): Option<int64> {
    if digits == [] || !AllDigits(digits) then None
    else
      var v := if negative then -(DecimalValue(digits) as int) else DecimalValue(digits);
      if -0x8000_0000_0000_0000 <= v < 0x8000_0000_0000_0000 then Some(v) else None
  }

  /** parse's answer and what it stores through val_out (None when it
      returns before storing). */
  datatype ParseOutcome = ParseOutcome(ok: bool, stored: Option<int64>)

  /** The digit string parse converts: the whole part, then the fraction
      padded with zeros to the unit's decimals. */
  function ParseDigits(unit: int, parts: seq<string>): string
    requires |parts| >= 1
  {
    parts[0] + LeftJustified(if |parts| > 1 then parts[1] else "", Decimals(unit), '0')
  }

  /** parse: refuses an invalid unit, an empty string, more than one dot, a
      fraction longer than the unit's decimals, and a digit string longer than
      18; otherwise converts the digit string. Lengths are QString sizes, in
      UTF-16 code units. */
  function Parse(unit: int, value: string): (r: ParseOutcome)
    ensures r.ok ==> IsValid(unit) && value != "" && r.stored.Some?
  {
    if !IsValid(unit) || value == "" then ParseOutcome(false, None)
    else
      var parts := Split(RemoveSpaces(value));
      if |parts| > 2 then ParseOutcome(false, None)
      else
        var fraction := if |parts| > 1 then parts[1] else "";
        if Utf16Length(fraction) > Decimals(unit) then ParseOutcome(false, None)
        else
          var str := ParseDigits(unit, parts);
          if Utf16Length(str) > 18 then ParseOutcome(false, None)
          else match ToLongLong(str)
            case None => ParseOutcome(false, Some(0))
            case Some(v) => ParseOutcome(true, Some(v))
  }

  /** What parse accepts has at most one dot once spaces are removed. */
  lemma ParseAtMostOneDot(unit: int, value: string)
    ensures Parse(unit, value).ok ==> multiset(RemoveSpaces(value))['.'] <= 1
  {
    SplitCount(RemoveSpaces(value));
  }

  /** What parse accepts fits in 18 digits, so it never comes near the 64-bit
      limit. */
  lemma ParseWithinEighteenDigits(unit: int, value: string)
    requires Parse(unit, value).ok
    ensures var v := Parse(unit, value).stored.value;
            -(Pow10(18) as int) < v < Pow10(18)
  {
    var str := ParseDigits(unit, Split(RemoveSpaces(value)));
    ToLongLongBound(str);
    Pow10Monotone(|str|, 18);
  }

  /** toLongLong's value has fewer digits than its text has characters. */
  lemma ToLongLongBound(s: string)
    requires ToLongLong(s).Some?
    ensures -(Pow10(|s|) as int) < ToLongLong(s).value < Pow10(|s|)
  {
    var t := Trimmed(s);
    if |t| > 0 && (t[0] == '-' || t[0] == '+') {
      DecimalBound(t[1..]);
      Pow10Monotone(|t| - 1, |s|);
    } else {
      DecimalBound(t);
      Pow10Monotone(|t|, |s|);
    }
  }

  lemma {:induction false} Pow10Monotone(a: nat, b: nat)
    requires a <= b
    ensures Pow10(a) <= Pow10(b)
    decreases b
  {
    if a < b {
      Pow10Monotone(a, b - 1);
    }
  }

  /** Text with a longer fraction than the unit has decimals is refused. */
  lemma ParseRefusesPrecision(unit: int, whole: string, fraction: string)
    requires '.' !in whole && '.' !in fraction
    requires ' ' !in whole && THIN_SP !in whole && ' ' !in fraction && THIN_SP !in fraction
    requires Utf16Length(fraction) > Decimals(unit)
    ensures Parse(unit, whole + "." + fraction) == ParseOutcome(false, None)
  {
    StripAroundDot(whole, fraction);
    NoSpacesKept(whole);
    NoSpacesKept(fraction);
    SplitAtDot(whole, fraction);
    SplitNoDot(fraction);
  }

  /** Text whose whole part and fraction, padded to the unit's decimals,
      come to more than 18 code units is refused before conversion. */
  lemma ParseRefusesLong(unit: int, value: string, whole: string, f: string)
    requires IsValid(unit) && RemoveSpaces(value) == whole + "." + f
    requires '.' !in whole && '.' !in f && Utf16Length(f) <= Decimals(unit)
    requires Utf16Length(whole) + Decimals(unit) > 18
    ensures Parse(unit, value) == ParseOutcome(false, None)
  {
    assert value != "";
    SplitAtDot(whole, f);
    SplitNoDot(f);
    var parts := Split(RemoveSpaces(value));
    assert parts == [whole, f];
    var p := LeftJustified(f, Decimals(unit), '0');
    assert Utf16Length(p) == Decimals(unit);
    Utf16Append(whole, p);
    assert ParseDigits(unit, parts) == whole + p;
  }

  /** The same for text without a dot, whose fraction is empty. */
  lemma ParseRefusesLongWhole(unit: int, value: string, whole: string)
    requires IsValid(unit) && value != "" && RemoveSpaces(value) == whole && '.' !in whole
    requires Utf16Length(whole) + Decimals(unit) > 18
    ensures Parse(unit, value) == ParseOutcome(false, None)
  {
    SplitNoDot(whole);
    Utf16Append(whole, LeftJustified("", Decimals(unit), '0'));
  }

  /** A character outside the Basic Multilingual Plane counts twice: nine
      digits and one emoji in whole coins make 19 code units with the
      padding, though only 18 characters, and are refused. */
  lemma ParseAstralRefused()
    ensures Parse(LENO, "123456789\U{1F600}") == ParseOutcome(false, None)
  {
    var digits, v := "123456789", "123456789\U{1F600}";
    var emoji := v[9..];
    assert v == digits + emoji && |emoji| == 1 && !IsBmp(emoji[0]);
    assert emoji[..0] == [];
    DigitsUtf16(digits);
    Utf16Append(digits, emoji);
    NoSpacesKept(v);
    ParseRefusesLongWhole(LENO, v, v);
  }

  lemma StripAroundDot(a: string, b: string)
    ensures RemoveSpaces(a + "." + b) == RemoveSpaces(a) + "." + RemoveSpaces(b)
  {
    RemoveSpacesAppend(a + ".", b);
    RemoveSpacesAppend(a, ".");
  }

  lemma StripAroundDots(a: string, b: string, c: string)
    ensures RemoveSpaces(a + "." + b + "." + c)
              == RemoveSpaces(a) + "." + RemoveSpaces(b) + "." + RemoveSpaces(c)
  {
    StripAroundDot(a + "." + b, c);
    StripAroundDot(a, b);
  }

  lemma TwoDots(a: string, b: string, c: string)
    ensures multiset(a + "." + b + "." + c)['.'] >= 2
  {
    assert multiset(a + "." + b + "." + c) == multiset(a) + multiset(".") + multiset(b) + multiset(".") + multiset(c);
  }

  /** Text with two or more dots is refused. */
  lemma ParseRefusesDots(unit: int, a: string, b: string, c: string)
    ensures Parse(unit, a + "." + b + "." + c) == ParseOutcome(false, None)
  {
    StripAroundDots(a, b, c);
    TwoDots(RemoveSpaces(a), RemoveSpaces(b), RemoveSpaces(c));
    SplitCount(RemoveSpaces(a + "." + b + "." + c));
  }

  /** Parsing ignores spaces and thin spaces. */
  lemma ParseIgnoresSpaces(unit: int, value: string)
    requires RemoveSpaces(value) != ""
    ensures Parse(unit, value) == Parse(unit, RemoveSpaces(value))
  {
    NoSpacesKept(RemoveSpaces(value));
  }

  /** toLongLong of a sign and digits whose signed value fits 64 bits. */
  lemma ToLongLongSigned(sign: string, digits: string, v: int64)
    requires sign == "" || sign == "-" || sign == "+"
    requires |digits| >= 1 && AllDigits(digits)
    requires v == if sign == "-" then -(DecimalValue(digits) as int) else DecimalValue(digits)
    ensures ToLongLong(sign + digits) == Some(v)
  {
    if sign == "" {
      UnsignedToLongLong(digits);
      assert sign + digits == digits;
    } else {
      SignedToLongLong(sign, digits);
    }
  }

  lemma UnsignedToLongLong(digits: string)
    requires |digits| >= 1 && AllDigits(digits)
    ensures ToLongLong(digits) == SignedValue(false, digits)
  {
    assert IsDigit(digits[0]) && IsDigit(digits[|digits| - 1]);
    TrimmedKeeps(digits);
  }

  lemma SignedToLongLong(sign: string, digits: string)
    requires sign == "-" || sign == "+"
    requires |digits| >= 1 && AllDigits(digits)
    ensures ToLongLong(sign + digits) == SignedValue(sign == "-", digits)
  {
    var t := sign + digits;
    assert t[0] == sign[0] && t[1..] == digits && t[|t| - 1] == digits[|digits| - 1];
    assert IsDigit(digits[|digits| - 1]);
    TrimmedKeeps(t);
  }

  lemma Associative(a: string, b: string, c: string)
    ensures a + b + c == a + (b + c)
  {
  }

  /** Text whose stripped form is a whole part, a dot and a fraction of
      exactly the unit's decimals, short enough, converts to the value of the
      whole part and the fraction read as one number. */
  lemma ParseOfParts(unit: int, value: string, whole: string, f: string, v: int64)
    requires IsValid(unit) && RemoveSpaces(value) == whole + "." + f
    requires '.' !in whole && '.' !in f
    requires Utf16Length(f) == Decimals(unit) && Utf16Length(whole) + Utf16Length(f) <= 18
    requires ToLongLong(whole + f) == Some(v)
    ensures Parse(unit, value) == ParseOutcome(true, Some(v))
  {
    Utf16Append(whole, f);
    SplitAtDot(whole, f);
    SplitNoDot(f);
    var parts := Split(RemoveSpaces(value));
    assert parts == [whole, f];
    assert LeftJustified(f, Decimals(unit), '0') == f;
    assert ParseDigits(unit, parts) == whole + f;
  }

  /** A fraction padded with zeros on the right to d digits denotes its value
      scaled to d places. */
  lemma PaddedFractionValue(f: string, d: nat)
    requires AllDigits(f) && |f| <= d
    ensures var p := LeftJustified(f, d, '0');
            |p| == d && AllDigits(p) && DecimalValue(p) == DecimalValue(f) * Pow10(d - |f|)
  {
    var p := LeftJustified(f, d, '0');
    DigitsUtf16(f);
    if |f| < d {
      var z := Repeat('0', d - |f|);
      assert p == f + z;
      ZerosValue(d - |f|);
      DecimalAppend(f, z);
    }
  }

  lemma Pow10Eighteen()
    ensures Pow10(18) == 1_000_000_000_000_000_000
  {
    assert Pow10(1) == 10;
    assert Pow10(2) == 100;
    assert Pow10(3) == 1_000;
    assert Pow10(4) == 10_000;
    assert Pow10(5) == 100_000;
    assert Pow10(6) == 1_000_000;
    assert Pow10(7) == 10_000_000;
    assert Pow10(8) == 100_000_000;
    assert Pow10(9) == 1_000_000_000;
    assert Pow10(10) == 10_000_000_000;
    assert Pow10(11) == 100_000_000_000;
    assert Pow10(12) == 1_000_000_000_000;
    assert Pow10(13) == 10_000_000_000_000;
    assert Pow10(14) == 100_000_000_000_000;
    assert Pow10(15) == 1_000_000_000_000_000;
    assert Pow10(16) == 10_000_000_000_000_000;
    assert Pow10(17) == 100_000_000_000_000_000;
  }

  /** The value parse reads from a sign, a whole part and a fraction of at most
      the unit's decimals: the whole units plus the fraction scaled to the
      unit, negated after a minus sign. It is the value of the whole part and
      the padded fraction read as one number, so it stays below 10^18. */
  function PartsValue(unit: int, sign: string, whole: string, f: string): (v: int64)
    requires IsValid(unit) && AllDigits(whole) && AllDigits(f) && |f| <= Decimals(unit)
    requires |whole| + Decimals(unit) <= 18
    ensures var p := LeftJustified(f, Decimals(unit), '0');
            AllDigits(whole + p) && v == if sign == "-" then -(DecimalValue(whole + p) as int) else DecimalValue(whole + p)
    ensures var m := DecimalValue(whole) * Factor(unit) + DecimalValue(f) * Pow10(Decimals(unit) - |f|);
            v == if sign == "-" then -m else m
    ensures -(Pow10(18) as int) < v < Pow10(18)
  {
    var d := Decimals(unit);
    var p := LeftJustified(f, d, '0');
    PaddedFractionValue(f, d);
    DecimalAppend(whole, p);
    DecimalBound(whole + p);
    Pow10Monotone(|whole| + d, 18);
    Pow10Eighteen();
    var m := DecimalValue(whole) * Factor(unit) + DecimalValue(f) * Pow10(d - |f|);
    assert m == DecimalValue(whole + p);
    if sign == "-" then -m else m
  }

  /** The digit string parse builds from those parts converts to that value. */
  lemma ParseDigitsValue(unit: int, sign: string, whole: string, f: string)
    requires IsValid(unit) && (sign == "" || sign == "-" || sign == "+")
    requires AllDigits(whole) && AllDigits(f) && |f| <= Decimals(unit)
    requires |sign| + |whole| + Decimals(unit) <= 18
    ensures var str := sign + whole + LeftJustified(f, Decimals(unit), '0');
            Utf16Length(str) <= 18 && ToLongLong(str) == Some(PartsValue(unit, sign, whole, f))
  {
    var p := LeftJustified(f, Decimals(unit), '0');
    DigitsUtf16(f);
    SignedDigitsUtf16(sign, whole);
    Utf16Append(sign + whole, p);
    Associative(sign, whole, p);
    ToLongLongSigned(sign, whole + p, PartsValue(unit, sign, whole, f));
  }

  /** Text that is, spaces aside, a sign and a whole number parses to that many
      whole units. */
  lemma ParseWhole(unit: int, value: string, sign: string, whole: string)
    requires IsValid(unit) && value != "" && RemoveSpaces(value) == sign + whole
    requires (sign == "" || sign == "-" || sign == "+") && AllDigits(whole)
    requires |sign| + |whole| + Decimals(unit) <= 18
    ensures Parse(unit, value) == ParseOutcome(true, Some(PartsValue(unit, sign, whole, "")))
  {
    assert '.' !in sign + whole by {
      assert forall i :: 0 <= i < |whole| ==> whole[i] != '.';
    }
    SplitNoDot(sign + whole);
    ParseDigitsValue(unit, sign, whole, "");
  }

  /** Text that is, spaces aside, a sign, a whole part, a dot and at most the
      unit's decimals of fraction parses to the whole units plus the fraction
      padded with zeros to the unit's decimals. */
  lemma ParseFraction(unit: int, value: string, sign: string, whole: string, f: string)
    requires IsValid(unit) && RemoveSpaces(value) == sign + whole + "." + f
    requires (sign == "" || sign == "-" || sign == "+") && AllDigits(whole) && AllDigits(f)
    requires |f| <= Decimals(unit) && |sign| + |whole| + Decimals(unit) <= 18
    ensures Parse(unit, value) == ParseOutcome(true, Some(PartsValue(unit, sign, whole, f)))
  {
    assert value != "";
    assert '.' !in sign + whole by {
      assert forall i :: 0 <= i < |whole| ==> whole[i] != '.';
    }
    assert '.' !in f by {
      assert forall i :: 0 <= i < |f| ==> f[i] != '.';
    }
    SplitAtDot(sign + whole, f);
    SplitNoDot(f);
    var parts := Split(RemoveSpaces(value));
    assert parts == [sign + whole, f];
    DigitsUtf16(f);
    assert ParseDigits(unit, parts) == sign + whole + LeftJustified(f, Decimals(unit), '0');
    ParseDigitsValue(unit, sign, whole, f);
  }

  /** Whitespace other than spaces and thin spaces reaches toLongLong, which
      ignores it at either end: a tab before "1" in micro-units reads 100. */
  lemma ParseTabbedWhole()
    ensures Parse(uLENO, "\t1") == ParseOutcome(true, Some(100))
  {
    NoSpacesKept("\t1");
    SplitNoDot("\t1");
    TabbedDigits();
    TabbedValue();
  }

  lemma TabbedDigits()
    ensures ParseDigits(uLENO, ["\t1"]) == "\t100"
  {
    assert LeftJustified("", 2, '0') == "00";
  }

  lemma TabbedValue()
    ensures ToLongLong("\t100") == Some(100)
  {
    var pre, h := "\t", "100";
    assert forall i :: 0 <= i < |pre| ==> IsQtSpace(pre[i]) by {
      assert |pre| == 1 && pre[0] == '\t';
    }
    assert !IsQtSpace(h[0]) && !IsQtSpace(h[|h| - 1]) by {
      assert h[0] == '1' && h[|h| - 1] == '0';
    }
    ToLongLongIgnoresPadding(pre, h, "");
    assert AllDigits(h) && DecimalValue(h) == 100 by {
      var one, ten := "1", "10";
      assert one[..0] == "" && DecimalValue(one) == 1;
      assert ten[..1] == one && DecimalValue(ten) == 10;
      assert h[..2] == ten;
    }
    ToLongLongSigned("", h, 100);
    assert "" + h == h;
    assert pre + h + "" == "\t100";
  }

  /** A newline after the fraction is counted among its digits, yet
      toLongLong drops it: "1.1" and a newline in micro-units reads 11. */
  lemma ParseTrailingNewline()
    ensures Parse(uLENO, "1.1\n") == ParseOutcome(true, Some(11))
  {
    var one, f := "1", "1\n";
    assert "1.1\n" == one + "." + f;
    NoSpacesKept("1.1\n");
    SplitAtDot(one, f);
    SplitNoDot(f);
    NewlineDigits();
    NewlineValue();
  }

  lemma NewlineDigits()
    ensures ParseDigits(uLENO, ["1", "1\n"]) == "11\n"
  {
    assert LeftJustified("1\n", 2, '0') == "1\n";
  }

  lemma NewlineValue()
    ensures ToLongLong("11\n") == Some(11)
  {
    var h, post := "11", "\n";
    assert forall i :: 0 <= i < |post| ==> IsQtSpace(post[i]) by {
      assert |post| == 1 && post[0] == '\n';
    }
    assert !IsQtSpace(h[0]) && !IsQtSpace(h[|h| - 1]) by {
      assert h[0] == '1' && h[|h| - 1] == '1';
    }
    ToLongLongIgnoresPadding("", h, post);
    assert AllDigits(h) && DecimalValue(h) == 11 by {
      var one := "1";
      assert one[..0] == "" && DecimalValue(one) == 1;
      assert h[..1] == one;
    }
    ToLongLongSigned("", h, 11);
    assert "" + h == h;
    assert "" + h + post == "11\n";
  }

  /** The sign, the quotient's digits and the padded remainder, read as one
      number, are the amount. */
  lemma FormatDigitsValue(unit: int, n: int64, plus: bool)
    requires IsValid(unit)
    ensures var qd := Digits(WholeUnits(unit, n));
            var f := RightJustified(Digits(FractionUnits(unit, n)), Decimals(unit), '0');
            '.' !in SignText(n, plus) + qd && '.' !in f && |f| == Decimals(unit)
            && ToLongLong(SignText(n, plus) + qd + f) == Some(n)
  {
    var d := Decimals(unit);
    var q, r := WholeUnits(unit, n), FractionUnits(unit, n);
    var qd := Digits(q);
    var f := RightJustified(Digits(r), d, '0');
    var sign := SignText(n, plus);
    FractionDigits(r, d);
    assert DigitsOrThin(qd) && DigitsOrThin(f);
    PlainChars(qd);
    PlainChars(f);
    DigitsValue(q);
    DecimalAppend(qd, f);
    MagnitudeSplit(unit, n);
    ToLongLongSigned(sign, qd + f, n);
    Associative(sign, qd, f);
  }

  /** Formatted amounts too long for that are refused, storing nothing. */
  lemma ParseFormatRefusesLong(unit: int, n: int64, plus: bool, sep: SeparatorStyle)
    requires IsValid(unit)
    requires |SignText(n, plus)| + |Digits(WholeUnits(unit, n))| + Decimals(unit) > 18
    ensures Parse(unit, FormatText(unit, n, plus, sep)) == ParseOutcome(false, None)
  {
    var qd := Digits(WholeUnits(unit, n));
    var f := RightJustified(Digits(FractionUnits(unit, n)), Decimals(unit), '0');
    FormatGrouping(unit, n, plus, sep);
    FormatDigitsValue(unit, n, plus);
    FractionDigits(FractionUnits(unit, n), Decimals(unit));
    DigitsUtf16(f);
    SignedDigitsUtf16(SignText(n, plus), qd);
    ParseRefusesLong(unit, FormatText(unit, n, plus, sep), SignText(n, plus) + qd, f);
  }

  /** Parsing what format printed gives back the amount, whenever the sign
      and digits fit parse's 18 characters. */
  lemma ParseFormat(unit: int, n: int64, plus: bool, sep: SeparatorStyle)
    requires IsValid(unit)
    requires |SignText(n, plus)| + |Digits(WholeUnits(unit, n))| + Decimals(unit) <= 18
    ensures Parse(unit, FormatText(unit, n, plus, sep)) == ParseOutcome(true, Some(n))
  {
    var qd := Digits(WholeUnits(unit, n));
    var f := RightJustified(Digits(FractionUnits(unit, n)), Decimals(unit), '0');
    FormatGrouping(unit, n, plus, sep);
    FormatDigitsValue(unit, n, plus);
    FractionDigits(FractionUnits(unit, n), Decimals(unit));
    DigitsUtf16(f);
    SignedDigitsUtf16(SignText(n, plus), qd);
    ParseOfParts(unit, FormatText(unit, n, plus, sep), SignText(n, plus) + qd, f, n);
  }
}
