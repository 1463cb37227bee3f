/**
 * The pipe designation parser (`ProductParser`): extractors that pull the
 * type, outer diameter, wall thickness, steel grade, standard and
 * manufacturing method out of a name such as
 * "Труба бесшовная 18х2-08Х18Н10Т ГОСТ 9941-2022", derivations (mass per
 * metre, inches, nominal bore, English name, short names, class and
 * material category), and the assembler that fills every field of
 * `ProductData`.
 */
module ProductParser {
  import opened Wrappers
  import opened Text
  import opened Scan
  import opened Numbers
  import opened ProductTypes

  // ---------------------------------------------------------------------
  // Entry point
  // ---------------------------------------------------------------------

  /**
   * `ProductParser.parse`: total on every string.  The fields the source
   * fixes are constant, the Russian name is kept as given, and the `||`
   * defaults for method and construction never apply because both
   * extractors always answer.
   */
  function Parse(name: string): (r: ProductData)
    ensures r.fullNameRu == name
    ensures r.unit == "м" && r.purpose == "общего назначения" && r.section == "круг" && r.measuredLength == "нет"
    ensures r.classCode == "К0401"
    ensures r.sizeA == "" && r.sizeB == "" && r.length == ""
    ensures r.manufacturingAccuracy == "" && r.qualityGroup == "" && r.deoxidationDegree == ""
    ensures r.rollingCategory == "" && r.strengthClass == ""
    ensures !r.hasThreading && !r.hasCouplings && !r.hasCoating && !r.agingTest && !r.hydrogenCrackingTest && !r.iccResistance
    ensures r.kcuTestTemperature == "" && r.kcuMinValue == "" && r.kcvTestTemperature == "" && r.kcvMinValue == ""
    ensures r.construction == (if Occurs(name, "бесшовная", true) then "бесшовная" else "сварная")
    ensures r.manufacturingMethod == (if Occurs(name, "бесшовная", true) then "холоднодеформированная" else "горячедеформированная")
    ensures r.materialCategory == "2" <==> Occurs(r.steelGrade, "Х18Н10", false) || Occurs(r.steelGrade, "X18H10", false)
  {
    MapToProductData(ParseComponents(name), name)
  }

  function ParseComponents(name: string): (p: ParsedComponents)
    ensures p.manufacturingMethod.Some? && p.construction.Some?
  {
    ParsedComponents(
      ExtractType(name),
      ExtractOuterDiameter(name),
      ExtractWallThickness(name),
      ExtractSteelGrade(name),
      ExtractStandard(name),
      Some(ExtractManufacturingMethod(name)),
      Some(ExtractConstruction(name)))
  }

  // ---------------------------------------------------------------------
  // Type
  // ---------------------------------------------------------------------

  /** A pipe when the name mentions "труба" or "pipe" in any case. */
  function ExtractType(name: string): (r: string)
    ensures r == (if Occurs(name, "труба", true) || Occurs(name, "pipe", true) then "Труба" else "Неизвестно")
  {
    IncludesLower(name, "труба");
    IncludesLower(name, "pipe");
    if Includes(Lower(name), "труба") then "Труба"
    else if Includes(Lower(name), "pipe") then "Труба"
    else "Неизвестно"
  }

  // ---------------------------------------------------------------------
  // Outer diameter and wall thickness: \d+х[\d,\.]+
  // ---------------------------------------------------------------------

  /** The Cyrillic letter between diameter and wall thickness; the pattern is case-sensitive. */
  const Cross: char := 'х'

  /** `\d+х[\d,\.]+` matches `s[i..k]`, with the `х` at `j`. */
  ghost predicate IsSizeMatch(s: string, i: nat, j: nat, k: nat)
  {
    && i < j && j + 1 < k <= |s|
    && AllIn(s, i, j, Digit)
    && s[j] == Cross
    && AllIn(s, j + 1, k, SizeChar)
  }

  /** The match `String.prototype.match` returns: leftmost start, greedy thickness run. */
  ghost predicate IsLeftmostSize(s: string, i: nat, j: nat, k: nat)
  {
    && IsSizeMatch(s, i, j, k)
    && (k == |s| || !InClass(s[k], SizeChar))
    && forall i': nat, j': nat, k': nat :: i' < i ==> !IsSizeMatch(s, i', j', k')
  }

  /** Where the `х` is and where the thickness run ends. */
  datatype SizeHit = SizeHit(cross: nat, stop: nat)

  /** `\d+х[\d,\.]+` anchored at `i`. */
  function SizeAt(s: string, i: nat): (r: Option<SizeHit>)
    ensures r.Some? ==> IsSizeMatch(s, i, r.value.cross, r.value.stop)
    ensures r.Some? ==> r.value.stop == |s| || !InClass(s[r.value.stop], SizeChar)
    ensures r.None? ==> forall j: nat, k: nat :: !IsSizeMatch(s, i, j, k)
  {
    if i >= |s| || !IsDigit(s[i]) then None
    else
      var j := RunEnd(s, i, Digit);
      if j + 1 < |s| && s[j] == Cross && InClass(s[j + 1], SizeChar) then
        Some(SizeHit(j, RunEnd(s, j + 1, SizeChar)))
      else
        forall j': nat, k': nat ensures !IsSizeMatch(s, i, j', k') {
          if IsSizeMatch(s, i, j', k') {
            RunEndUnique(s, i, j', Digit);
          }
        }
        None
  }

  /** `name.match(/\d+х[\d,\.]+/)`: both extractors search for this one pattern. */
  function FindSize(s: string): (r: Option<(nat, SizeHit)>)
    ensures r.None? ==> forall i: nat, j: nat, k: nat :: !IsSizeMatch(s, i, j, k)
    ensures r.Some? ==> IsLeftmostSize(s, r.value.0, r.value.1.cross, r.value.1.stop)
  {
    var at := (i: nat) => SizeAt(s, i);
    var r := FirstMatch(|s|, 0, at);
    if r.None? then
      forall i: nat, j: nat, k: nat ensures !IsSizeMatch(s, i, j, k) {
        if i < |s| {
          assert at(i).None?;
        }
      }
      r
    else
      forall i': nat, j': nat, k': nat | i' < r.value.0 ensures !IsSizeMatch(s, i', j', k') {
        assert at(i').None?;
      }
      r
  }

  /** `extractOuterDiameter`: the digits in front of the `х` of the leftmost size, or "". */
  function ExtractOuterDiameter(name: string): (r: string)
    ensures r == "" <==> forall i: nat, j: nat, k: nat :: !IsSizeMatch(name, i, j, k)
    ensures r != "" ==> exists i: nat, j: nat, k: nat :: IsLeftmostSize(name, i, j, k) && r == name[i..j]
  {
    match FindSize(name)
    case None => ""
    case Some((i, h)) => name[i..h.cross]
  }

  /** `extractWallThickness`: the run after the `х` of the leftmost size, its first comma made a point, or "". */
  function ExtractWallThickness(name: string): (r: string)
    ensures r == "" <==> forall i: nat, j: nat, k: nat :: !IsSizeMatch(name, i, j, k)
    ensures r != "" ==> exists i: nat, j: nat, k: nat ::
      IsLeftmostSize(name, i, j, k) && r == ReplaceFirstChar(name[j + 1..k], ',', '.')
  {
    match FindSize(name)
    case None => ""
    case Some((i, h)) => ReplaceFirstChar(name[h.cross + 1..h.stop], ',', '.')
  }

  /** There is only one leftmost match, so the two extractors read the same one. */
  lemma LeftmostSizeUnique(s: string, i: nat, j: nat, k: nat, i2: nat, j2: nat, k2: nat)
    requires IsLeftmostSize(s, i, j, k) && IsLeftmostSize(s, i2, j2, k2)
    ensures i == i2 && j == j2 && k == k2
  {
    assert i == i2 by {
      assert !(i < i2) && !(i2 < i);
    }
    RunEndUnique(s, i, j, Digit);
    RunEndUnique(s, i, j2, Digit);
    RunEndUnique(s, j + 1, k, SizeChar);
    RunEndUnique(s, j + 1, k2, SizeChar);
  }

  /**
   * Outer diameter and wall thickness come from one match: either both are
   * empty or neither is, the diameter is all digits, and the thickness is
   * the run after that same diameter's `х`.
   */
  lemma SizeFieldsAgree(name: string)
    ensures ExtractOuterDiameter(name) == "" <==> ExtractWallThickness(name) == ""
    ensures AllDigits(ExtractOuterDiameter(name))
    ensures ExtractOuterDiameter(name) != "" ==> exists i: nat, j: nat, k: nat ::
      && IsLeftmostSize(name, i, j, k)
      && ExtractOuterDiameter(name) == name[i..j]
      && ExtractWallThickness(name) == ReplaceFirstChar(name[j + 1..k], ',', '.')
  {
    match FindSize(name)
    case None =>
    case Some((i, h)) =>
      var d := name[i..h.cross];
      assert ExtractOuterDiameter(name) == d;
      assert AllDigits(d) by {
        forall n | 0 <= n < |d| ensures IsDigit(d[n]) {
          assert d[n] == name[i + n];
        }
      }
      assert IsLeftmostSize(name, i, h.cross, h.stop);
  }

  // ---------------------------------------------------------------------
  // Steel grade
  // ---------------------------------------------------------------------

  /** The grades tried in this order, each ignoring case: Latin, Cyrillic, Cyrillic, Cyrillic, Latin. */
  const GradePatterns: seq<string> := ["08X18H10T", "08Х18Н10Т", "08Х18Н10", "12Х18Н10Т", "12X18H10T"]

  /** The first pattern from index `n` on that occurs, with the index of its leftmost occurrence. */
  function FirstGrade(name: string, n: nat): (r: Option<(nat, nat)>)
    decreases |GradePatterns| - n
    ensures r.Some? ==> n <= r.value.0 < |GradePatterns|
    ensures r.Some? ==> IsLeftmostLiteral(name, r.value.1, GradePatterns[r.value.0], true)
    ensures r.Some? ==> forall m :: n <= m < r.value.0 ==> !Occurs(name, GradePatterns[m], true)
    ensures r.None? ==> forall m :: n <= m < |GradePatterns| ==> !Occurs(name, GradePatterns[m], true)
  {
    if n >= |GradePatterns| then None
    else
      match IndexOf(name, GradePatterns[n], true, 0)
      case Some(i) => Some((n, i))
      case None => FirstGrade(name, n + 1)
  }

  /**
   * `extractSteelGrade`: the text of the first pattern in list order that
   * occurs (as written in the name), or "" when none does.
   */
  function ExtractSteelGrade(name: string): (r: string)
    ensures r == "" <==> forall m :: 0 <= m < |GradePatterns| ==> !Occurs(name, GradePatterns[m], true)
    ensures r != "" ==> exists m: nat, i: nat ::
      && m < |GradePatterns|
      && (forall m' :: 0 <= m' < m ==> !Occurs(name, GradePatterns[m'], true))
      && IsLeftmostLiteral(name, i, GradePatterns[m], true)
      && r == name[i..i + |GradePatterns[m]|]
  {
    match FirstGrade(name, 0)
    case None => ""
    case Some((m, i)) => name[i..i + |GradePatterns[m]|]
  }

  /** A grade that was found spells one of the patterns, up to case. */
  lemma SteelGradeSpelling(name: string)
    ensures var g := ExtractSteelGrade(name);
      g != "" ==> exists m :: 0 <= m < |GradePatterns| && |g| == |GradePatterns[m]| && LiteralAt(g, 0, GradePatterns[m], true)
  {
    match FirstGrade(name, 0)
    case None =>
    case Some((m, i)) =>
      LiteralSlice(name, i, GradePatterns[m], true);
  }

  /**
   * The order of the list, not the position in the name, decides: when the
   * Cyrillic "08Х18Н10Т" occurs and the Latin one does not, the nine-letter
   * grade is taken, never its prefix "08Х18Н10".
   */
  lemma SteelGradePrefersLonger(name: string)
    requires Occurs(name, "08Х18Н10Т", true) && !Occurs(name, "08X18H10T", true)
    ensures |ExtractSteelGrade(name)| == 9 && LiteralAt(ExtractSteelGrade(name), 0, "08Х18Н10Т", true)
  {
    assert GradePatterns[1] == "08Х18Н10Т" && GradePatterns[0] == "08X18H10T";
    var g := ExtractSteelGrade(name);
    var m: nat, i: nat :|
      && m < |GradePatterns|
      && (forall m' :: 0 <= m' < m ==> !Occurs(name, GradePatterns[m'], true))
      && IsLeftmostLiteral(name, i, GradePatterns[m], true)
      && g == name[i..i + |GradePatterns[m]|];
    assert m == 1;
    LiteralSlice(name, i, GradePatterns[m], true);
  }

  /** `determineClass`: every branch gives the same code. */
  function DetermineClass(steelGrade: string): (r: string)
    ensures r == "К0401"
  {
    if Includes(steelGrade, "08Х18Н10Т") || Includes(steelGrade, "08X18H10T") then "К0401"
    else if Includes(steelGrade, "12Х18Н10Т") || Includes(steelGrade, "12X18H10T") then "К0401"
    else if Includes(steelGrade, "08Х18Н10") then "К0401"
    else "К0401"
  }

  /** `determineMaterialCategory`: "2" for the 18-10 stainless family spelled in capitals, "1" otherwise. */
  function DetermineMaterialCategory(steelGrade: string): (r: string)
    ensures r == "2" <==> Occurs(steelGrade, "Х18Н10", false) || Occurs(steelGrade, "X18H10", false)
    ensures r == "2" || r == "1"
  {
    if Includes(steelGrade, "Х18Н10") || Includes(steelGrade, "X18H10") then "2" else "1"
  }

  // ---------------------------------------------------------------------
  // Standard, manufacturing method, construction
  // ---------------------------------------------------------------------

  /** The alternatives of `(ГОСТ|ОСТ|GOST)`, matched ignoring case. */
  const PipeMarkers: seq<string> := ["ГОСТ", "ОСТ", "GOST"]

  /** `extractStandard`: `/(ГОСТ|ОСТ|GOST)\s*([\d\-\.]+)/i`, printed as marker, one space, number. */
  function ExtractStandard(name: string): (r: string)
    ensures r == "" <==> NoStandard(name, PipeMarkers, true)
    ensures r != "" ==> IsStandardText(name, PipeMarkers, true, r)
  {
    StandardText(name, PipeMarkers, true)
  }

  /** `extractManufacturingMethod`: cold-formed exactly when the name says seamless. */
  function ExtractManufacturingMethod(name: string): (r: string)
    ensures r == (if Occurs(name, "бесшовная", true) then "холоднодеформированная" else "горячедеформированная")
  {
    IncludesLower(name, "бесшовная");
    if Includes(Lower(name), "бесшовная") then "холоднодеформированная" else "горячедеформированная"
  }

  /** `extractConstruction`: seamless exactly when the name says so, welded otherwise. */
  function ExtractConstruction(name: string): (r: string)
    ensures r == (if Occurs(name, "бесшовная", true) then "бесшовная" else "сварная")
  {
    IncludesLower(name, "бесшовная");
    if Includes(Lower(name), "бесшовная") then "бесшовная" else "сварная"
  }

  // ---------------------------------------------------------------------
  // Mass, inches, nominal bore
  // ---------------------------------------------------------------------

  /** `Math.PI` as a double. */
  const MathPI: real := 3.141592653589793

  /** Mass of one metre of pipe in kilograms: π·(D − S)·S·ρ with ρ = 0.00785 kg per mm²·m. */
  function MassPerMetre(d: real, s: real): (m: real)
    ensures s == 0.0 || s == d ==> m == 0.0
    ensures 0.0 <= s <= d ==> m >= 0.0
  {
    assert 0.0 <= s <= d ==> (d - s) * s >= 0.0;
    MathPI * (d - s) * s * 0.00785
  }

  /**
   * `calculateWeight`: 0 when either size is `NaN`, otherwise the mass per
   * metre rounded to the nearest thousandth.
   */
  function CalculateWeight(outerDiam: Option<real>, wallThick: Option<real>): (w: real)
    ensures outerDiam.None? || wallThick.None? ==> w == 0.0
    ensures outerDiam.Some? && wallThick.Some? ==>
      -0.0005 < w - MassPerMetre(outerDiam.value, wallThick.value) <= 0.0005
    ensures Round(w * 1000.0) as real == w * 1000.0
  {
    if outerDiam.None? || wallThick.None? then 0.0
    else
      var k := Round(MassPerMetre(outerDiam.value, wallThick.value) * 1000.0);
      RoundThousandths(k);
      k as real / 1000.0
  }

  /** A wall no thicker than the pipe gives a mass that is not negative. */
  lemma WeightNonNegative(d: real, s: real)
    requires 0.0 <= s <= d
    ensures CalculateWeight(Some(d), Some(s)) >= 0.0
  {
    var m := MassPerMetre(d, s);
    assert m >= 0.0 by {
      assert (d - s) * s >= 0.0;
    }
  }

  /** `convertToInches`: "" for `NaN`, otherwise the diameter in inches with three decimals. */
  function ConvertToInches(diamMm: Option<real>): (r: string)
    ensures r == "" <==> diamMm.None?
    ensures diamMm.Some? ==> |r| >= 5 && r[|r| - 4] == '.' && AllDigits(r[|r| - 3..])
    ensures diamMm.Some? && diamMm.value >= 0.0 ==> AllDigits(r[..|r| - 4])
    ensures diamMm.Some? && diamMm.value < 0.0 ==> r[0] == '-' && AllDigits(r[1..|r| - 4])
    ensures diamMm.Some? && diamMm.value >= 0.0 ==>
      && ParseFloat(r).Some?
      && -0.0005 < ParseFloat(r).value - diamMm.value / 25.4 <= 0.0005
  {
    if diamMm.None? then "" else ToFixed3(diamMm.value / 25.4)
  }

  /** The nominal bores the inner diameter is snapped to, ascending. */
  const StandardSizes: seq<nat> := [6, 8, 10, 15, 20, 25, 32, 40, 50, 65, 80, 100]

  function Abs(x: real): (r: real)
    ensures r >= 0.0 && (r == x || r == -x)
  {
    if x < 0.0 then -x else x
  }

  /**
   * `sizes.reduce` with accumulator `prev`: the accumulator is replaced only
   * by a strictly closer size, so the result is one of the candidates and
   * no candidate is closer.
   */
  function ReduceClosest(sizes: seq<nat>, t: real, prev: nat): (r: nat)
    decreases |sizes|
    ensures r == prev || r in sizes
    ensures r == prev || Abs(r as real - t) < Abs(prev as real - t)
    ensures forall j :: 0 <= j < |sizes| ==> Abs(r as real - t) <= Abs(sizes[j] as real - t)
  {
    if sizes == [] then prev
    else
      var next := if Abs(sizes[0] as real - t) < Abs(prev as real - t) then sizes[0] else prev;
      var r := ReduceClosest(sizes[1..], t, next);
      assert forall j :: 1 <= j < |sizes| ==> sizes[j] == sizes[1..][j - 1];
      r
  }

  /**
   * Of equally close candidates the reduction keeps the earliest: `prev`
   * when it is as close as the result, otherwise a size at or before any
   * equally close one.
   */
  lemma {:induction false} ReduceClosestFirst(sizes: seq<nat>, t: real, prev: nat, j: nat)
    requires j < |sizes| && Abs(sizes[j] as real - t) == Abs(ReduceClosest(sizes, t, prev) as real - t)
    decreases |sizes|
    ensures ReduceClosest(sizes, t, prev) == prev || ReduceClosest(sizes, t, prev) in sizes[..j + 1]
  {
    var next := if Abs(sizes[0] as real - t) < Abs(prev as real - t) then sizes[0] else prev;
    var rest := sizes[1..];
    var r := ReduceClosest(rest, t, next);
    assert ReduceClosest(sizes, t, prev) == r;
    if j == 0 {
      assert r == next;
    } else {
      assert rest[j - 1] == sizes[j];
      ReduceClosestFirst(rest, t, next, j - 1);
      EarlierInPrefix(sizes, j, prev, next, r);
    }
  }

  /** Being early among the later sizes, or the new accumulator, is being early among all of them. */
  lemma EarlierInPrefix(sizes: seq<nat>, j: nat, prev: nat, next: nat, r: nat)
    requires 0 < j < |sizes| && (next == prev || next == sizes[0])
    requires r == next || r in sizes[1..][..j]
    ensures r == prev || r in sizes[..j + 1]
  {
    if r != next {
      var k :| 0 <= k < j && sizes[1..][..j][k] == r;
      assert sizes[..j + 1][k + 1] == r;
    } else if next != prev {
      assert sizes[..j + 1][0] == r;
    }
  }

  /** `sizes.reduce` without an initial value: the first size is the first accumulator. */
  function Closest(sizes: seq<nat>, t: real): (r: nat)
    requires |sizes| > 0
    ensures r in sizes
    ensures forall x :: x in sizes ==> Abs(r as real - t) <= Abs(x as real - t)
  {
    ReduceClosest(sizes[1..], t, sizes[0])
  }

  /** Each size is larger than the one before it. */
  predicate Ascending(s: seq<nat>)
  {
    forall a :: 0 <= a < |s| - 1 ==> s[a] < s[a + 1]
  }

  lemma {:induction false} AscendingPrefix(s: seq<nat>, k: nat, j: nat)
    requires Ascending(s) && k <= j < |s|
    decreases j - k
    ensures s[k] <= s[j]
  {
    if k < j {
      AscendingPrefix(s, k + 1, j);
    }
  }

  /** Reducing an ascending list keeps the smaller of two equally close sizes. */
  lemma ReduceAscendingTies(L: seq<nat>, t: real, x: nat)
    requires |L| > 0 && Ascending(L) && x in L
    requires Abs(x as real - t) == Abs(Closest(L, t) as real - t)
    ensures Closest(L, t) <= x
  {
    var i :| 0 <= i < |L| && L[i] == x;
    if i > 0 {
      TieLater(L, t, i);
    }
  }

  /** A tie with the size at index `i > 0`: the result sits at or before `i`. */
  lemma TieLater(L: seq<nat>, t: real, i: nat)
    requires 0 < i < |L| && Ascending(L)
    requires Abs(L[i] as real - t) == Abs(Closest(L, t) as real - t)
    ensures Closest(L, t) <= L[i]
  {
    var r := ReduceClosest(L[1..], t, L[0]);
    assert L[1..][i - 1] == L[i];
    ReduceClosestFirst(L[1..], t, L[0], i - 1);
    var k: nat := if r == L[0] then 0 else PrefixIndex(L[1..], i, r) + 1;
    assert L[k] == r;
    AscendingPrefix(L, k, i);
  }

  /** The index of a value known to be in a prefix. */
  ghost function PrefixIndex(s: seq<nat>, n: nat, v: nat): (k: nat)
    requires n <= |s| && v in s[..n]
    ensures k < n && s[k] == v
  {
    var k :| 0 <= k < n && s[..n][k] == v;
    k
  }

  lemma StandardSizesAscending()
    ensures Ascending(StandardSizes)
  {
  }

  /** When two standard sizes are equally close, the smaller one is taken. */
  lemma ClosestSizeTies(t: real, x: nat)
    requires x in StandardSizes && Abs(x as real - t) == Abs(Closest(StandardSizes, t) as real - t)
    ensures Closest(StandardSizes, t) <= x
  {
    StandardSizesAscending();
    ReduceAscendingTies(StandardSizes, t, x);
  }

  /**
   * `calculateNominalDiameter`: "" when either size is `NaN`, otherwise the
   * decimal digits of the standard size nearest to the inner diameter D − 2S.
   */
  function CalculateNominalDiameter(outerDiam: Option<real>, wallThick: Option<real>): (r: string)
    ensures r == "" <==> outerDiam.None? || wallThick.None?
    ensures outerDiam.Some? && wallThick.Some? ==>
      AllDigits(r) && DigitsValue(r) == Closest(StandardSizes, outerDiam.value - 2.0 * wallThick.value)
  {
    if outerDiam.None? || wallThick.None? then ""
    else NatToString(Closest(StandardSizes, outerDiam.value - 2.0 * wallThick.value))
  }

  // ---------------------------------------------------------------------
  // English name and short names
  // ---------------------------------------------------------------------

  /** `translateToEnglish`: five global replacements ignoring case, in this order. */
  function TranslateToEnglish(nameRu: string): (r: string)
    ensures (forall i: nat ::
              && !LiteralAt(nameRu, i, "Труба бесшовная", true)
              && !LiteralAt(nameRu, i, "ГОСТ", true)
              && !LiteralAt(nameRu, i, "08Х18Н10Т", true)
              && !LiteralAt(nameRu, i, "08Х18Н10", true)
              && !LiteralAt(nameRu, i, "12Х18Н10Т", true)) ==> r == nameRu
  {
    var s1 := ReplaceAll(nameRu, "Труба бесшовная", "Pipe seamless", true);
    var s2 := ReplaceAll(s1, "ГОСТ", "GOST", true);
    var s3 := ReplaceAll(s2, "08Х18Н10Т", "08X18H10T", true);
    var s4 := ReplaceAll(s3, "08Х18Н10", "08X18H10", true);
    ReplaceAll(s4, "12Х18Н10Т", "12X18H10T", true)
  }

  /** The English name mentions no "ГОСТ" in any case: every one became "GOST". */
  lemma TranslateRemovesGost(nameRu: string)
    ensures forall i: nat :: !LiteralAt(TranslateToEnglish(nameRu), i, "ГОСТ", true)
  {
    var s1 := ReplaceAll(nameRu, "Труба бесшовная", "Pipe seamless", true);
    var s2 := ReplaceAll(s1, "ГОСТ", "GOST", true);
    var s3 := ReplaceAll(s2, "08Х18Н10Т", "08X18H10T", true);
    var s4 := ReplaceAll(s3, "08Х18Н10", "08X18H10", true);
    GostReplaced(s1);
    GostStaysOut(s2, "08Х18Н10Т", "08X18H10T");
    GostStaysOut(s3, "08Х18Н10", "08X18H10");
    GostStaysOut(s4, "12Х18Н10Т", "12X18H10T");
  }

  /** Replacing "ГОСТ" by "GOST" everywhere leaves no "ГОСТ". */
  lemma GostReplaced(s: string)
    ensures forall i: nat :: !LiteralAt(ReplaceAll(s, "ГОСТ", "GOST", true), i, "ГОСТ", true)
  {
    assert NoCommonChar("GOST", "ГОСТ", true);
    ReplaceAllAvoids([], s, "ГОСТ", "GOST", "ГОСТ", true);
    assert [] + ReplaceAll(s, "ГОСТ", "GOST", true) == ReplaceAll(s, "ГОСТ", "GOST", true);
  }

  /** A grade replacement spelled with digits and Latin letters brings no "ГОСТ" back. */
  lemma GostStaysOut(s: string, pat: string, rep: string)
    requires |pat| > 0 && |rep| > 0
    requires forall k :: 0 <= k < |rep| ==> '0' <= rep[k] <= '9' || 'A' <= rep[k] <= 'Z'
    requires forall i: nat :: !LiteralAt(s, i, "ГОСТ", true)
    ensures forall i: nat :: !LiteralAt(ReplaceAll(s, pat, rep, true), i, "ГОСТ", true)
  {
    assert NoCommonChar(rep, "ГОСТ", true);
    ReplaceAllAvoids([], s, pat, rep, "ГОСТ", true);
    assert [] + ReplaceAll(s, pat, rep, true) == ReplaceAll(s, pat, rep, true);
  }

  /** The language argument of `generateShortName`. */
  datatype Lang = Ru | En

  /**
   * `generateShortName`: every standard number after "ГОСТ" (Russian) or
   * after "GOST" in the English name is dropped, leaving the word, and the
   * result is trimmed.
   */
  function GenerateShortName(fullName: string, lang: Lang): (r: string)
    ensures lang == Ru ==> |r| <= |fullName|
    ensures lang == Ru ==> IsTrimOf(r, ReplaceStandards(fullName, "ГОСТ", "ГОСТ", true))
    ensures lang == En ==> IsTrimOf(r, ReplaceStandards(TranslateToEnglish(fullName), "GOST", "GOST", true))
  {
    match lang
    case Ru => Trim(ReplaceStandards(fullName, "ГОСТ", "ГОСТ", true))
    case En => Trim(ReplaceStandards(TranslateToEnglish(fullName), "GOST", "GOST", true))
  }

  /** A name without "ГОСТ" and a number is only trimmed. */
  lemma ShortNameRuPlain(fullName: string)
    requires forall i: nat, w: nat, e: nat :: !IsStandardMatch(fullName, i, "ГОСТ", true, w, e)
    ensures GenerateShortName(fullName, Ru) == Trim(fullName)
  {
  }

  /**
   * A "ГОСТ" reference keeps only its word: the Russian short name is the
   * text before the leftmost reference, "ГОСТ", and the rest shortened the
   * same way, trimmed.
   */
  lemma ShortNameRuReference(fullName: string, i: nat, w: nat, e: nat)
    requires IsLeftmostStandard(fullName, ["ГОСТ"], true, i, 0, w, e)
    ensures GenerateShortName(fullName, Ru) == Trim(fullName[..i] + "ГОСТ" + ReplaceStandards(fullName[e..], "ГОСТ", "ГОСТ", true))
  {
    ReplaceStandardsAt(fullName, "ГОСТ", "ГОСТ", true, i, w, e);
  }

  /** The same for the English short name, on the translated name and its "GOST" references. */
  lemma ShortNameEnReference(fullName: string, i: nat, w: nat, e: nat)
    requires IsLeftmostStandard(TranslateToEnglish(fullName), ["GOST"], true, i, 0, w, e)
    ensures var t := TranslateToEnglish(fullName);
      GenerateShortName(fullName, En) == Trim(t[..i] + "GOST" + ReplaceStandards(t[e..], "GOST", "GOST", true))
  {
    ReplaceStandardsAt(TranslateToEnglish(fullName), "GOST", "GOST", true, i, w, e);
  }

  /** In "Труба ГОСТ 9941-81" the leftmost reference is "ГОСТ 9941-81", at index 6. */
  lemma ExampleReference(s: string)
    requires s == "Труба ГОСТ 9941-81"
    ensures IsLeftmostStandard(s, ["ГОСТ"], true, 6, 0, 11, 18)
  {
    assert IsStandardMatch(s, 6, "ГОСТ", true, 11, 18);
    forall i': nat, b': nat, w': nat, e': nat | i' < 6 && b' < 1
      ensures !IsStandardMatch(s, i', ["ГОСТ"][b'], true, w', e')
    {
      assert s[i'] in "Труба ";
      assert !SameChar(s[i' + 0], "ГОСТ"[0], true);
    }
  }

  /** The usual case: "Труба ГОСТ 9941-81" is shortened to "Труба ГОСТ". */
  lemma ShortNameRuExample(s: string, short: string)
    requires s == "Труба ГОСТ 9941-81" && short == "Труба ГОСТ"
    ensures GenerateShortName(s, Ru) == short
  {
    ExampleReference(s);
    assert s[..6] + "ГОСТ" == short;
    ShortNameLastReference(s, 6, 11, 18, short);
  }

  /** A name that ends in its only reference, with no space at either end, keeps the text before it and the word. */
  lemma ShortNameLastReference(s: string, i: nat, w: nat, e: nat, short: string)
    requires IsLeftmostStandard(s, ["ГОСТ"], true, i, 0, w, e) && e == |s|
    requires short == s[..i] + "ГОСТ" && !IsSpace(short[0])
    ensures GenerateShortName(s, Ru) == short
  {
    ShortNameRuReference(s, i, w, e);
    assert s[e..] == [];
    assert short[|short| - 1] == 'Т';
    TrimUnchanged(short);
  }

  /** Short names carry no surrounding whitespace: trimming one again changes nothing. */
  lemma ShortNameTrimmed(fullName: string, lang: Lang)
    ensures Trim(GenerateShortName(fullName, lang)) == GenerateShortName(fullName, lang)
  {
    match lang
    case Ru => TrimIdempotent(ReplaceStandards(fullName, "ГОСТ", "ГОСТ", true));
    case En => TrimIdempotent(ReplaceStandards(TranslateToEnglish(fullName), "GOST", "GOST", true));
  }

  // ---------------------------------------------------------------------
  // Assembling the record
  // ---------------------------------------------------------------------

  /** `mapToProductData`: the extracted fields, the derived ones and the fixed defaults. */
  function MapToProductData(parsed: ParsedComponents, originalName: string): (r: ProductData)
    ensures r.fullNameRu == originalName && r.outerDiameter == parsed.outerDiameter && r.wallThickness == parsed.wallThickness
    ensures r.outerDiameterInch == "" <==> ParseFloat(parsed.outerDiameter).None?
    ensures r.nominalDiameter == "" <==> ParseFloat(parsed.outerDiameter).None? || ParseFloat(parsed.wallThickness).None?
    ensures r.manufacturingMethod != "" && r.construction != ""
  {
    var outerDiam := ParseFloat(parsed.outerDiameter);
    var wallThick := ParseFloat(parsed.wallThickness);
    ProductData(
      fullNameRu := originalName,
      fullNameEn := TranslateToEnglish(originalName),
      shortNameRu := GenerateShortName(originalName, Ru),
      shortNameEn := GenerateShortName(originalName, En),
      unit := "м",
      normativeDocument := parsed.standard,
      weight := NumberToString(CalculateWeight(outerDiam, wallThick)),
      classCode := DetermineClass(parsed.steelGrade),
      materialCategory := DetermineMaterialCategory(parsed.steelGrade),
      purpose := "общего назначения",
      section := "круг",
      outerDiameter := parsed.outerDiameter,
      outerDiameterInch := ConvertToInches(outerDiam),
      nominalDiameter := CalculateNominalDiameter(outerDiam, wallThick),
      sizeA := "",
      sizeB := "",
      wallThickness := parsed.wallThickness,
      length := "",
      manufacturingMethod := OrElse(parsed.manufacturingMethod, "холоднодеформированная"),
      construction := OrElse(parsed.construction, "бесшовная"),
      measuredLength := "нет",
      manufacturingAccuracy := "",
      qualityGroup := "",
      steelGrade := parsed.steelGrade,
      deoxidationDegree := "",
      rollingCategory := "",
      strengthClass := "",
      hasThreading := false,
      hasCouplings := false,
      hasCoating := false,
      agingTest := false,
      hydrogenCrackingTest := false,
      iccResistance := false,
      kcuTestTemperature := "",
      kcuMinValue := "",
      kcvTestTemperature := "",
      kcvMinValue := "")
  }

  // ---------------------------------------------------------------------
  // Properties of the assembled record
  // ---------------------------------------------------------------------

  /** Without a size in the name the derived numbers fall back: weight "0", no inches, no nominal bore. */
  lemma ParseWithoutSize(name: string)
    requires forall i: nat, j: nat, k: nat :: !IsSizeMatch(name, i, j, k)
    ensures Parse(name).outerDiameter == "" && Parse(name).wallThickness == ""
    ensures Parse(name).weight == "0"
    ensures Parse(name).outerDiameterInch == "" && Parse(name).nominalDiameter == ""
  {
    assert ParseFloat("").None?;
    assert CalculateWeight(None, None) == 0.0;
    assert Round(0.0 * 1000.0) == 0;
    assert NatToString(0) == "0";
  }

  /** The inch field is present exactly when a diameter was found. */
  lemma ParseInchPresent(name: string)
    ensures Parse(name).outerDiameterInch == "" <==> Parse(name).outerDiameter == ""
  {
    var d := ExtractOuterDiameter(name);
    SizeFieldsAgree(name);
    if d != "" {
      ParseInteger(d);
    } else {
      assert ParseFloat(d).None?;
    }
  }

  /**
   * A wall no thicker than the diameter gives a printed weight that reads
   * back as the mass per metre to within half a thousandth.
   */
  lemma ParseWeightReadsBack(name: string)
    requires var d, s := ParseFloat(ExtractOuterDiameter(name)), ParseFloat(ExtractWallThickness(name));
      d.Some? && s.Some? && s.value <= d.value
    ensures var d, s := ParseFloat(ExtractOuterDiameter(name)), ParseFloat(ExtractWallThickness(name));
      && ParseFloat(Parse(name).weight) == Some(CalculateWeight(d, s))
      && -0.0005 < CalculateWeight(d, s) - MassPerMetre(d.value, s.value) <= 0.0005
  {
    var d, s := ParseFloat(ExtractOuterDiameter(name)), ParseFloat(ExtractWallThickness(name));
    assert Parse(name).weight == NumberToString(CalculateWeight(d, s));
    WeightTextReadsBack(d.value, s.value);
  }

  /** The printed weight of a pipe whose wall is no thicker than its diameter reads back exactly. */
  lemma WeightTextReadsBack(d: real, s: real)
    requires 0.0 <= s <= d
    ensures ParseFloat(NumberToString(CalculateWeight(Some(d), Some(s)))) == Some(CalculateWeight(Some(d), Some(s)))
  {
    var w := CalculateWeight(Some(d), Some(s));
    WeightNonNegative(d, s);
    assert Round(w * 1000.0) >= 0;
    assert w == Round(w * 1000.0) as real / 1000.0;
  }

  /** The English full name carries no "ГОСТ", in any case. */
  lemma ParseEnglishName(name: string)
    ensures forall i: nat :: !LiteralAt(Parse(name).fullNameEn, i, "ГОСТ", true)
  {
    TranslateRemovesGost(name);
  }
}
