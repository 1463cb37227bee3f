/**
 * The fastener designation parser (`FastenerParser`): extractors that pull
 * the type, thread diameter, accuracy class, thickness, material, standard
 * and application out of a name such as
 * "Гайка М10-7H.12Х18Н10Т ОСТ 26-2041-96", the derivations (weight, class,
 * material category, hardness, washer type, chamfer, coating), and the
 * assembler that fills `FastenerData`.
 */
module FastenerParser {
  import opened Wrappers
  import opened Text
  import opened Scan
  import opened Numbers
  import opened FastenerTypes

  // ---------------------------------------------------------------------
  // Entry point
  // ---------------------------------------------------------------------

  /** `FastenerParser.parse`: total on every string. */
  function Parse(name: string): (r: FastenerData)
    ensures r.name == name && r.unit == "шт"
    ensures r.threadDiameter == ExtractDiameter(name)
    ensures r.thickness == (if ExtractThickness(name) == "" then "Не указано" else ExtractThickness(name))
    ensures r.hasChamfer <==> ExtractType(name) == "Гайка"
  {
    MapToFastenerData(ParseComponents(name), name)
  }

  function ParseComponents(name: string): (p: ParsedComponents)
    ensures p.thickness.Some?
  {
    var material := ExtractMaterial(name);
    ParsedComponents(
      ExtractType(name),
      ExtractApplication(name),
      ExtractDiameter(name),
      ExtractAccuracyClass(name),
      Some(ExtractThickness(name)),
      material,
      ExtractSteelGrade(material),
      ExtractStandard(name))
  }

  // ---------------------------------------------------------------------
  // Type and application
  // ---------------------------------------------------------------------

  /** `extractType`: the first of nut, washer, bolt, screw mentioned in any case, in that order. */
  function ExtractType(name: string): (r: string)
    ensures r == (if Occurs(name, "гайка", true) then "Гайка"
                  else if Occurs(name, "шайба", true) then "Шайба"
                  else if Occurs(name, "болт", true) then "Болт"
                  else if Occurs(name, "винт", true) then "Винт"
                  else "Неизвестно")
  {
    IncludesLower(name, "гайка");
    IncludesLower(name, "шайба");
    IncludesLower(name, "болт");
    IncludesLower(name, "винт");
    var lower := Lower(name);
    if Includes(lower, "гайка") then "Гайка"
    else if Includes(lower, "шайба") then "Шайба"
    else if Includes(lower, "болт") then "Болт"
    else if Includes(lower, "винт") then "Винт"
    else "Неизвестно"
  }

  /** `extractApplication`: flange joints when the name says so, case-sensitively. */
  function ExtractApplication(name: string): (r: string)
    ensures r == (if Occurs(name, "фланцевых соединений", false) then "Фланцевые соединения" else "Общего назначения")
  {
    if Includes(name, "фланцевых соединений") then "Фланцевые соединения" else "Общего назначения"
  }

  // ---------------------------------------------------------------------
  // Thread diameter: М?(\d+(?:\.\d+)?)
  // ---------------------------------------------------------------------

  /** The Cyrillic capital that may stand in front of a thread diameter. */
  const Metric: char := 'М'

  /** `d` is the first digit of `s`. */
  ghost predicate FirstDigit(s: string, d: nat)
  {
    d < |s| && IsDigit(s[d]) && forall k :: 0 <= k < d ==> !IsDigit(s[k])
  }

  /**
   * `\d+(?:\.\d+)?` from the digit at `d`, greedily: the digit run, and a
   * point with its digit run when a digit follows the point.
   */
  function DecimalEnd(s: string, d: nat): (e: nat)
    requires d < |s| && IsDigit(s[d])
    ensures d < e <= |s|
    ensures var j := RunEnd(s, d, Digit);
      || (e == j && !(j + 1 < |s| && s[j] == '.' && IsDigit(s[j + 1])))
      || (j + 1 < e && s[j] == '.' && AllIn(s, j + 1, e, Digit) && (e == |s| || !IsDigit(s[e])))
  {
    var j := RunEnd(s, d, Digit);
    if j + 1 < |s| && s[j] == '.' && IsDigit(s[j + 1]) then RunEnd(s, j + 1, Digit) else j
  }

  /** `М?(\d+(?:\.\d+)?)` anchored at `i`: where the captured number starts and ends. */
  function DiameterAt(s: string, i: nat): (r: Option<(nat, nat)>)
    ensures r.Some? ==> (r.value.0 == i || (r.value.0 == i + 1 && i < |s| && s[i] == Metric))
    ensures r.Some? ==> r.value.0 < |s| && IsDigit(s[r.value.0]) && r.value.1 == DecimalEnd(s, r.value.0)
    ensures r.None? ==> !(i < |s| && IsDigit(s[i])) && !(i + 1 < |s| && IsDigit(s[i + 1]) && s[i] == Metric)
  {
    if i < |s| && IsDigit(s[i]) then Some((i, DecimalEnd(s, i)))
    else if i + 1 < |s| && s[i] == Metric && IsDigit(s[i + 1]) then Some((i + 1, DecimalEnd(s, i + 1)))
    else None
  }

  /**
   * `extractDiameter`: the number the leftmost match captures, or "".
   * Whether or not an `М` stands in front of it, the capture starts at the
   * first digit of the name.
   */
  function ExtractDiameter(name: string): (r: string)
    ensures r == "" <==> forall k :: 0 <= k < |name| ==> !IsDigit(name[k])
    ensures r != "" ==> exists d: nat :: FirstDigit(name, d) && r == name[d..DecimalEnd(name, d)]
  {
    var at := (i: nat) => DiameterAt(name, i);
    match FirstMatch(|name|, 0, at)
    case None =>
      forall k | 0 <= k < |name| ensures !IsDigit(name[k]) {
        assert at(k).None?;
      }
      ""
    case Some((i, span)) =>
      var d := span.0;
      forall k | 0 <= k < d ensures !IsDigit(name[k]) {
        if k < i {
          assert at(k).None?;
        }
      }
      assert FirstDigit(name, d);
      name[d..span.1]
  }

  /** A diameter that was found reads as a number: digits, possibly a point and more digits. */
  lemma DiameterIsNumber(name: string)
    ensures ExtractDiameter(name) != "" <==> ParseFloat(ExtractDiameter(name)).Some?
  {
    var r := ExtractDiameter(name);
    ParseFloatNaN(r);
    if r != "" {
      var d: nat :| FirstDigit(name, d) && r == name[d..DecimalEnd(name, d)];
      assert r[0] == name[d];
    }
  }

  // ---------------------------------------------------------------------
  // Accuracy class: (\d+[HГ]|\.\d+)
  // ---------------------------------------------------------------------

  /** `\d+[HГ]` or, failing that, `\.\d+` matches `s[i..e]`, greedily. */
  ghost predicate IsAccuracyMatch(s: string, i: nat, e: nat)
  {
    || (i + 1 < e <= |s| && AllIn(s, i, e - 1, Digit) && InClass(s[e - 1], AccuracyLetter))
    || (i + 1 < e <= |s| && s[i] == '.' && AllIn(s, i + 1, e, Digit) && (e == |s| || !IsDigit(s[e])))
  }

  ghost predicate IsLeftmostAccuracy(s: string, i: nat, e: nat)
  {
    IsAccuracyMatch(s, i, e) && forall i': nat, e': nat :: i' < i ==> !IsAccuracyMatch(s, i', e')
  }

  /** `(\d+[HГ]|\.\d+)` anchored at `i`: where the match ends. */
  function AccuracyAt(s: string, i: nat): (r: Option<nat>)
    ensures r.Some? ==> IsAccuracyMatch(s, i, r.value)
    ensures r.None? ==> forall e: nat :: !IsAccuracyMatch(s, i, e)
  {
    if i < |s| && IsDigit(s[i]) then
      var j := RunEnd(s, i, Digit);
      if j < |s| && InClass(s[j], AccuracyLetter) then Some(j + 1)
      else
        forall e: nat ensures !IsAccuracyMatch(s, i, e) {
          if i + 1 < e <= |s| && AllIn(s, i, e - 1, Digit) {
            assert e - 1 <= j;
          }
        }
        None
    else if i + 1 < |s| && s[i] == '.' && IsDigit(s[i + 1]) then
      var e := RunEnd(s, i + 1, Digit);
      Some(e)
    else
      None
  }

  /** `extractAccuracyClass`: the leftmost match, or "". */
  function ExtractAccuracyClass(name: string): (r: string)
    ensures r == "" <==> forall i: nat, e: nat :: !IsAccuracyMatch(name, i, e)
    ensures r != "" ==> exists i: nat, e: nat :: IsLeftmostAccuracy(name, i, e) && r == name[i..e]
  {
    var at := (i: nat) => AccuracyAt(name, i);
    match FirstMatch(|name|, 0, at)
    case None =>
      forall i: nat, e: nat ensures !IsAccuracyMatch(name, i, e) {
        if i < |name| {
          assert at(i).None?;
        }
      }
      ""
    case Some((i, e)) =>
      forall i': nat, e': nat | i' < i ensures !IsAccuracyMatch(name, i', e') {
        assert at(i').None?;
      }
      name[i..e]
  }

  /**
   * An accuracy class is digits closed by `H` or `Г`, or a point and
   * digits; the two forms exclude each other.
   */
  lemma AccuracyShape(name: string)
    ensures var r := ExtractAccuracyClass(name);
      r != "" ==>
        || (|r| >= 2 && InClass(r[|r| - 1], AccuracyLetter) && AllDigits(r[..|r| - 1]))
        || (|r| >= 2 && r[0] == '.' && AllDigits(r[1..]))
  {
    var r := ExtractAccuracyClass(name);
    if r != "" {
      var i: nat, e: nat :| IsLeftmostAccuracy(name, i, e) && r == name[i..e];
      assert forall k :: 0 <= k < |r| ==> r[k] == name[i + k];
      if AllIn(name, i, e - 1, Digit) && InClass(name[e - 1], AccuracyLetter) {
        assert r[..|r| - 1] == name[i..e - 1];
        AllInDigits(name, i, e - 1);
      } else {
        assert r[1..] == name[i + 1..e];
        AllInDigits(name, i + 1, e);
      }
    }
  }

  // ---------------------------------------------------------------------
  // Thickness: \d+\.(\d+)
  // ---------------------------------------------------------------------

  /** `\d+\.(\d+)` matches `s[i..e]` with the point at `j`, greedily. */
  ghost predicate IsThicknessMatch(s: string, i: nat, j: nat, e: nat)
  {
    && i < j && j + 1 < e <= |s|
    && AllIn(s, i, j, Digit) && s[j] == '.' && AllIn(s, j + 1, e, Digit)
    && (e == |s| || !IsDigit(s[e]))
  }

  ghost predicate IsLeftmostThickness(s: string, i: nat, j: nat, e: nat)
  {
    IsThicknessMatch(s, i, j, e) && forall i': nat, j': nat, e': nat :: i' < i ==> !IsThicknessMatch(s, i', j', e')
  }

  /** `\d+\.(\d+)` anchored at `i`: where the point is and where the captured digits end. */
  function ThicknessAt(s: string, i: nat): (r: Option<(nat, nat)>)
    ensures r.Some? ==> IsThicknessMatch(s, i, r.value.0, r.value.1)
    ensures r.None? ==> forall j: nat, e: nat :: !IsThicknessMatch(s, i, j, e)
  {
    if i < |s| && IsDigit(s[i]) then
      var j := RunEnd(s, i, Digit);
      if j + 1 < |s| && s[j] == '.' && IsDigit(s[j + 1]) then Some((j, RunEnd(s, j + 1, Digit)))
      else
        forall j': nat, e: nat ensures !IsThicknessMatch(s, i, j', e) {
          if IsThicknessMatch(s, i, j', e) {
            RunEndUnique(s, i, j', Digit);
          }
        }
        None
    else None
  }

  /** `extractThickness`: the digits after the point of the leftmost match, or "". */
  function ExtractThickness(name: string): (r: string)
    ensures r == "" <==> forall i: nat, j: nat, e: nat :: !IsThicknessMatch(name, i, j, e)
    ensures r != "" ==> exists i: nat, j: nat, e: nat :: IsLeftmostThickness(name, i, j, e) && r == name[j + 1..e]
  {
    var at := (i: nat) => ThicknessAt(name, i);
    match FirstMatch(|name|, 0, at)
    case None =>
      forall i: nat, j: nat, e: nat ensures !IsThicknessMatch(name, i, j, e) {
        if i < |name| {
          assert at(i).None?;
        }
      }
      ""
    case Some((i, h)) =>
      forall i': nat, j': nat, e': nat | i' < i ensures !IsThicknessMatch(name, i', j', e') {
        assert at(i').None?;
      }
      assert IsLeftmostThickness(name, i, h.0, h.1);
      name[h.0 + 1..h.1]
  }

  /** A thickness is made of digits only. */
  lemma ThicknessIsDigits(name: string)
    ensures AllDigits(ExtractThickness(name))
  {
    var r := ExtractThickness(name);
    if r != "" {
      var i: nat, j: nat, e: nat :| IsLeftmostThickness(name, i, j, e) && r == name[j + 1..e];
      AllInDigits(name, j + 1, e);
    }
  }

  // ---------------------------------------------------------------------
  // Material: (\d+[ХНТ]+\d*[ХНТ]*\d*)
  // ---------------------------------------------------------------------

  /** The ends of the five runs `\d+`, `[ХНТ]+`, `\d*`, `[ХНТ]*`, `\d*`. */
  datatype MaterialHit = MaterialHit(digits1: nat, letters1: nat, digits2: nat, letters2: nat, stop: nat)

  /** The five runs cover `s[i..h.stop]`, each as long as it can be. */
  ghost predicate IsMaterialMatch(s: string, i: nat, h: MaterialHit)
  {
    && i < h.digits1 < h.letters1 <= h.digits2 <= h.letters2 <= h.stop <= |s|
    && AllIn(s, i, h.digits1, Digit) && AllIn(s, h.digits1, h.letters1, AlloyLetter)
    && AllIn(s, h.letters1, h.digits2, Digit) && AllIn(s, h.digits2, h.letters2, AlloyLetter)
    && AllIn(s, h.letters2, h.stop, Digit)
    && !InClass(s[h.digits1], Digit)
    && (h.letters1 == |s| || !InClass(s[h.letters1], AlloyLetter))
    && (h.digits2 == |s| || !InClass(s[h.digits2], Digit))
    && (h.letters2 == |s| || !InClass(s[h.letters2], AlloyLetter))
    && (h.stop == |s| || !InClass(s[h.stop], Digit))
  }

  /** A match can start at `i`: digits, then at least one alloy letter. */
  ghost predicate MaterialCanStart(s: string, i: nat)
  {
    exists j: nat :: i < j < |s| && AllIn(s, i, j, Digit) && InClass(s[j], AlloyLetter)
  }

  ghost predicate IsLeftmostMaterial(s: string, i: nat, h: MaterialHit)
  {
    IsMaterialMatch(s, i, h) && forall i': nat :: i' < i ==> !MaterialCanStart(s, i')
  }

  /** `\d+[ХНТ]+\d*[ХНТ]*\d*` anchored at `i`. */
  function MaterialAt(s: string, i: nat): (r: Option<MaterialHit>)
    ensures r.Some? ==> IsMaterialMatch(s, i, r.value)
    ensures r.None? ==> !MaterialCanStart(s, i)
  {
    if i < |s| && IsDigit(s[i]) then
      var d1 := RunEnd(s, i, Digit);
      if d1 < |s| && InClass(s[d1], AlloyLetter) then
        var l1 := RunEnd(s, d1, AlloyLetter);
        var d2 := RunEnd(s, l1, Digit);
        var l2 := RunEnd(s, d2, AlloyLetter);
        Some(MaterialHit(d1, l1, d2, l2, RunEnd(s, l2, Digit)))
      else
        forall j: nat | i < j < |s| && AllIn(s, i, j, Digit) ensures !InClass(s[j], AlloyLetter) {
          if InClass(s[j], AlloyLetter) {
            RunEndUnique(s, i, j, Digit);
          }
        }
        None
    else
      None
  }

  /** `extractMaterial`: the leftmost match, or "". */
  function ExtractMaterial(name: string): (r: string)
    ensures r == "" <==> forall i: nat :: !MaterialCanStart(name, i)
    ensures r != "" ==> exists i: nat, h: MaterialHit :: IsLeftmostMaterial(name, i, h) && r == name[i..h.stop]
  {
    var at := (i: nat) => MaterialAt(name, i);
    match FirstMatch(|name|, 0, at)
    case None =>
      forall i: nat ensures !MaterialCanStart(name, i) {
        if i < |name| {
          assert at(i).None?;
        }
      }
      ""
    case Some((i, h)) =>
      forall i': nat | i' < i ensures !MaterialCanStart(name, i') {
        assert at(i').None?;
      }
      assert IsLeftmostMaterial(name, i, h);
      assert MaterialCanStart(name, i) by {
        assert InClass(name[h.digits1], AlloyLetter);
      }
      assert |name[i..h.stop]| > 0;
      name[i..h.stop]
  }

  /** Letter, digit, any, letter, digit, any, letter: the outline of "Х18Н10Т" at `p`. */
  predicate StainlessOutline(s: string, p: nat)
    requires p + 7 <= |s|
  {
    && InClass(s[p], AlloyLetter) && IsDigit(s[p + 1]) && InClass(s[p + 3], AlloyLetter)
    && IsDigit(s[p + 4]) && InClass(s[p + 6], AlloyLetter)
  }

  lemma LiteralOutline(t: string, k: nat)
    requires k + 7 <= |t|
    ensures LiteralAt(t, k, "Х18Н10Т", false) ==> StainlessOutline(t, k)
  {
    var g := "Х18Н10Т";
    if LiteralAt(t, k, g, false) {
      assert SameChar(t[k + 0], g[0], false) && SameChar(t[k + 1], g[1], false);
      assert SameChar(t[k + 3], g[3], false) && SameChar(t[k + 4], g[4], false);
      assert SameChar(t[k + 6], g[6], false);
    }
  }

  /**
   * The material pattern has room for only two runs of alloy letters, so a
   * material never contains "Х18Н10Т", which needs three.
   */
  lemma MaterialLacksStainless(name: string)
    ensures forall k: nat :: !LiteralAt(ExtractMaterial(name), k, "Х18Н10Т", false)
  {
    var r := ExtractMaterial(name);
    if r != "" {
      var i: nat, h: MaterialHit :| IsLeftmostMaterial(name, i, h) && r == name[i..h.stop];
      MatchHasNoStainless(name, i, h);
    }
  }

  /** Without the outline nowhere, no "Х18Н10Т" either. */
  lemma NoOutlineNoStainless(r: string)
    requires forall k: nat :: k + 7 <= |r| ==> !StainlessOutline(r, k)
    ensures forall k: nat :: !LiteralAt(r, k, "Х18Н10Т", false)
  {
    forall k: nat | k + 7 <= |r| ensures !LiteralAt(r, k, "Х18Н10Т", false) {
      LiteralOutline(r, k);
    }
  }

  /** The text of a material match has the outline of "Х18Н10Т" nowhere, so it holds no "Х18Н10Т". */
  lemma MatchHasNoStainless(s: string, i: nat, h: MaterialHit)
    requires IsMaterialMatch(s, i, h)
    ensures forall k: nat :: !LiteralAt(s[i..h.stop], k, "Х18Н10Т", false)
  {
    var r := s[i..h.stop];
    forall k: nat | k + 7 <= |r| ensures !StainlessOutline(r, k) {
      NoOutlineInMaterial(s, i, h, i + k);
      OutlineInSlice(s, i, h.stop, k);
    }
    NoOutlineNoStainless(r);
  }

  /** The outline at `k` of a slice is the outline at `i + k` of the whole. */
  lemma OutlineInSlice(s: string, i: nat, e: nat, k: nat)
    requires i <= e <= |s| && k + 7 <= e - i
    ensures StainlessOutline(s[i..e], k) == StainlessOutline(s, i + k)
  {
    var r := s[i..e];
    assert r[k] == s[i + k] && r[k + 1] == s[i + k + 1] && r[k + 3] == s[i + k + 3];
    assert r[k + 4] == s[i + k + 4] && r[k + 6] == s[i + k + 6];
  }

  /** No stretch of one material match has the outline of "Х18Н10Т". */
  lemma NoOutlineInMaterial(s: string, i: nat, h: MaterialHit, p: nat)
    requires IsMaterialMatch(s, i, h) && i <= p && p + 7 <= h.stop
    ensures !StainlessOutline(s, p)
  {
    if InClass(s[p], AlloyLetter) && IsDigit(s[p + 1]) && InClass(s[p + 3], AlloyLetter) && IsDigit(s[p + 4]) {
      LastRunReached(s, i, h, p);
    }
  }

  /** After letter, digit, any, letter, digit the match is in its final run of digits. */
  lemma LastRunReached(s: string, i: nat, h: MaterialHit, p: nat)
    requires IsMaterialMatch(s, i, h) && i <= p && p + 7 <= h.stop
    requires InClass(s[p], AlloyLetter) && IsDigit(s[p + 1]) && InClass(s[p + 3], AlloyLetter) && IsDigit(s[p + 4])
    ensures h.letters2 <= p + 4 && IsDigit(s[p + 6])
  {
  }

  /** `extractSteelGrade`: austenitic stainless for the two 18-10 titanium grades, alloyed otherwise. */
  function ExtractSteelGrade(material: string): (r: string)
    ensures r == (if Occurs(material, "12Х18Н10Т", false) || Occurs(material, "08Х18Н10Т", false)
                  then "Аустенитная нержавеющая сталь" else "Легированная сталь")
  {
    if Includes(material, "12Х18Н10Т") then "Аустенитная нержавеющая сталь"
    else if Includes(material, "08Х18Н10Т") then "Аустенитная нержавеющая сталь"
    else "Легированная сталь"
  }

  // ---------------------------------------------------------------------
  // Standard
  // ---------------------------------------------------------------------

  /** The alternatives of `(ОСТ|ГОСТ)`, matched case-sensitively. */
  const FastenerMarkers: seq<string> := ["ОСТ", "ГОСТ"]

  /** `extractStandard`: `/(ОСТ|ГОСТ)\s*([\d\-\.]+)/`, printed as marker, one space, number. */
  function ExtractStandard(name: string): (r: string)
    ensures r == "" <==> NoStandard(name, FastenerMarkers, false)
    ensures r != "" ==> IsStandardText(name, FastenerMarkers, false, r)
  {
    StandardText(name, FastenerMarkers, false)
  }

  // ---------------------------------------------------------------------
  // Derived fields
  // ---------------------------------------------------------------------

  /** The approximate mass of a nut or washer per squared millimetre of diameter. */
  function WeightFactor(kind: string): (f: Option<real>)
    ensures f.Some? <==> kind == "Гайка" || kind == "Шайба"
    ensures f.Some? ==> f.value > 0.0
  {
    if kind == "Гайка" then Some(0.01)
    else if kind == "Шайба" then Some(0.005)
    else None
  }

  /**
   * `calculateWeight`: for a nut or washer with a readable diameter, the
   * factor times the squared diameter with three decimals and " кг";
   * "Не указано" otherwise.
   */
  function CalculateWeight(parsed: ParsedComponents): (r: string)
    ensures r == "Не указано" <==> ParseFloat(parsed.diameter).None? || WeightFactor(parsed.kind).None?
    ensures r != "Не указано" ==>
      var d, f := ParseFloat(parsed.diameter).value, WeightFactor(parsed.kind).value;
      && |r| >= 3 && r[|r| - 3..] == " кг"
      && ParseFloat(r).Some?
      && -0.0005 < ParseFloat(r).value - ApproximateMass(d, f) <= 0.0005
  {
    var diameter, factor := ParseFloat(parsed.diameter), WeightFactor(parsed.kind);
    if diameter.None? || factor.None? then "Не указано"
    else
      var d, f := diameter.value, factor.value;
      KilogramText(ApproximateMass(d, f))
  }

  /** The squared diameter times the factor of the fastener type, in kilograms. */
  function ApproximateMass(d: real, f: real): (m: real)
    requires f > 0.0
    ensures m >= 0.0
  {
    assert d * d >= 0.0;
    d * d * f
  }

  /** `x.toFixed(3) + ' кг'` for a mass that is not negative. */
  function KilogramText(x: real): (r: string)
    requires x >= 0.0
    ensures |r| >= 3 && r[|r| - 3..] == " кг" && r != "Не указано"
    ensures ParseFloat(r).Some? && -0.0005 < ParseFloat(r).value - x <= 0.0005
  {
    var digits := ToFixed3(x);
    ParseFloatIgnoresSuffix(digits, " кг");
    var r := digits + " кг";
    assert r[|r| - 3..] == " кг";
    assert r[0] != 'Н' by {
      assert r[0] == digits[0];
    }
    r
  }

  /** `determineClass`: A2 for 12Х18Н10Т, A1 for 08Х18Н10Т, standard otherwise. */
  function DetermineClass(parsed: ParsedComponents): (r: string)
    ensures r == (if Occurs(parsed.material, "12Х18Н10Т", false) then "А2"
                  else if Occurs(parsed.material, "08Х18Н10Т", false) then "А1"
                  else "Стандартный")
  {
    if Includes(parsed.material, "12Х18Н10Т") then "А2"
    else if Includes(parsed.material, "08Х18Н10Т") then "А1"
    else "Стандартный"
  }

  /** `determineMaterialCategory`: stainless exactly for an 18-10 titanium material. */
  function DetermineMaterialCategory(material: string): (r: string)
    ensures r == (if Occurs(material, "Х18Н10Т", false) then "Нержавеющая сталь" else "Углеродистая сталь")
  {
    if Includes(material, "Х18Н10Т") then "Нержавеющая сталь" else "Углеродистая сталь"
  }

  /** `determineHardness`: the Vickers range of the two stainless grades, "Не указано" otherwise. */
  function DetermineHardness(material: string): (r: string)
    ensures r == (if Occurs(material, "12Х18Н10Т", false) then "200-250 HV"
                  else if Occurs(material, "08Х18Н10Т", false) then "180-230 HV"
                  else "Не указано")
  {
    if Includes(material, "12Х18Н10Т") then "200-250 HV"
    else if Includes(material, "08Х18Н10Т") then "180-230 HV"
    else "Не указано"
  }

  /** `determineWasherType`: only a washer has a type; a flange application makes it reinforced. */
  function DetermineWasherType(parsed: ParsedComponents): (r: string)
    ensures parsed.kind != "Шайба" ==> r == "Не применимо"
    ensures parsed.kind == "Шайба" ==>
      r == (if Occurs(parsed.application, "фланцевых", false) then "Плоская усиленная" else "Плоская обычная")
  {
    if parsed.kind == "Шайба" then
      if Includes(parsed.application, "фланцевых") then "Плоская усиленная" else "Плоская обычная"
    else "Не применимо"
  }

  /** `hasChamfer`: nuts are chamfered. */
  function HasChamfer(parsed: ParsedComponents): (b: bool)
    ensures b <==> parsed.kind == "Гайка"
  {
    parsed.kind == "Гайка"
  }

  /** `hasCoating`: everything but an 18-10 titanium stainless material is coated. */
  function HasCoating(parsed: ParsedComponents): (b: bool)
    ensures b <==> !Occurs(parsed.material, "Х18Н10Т", false)
  {
    !Includes(parsed.material, "Х18Н10Т")
  }

  /** `mapToFastenerData`: the extracted fields and the derived ones. */
  function MapToFastenerData(parsed: ParsedComponents, originalName: string): (r: FastenerData)
    ensures r.name == originalName && r.unit == "шт"
    ensures r.thickness != "" && (parsed.thickness.Some? && parsed.thickness.value != "" ==> r.thickness == parsed.thickness.value)
    ensures r.weight == "Не указано" <==> ParseFloat(parsed.diameter).None? || WeightFactor(parsed.kind).None?
    ensures r.hasChamfer <==> parsed.kind == "Гайка"
  {
    FastenerData(
      name := originalName,
      unit := "шт",
      normativeDocument := parsed.standard,
      weight := CalculateWeight(parsed),
      classCode := DetermineClass(parsed),
      materialCategory := DetermineMaterialCategory(parsed.material),
      threadDiameter := parsed.diameter,
      thickness := OrElse(parsed.thickness, "Не указано"),
      material := parsed.material,
      steelGrade := parsed.steelGrade,
      accuracyClass := parsed.accuracyClass,
      vickersHardness := DetermineHardness(parsed.material),
      washerType := DetermineWasherType(parsed),
      hasChamfer := HasChamfer(parsed),
      hasCoating := HasCoating(parsed))
  }

  // ---------------------------------------------------------------------
  // Properties of the assembled record
  // ---------------------------------------------------------------------

  /** Either titanium grade contains "Х18Н10Т" from its third character on. */
  lemma GradeTailOccurs(s: string, g: string)
    requires g == "12Х18Н10Т" || g == "08Х18Н10Т"
    ensures Occurs(s, g, false) ==> Occurs(s, "Х18Н10Т", false)
  {
    if Occurs(s, g, false) {
      var i: nat :| LiteralAt(s, i, g, false);
      assert LiteralAt(s, i + 2, "Х18Н10Т", false) by {
        forall k | 0 <= k < 7 ensures SameChar(s[i + 2 + k], "Х18Н10Т"[k], false) {
          assert SameChar(s[i + (2 + k)], g[2 + k], false);
        }
      }
    }
  }

  /**
   * Because the material never holds "Х18Н10Т", every branch for stainless
   * steel is out of reach: any fastener gets the alloyed grade, the
   * standard class, carbon steel, no hardness, and a coating.
   */
  lemma ParseMaterialBranches(name: string)
    ensures Parse(name).steelGrade == "Легированная сталь"
    ensures Parse(name).classCode == "Стандартный"
    ensures Parse(name).materialCategory == "Углеродистая сталь"
    ensures Parse(name).vickersHardness == "Не указано"
    ensures Parse(name).hasCoating
  {
    var m := ExtractMaterial(name);
    MaterialLacksStainless(name);
    GradeTailOccurs(m, "12Х18Н10Т");
    GradeTailOccurs(m, "08Х18Н10Т");
    assert !Occurs(m, "12Х18Н10Т", false) && !Occurs(m, "08Х18Н10Т", false) && !Occurs(m, "Х18Н10Т", false);
    var p := ParseComponents(name);
    assert p.material == m;
  }

  /** The application text never spells "фланцевых", so a washer is always the plain one. */
  lemma ParseWasherType(name: string)
    ensures Parse(name).washerType == (if ExtractType(name) == "Шайба" then "Плоская обычная" else "Не применимо")
  {
    var a := ExtractApplication(name);
    assert forall k :: 0 <= k < |a| ==> a[k] != 'ф';
    forall i: nat ensures !LiteralAt(a, i, "фланцевых", false) {
      if i < |a| {
        assert a[i] != "фланцевых"[0];
      }
    }
  }

  /** A weight is given exactly for a nut or a washer whose name has a digit. */
  lemma ParseWeightGiven(name: string)
    ensures Parse(name).weight != "Не указано" <==>
      (ExtractType(name) == "Гайка" || ExtractType(name) == "Шайба") && exists k :: 0 <= k < |name| && IsDigit(name[k])
  {
    DiameterIsNumber(name);
  }
}
