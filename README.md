# Product designation parsers

This project models the two designation parsers of a small web tool for industrial nomenclature. Each parser takes one free-text product name written by a person and returns a flat record of technical attributes.

- `ProductParser` (`src/utils/productParser.ts`) handles pipe names such as "Труба бесшовная 25х2,5 08Х18Н10Т ГОСТ 9941-81". It returns a 37-field `ProductData` record: the Russian and English full and short names, the unit, the standard, the weight per metre, the class, the material category, the outer diameter in mm and in inches, the nominal bore, the wall thickness, the manufacturing method, the construction, the steel grade, six boolean flags and four impact-test fields.
- `FastenerParser` (`src/utils/fastenerParser.ts`) handles nut, washer, bolt and screw names such as "Гайка М10-7H 12Х18Н10Т ОСТ 26-2041-96" (with a Latin H in the accuracy class). It returns a 15-field `FastenerData` record: the thread diameter, the accuracy class, the thickness, the material, the steel class, the standard, an estimated weight, the strength class, the material category, the Vickers hardness, the washer type and two flags.

Both parsers are pure functions of the name. Each works in three steps:

1. A battery of extractors, one per field. Each extractor matches a regular expression or looks for a substring, and yields a fixed default or `""` when nothing matches.
2. Derivations: classification tables (class, material category, hardness) and numeric formulas (weight, inch conversion, nearest standard bore).
3. An assembler that fills every field of the output record.

The model is written as datatypes and functions, in the same form as the source.

## Layout

- `wrappers.dfy`: `Option`.
- `text.dfy` (`Text`): the JavaScript string built-ins the parsers call.
  - `toLowerCase`, restricted to the Latin and Cyrillic alphabets.
  - `includes`, `trim` and `replace` with a literal pattern, once or with the `g` flag.
  - The `||` fallback on strings.
  - `Occurs` and `LiteralAt` say, declaratively, that a literal appears in a string, with or without case folding.
- `scan.dfy` (`Scan`):
  - character classes and maximal runs (a greedy `[...]+`);
  - a generic leftmost-match search (`FirstMatch`), which gives `String.prototype.match` its "first match, scanning from the left" meaning;
  - the standard-reference pattern `(M1|M2|...)\s*([\d\-\.]+)` that both parsers use, with its replace-all form.
- `numbers.dfy` (`Numbers`): the JavaScript number operations used here, over exact reals.
  - `parseFloat` on unsigned decimal text.
  - `Math.round`.
  - `Number.prototype.toFixed(3)`.
  - `Number.prototype.toString` for values that are whole thousandths.
- `product_types.dfy` and `fastener_types.dfy`: the records from `src/types/product.ts` and `src/types/fastener.ts`.
- `product_parser.dfy` (`ProductParser`) and `fastener_parser.dfy` (`FastenerParser`): the two parsers, function by function, with the lemmas that state what they promise.

Each regular expression is modelled twice:

- a ghost predicate says what a match at a position is (for example `IsSizeMatch` for `(\d+)х[\d,\.]+`);
- an executable matcher computes the leftmost match.

Its contract ties the two together: "no match anywhere" if and only if the result is `""`; otherwise the result is the captured slice of the leftmost match.

## Model

| member | source | states |
|---|---|---|
| ProductParser.Parse | src/utils/productParser.ts:78-131 | The full Russian name is the input, and the fixed fields hold their constants ("м", "общего назначения", "круг", "нет", class "К0401"). Every field without an extractor is "" or false. Construction and method are "бесшовная"/"холоднодеформированная" exactly when "бесшовная" occurs ignoring case, and "сварная"/"горячедеформированная" otherwise. The material category is "2" exactly when the steel grade contains Х18Н10 (Cyrillic) or X18H10 (Latin). |
| ProductParser.ParseComponents | src/utils/productParser.ts:9-27 | The optional method and construction components are always present, so the `||` fallbacks in the assembler never fire. |
| ProductParser.ExtractType | src/utils/productParser.ts:29-33 | "Труба" exactly when "труба" or "pipe" occurs ignoring case, otherwise "Неизвестно". |
| ProductParser.SizeAt | src/utils/productParser.ts:37 | An anchored match of `(\d+)х[\d,\.]+` at a position is a size match with a maximal tail; no result means that no match starts there. |
| ProductParser.FindSize | src/utils/productParser.ts:37 | The result is the leftmost size match, or there is no size match anywhere. |
| ProductParser.ExtractOuterDiameter | src/utils/productParser.ts:35-39 | "" exactly when no `(\d+)х[\d,\.]+` match exists; otherwise the digit run before the 'х' of the leftmost match. |
| ProductParser.ExtractWallThickness | src/utils/productParser.ts:41-45 | "" exactly when no match exists; otherwise the maximal `[\d,\.]+` tail of the leftmost match, with only its first comma turned into a point. |
| ProductParser.LeftmostSizeUnique | src/utils/productParser.ts:35-45 | The leftmost size match is unique, so both extractors read the same match. |
| ProductParser.SizeFieldsAgree | src/utils/productParser.ts:35-45 | The diameter is empty exactly when the wall thickness is. The diameter is all digits. Both come from one leftmost match. |
| ProductParser.FirstGrade | src/utils/productParser.ts:56-59 | Finds the first grade pattern, in list order, that occurs ignoring case, and its leftmost position; every earlier pattern does not occur. |
| ProductParser.ExtractSteelGrade | src/utils/productParser.ts:47-61 | "" exactly when none of the five grade patterns occurs ignoring case; otherwise the text at the leftmost occurrence of the first pattern in list order that occurs. |
| ProductParser.SteelGradeSpelling | src/utils/productParser.ts:56-58 | A non-empty grade is, ignoring case, a spelling of one of the five patterns, with the input's own capitalisation. |
| ProductParser.SteelGradePrefersLonger | src/utils/productParser.ts:48-54 | When the Cyrillic 08Х18Н10Т occurs and the Latin one does not, the result is the 9-letter grade and not its 8-letter prefix 08Х18Н10. |
| ProductParser.DetermineClass | src/utils/productParser.ts:181-186 | The class is "К0401" whatever the grade: every branch returns the same value. |
| ProductParser.DetermineMaterialCategory | src/utils/productParser.ts:188-191 | "2" exactly when the grade contains Х18Н10 or X18H10 (case-sensitive), otherwise "1". |
| ProductParser.ExtractStandard | src/utils/productParser.ts:63-66 | "" exactly when no `(ГОСТ\|ОСТ\|GOST)\s*[\d\-\.]+` match exists ignoring case. Otherwise it is the marker as written, one space, and the maximal number run of the leftmost match, with the earliest marker alternative at that position. |
| ProductParser.ExtractManufacturingMethod | src/utils/productParser.ts:68-71 | "холоднодеформированная" exactly when "бесшовная" occurs ignoring case, else "горячедеформированная". |
| ProductParser.ExtractConstruction | src/utils/productParser.ts:73-76 | "бесшовная" exactly when "бесшовная" occurs ignoring case, else "сварная". |
| ProductParser.MassPerMetre | src/utils/productParser.ts:157 | The mass of one metre, π·(D−S)·S·0.00785, is zero for no wall or a wall as thick as the diameter, and non-negative when the wall is no thicker than the diameter. |
| ProductParser.CalculateWeight | src/utils/productParser.ts:151-159 | 0 when either number is NaN. Otherwise the weight is within 0.0005 of π·(D−S)·S·0.00785 and is a whole number of thousandths. |
| ProductParser.WeightNonNegative | src/utils/productParser.ts:151-159 | A wall no thicker than the diameter gives a non-negative weight. |
| ProductParser.ConvertToInches | src/utils/productParser.ts:161-165 | "" exactly for NaN. Otherwise the text is digits (after a minus sign for a negative diameter), a point and exactly three digits, and for a non-negative diameter it reads back within 0.0005 of D/25.4. |
| ProductParser.Abs | src/utils/productParser.ts:175 | `Math.abs` is non-negative and is the value or its negation. |
| ProductParser.ReduceClosest | src/utils/productParser.ts:174-176 | The fold returns the seed or a list element. It changes the seed only for a strictly closer size, and no list element is closer than its result. |
| ProductParser.ReduceClosestFirst | src/utils/productParser.ts:174-176 | Any size as close as the result comes no earlier than the result, so ties go to the earliest candidate. |
| ProductParser.Closest | src/utils/productParser.ts:172-176 | `reduce` without a seed returns a size in the list that is at least as close as every size in the list. |
| ProductParser.AscendingPrefix | src/utils/productParser.ts:172 | In an ascending list an earlier element is no larger than a later one. |
| ProductParser.ReduceAscendingTies | src/utils/productParser.ts:172-176 | On an ascending list, a tie is resolved to the smaller size. |
| ProductParser.StandardSizesAscending | src/utils/productParser.ts:172 | The standard bore list is ascending. |
| ProductParser.ClosestSizeTies | src/utils/productParser.ts:172-176 | Of two standard sizes equally close to D−2S, the chosen one is the smaller. |
| ProductParser.CalculateNominalDiameter | src/utils/productParser.ts:167-179 | "" exactly when either number is NaN. Otherwise it is the decimal digits of the standard bore closest to D−2S. |
| ProductParser.TranslateToEnglish | src/utils/productParser.ts:134-141 | A name containing none of the five Russian patterns is returned unchanged. |
| ProductParser.TranslateRemovesGost | src/utils/productParser.ts:134-141 | The translation contains no "ГОСТ" in any capitalisation. |
| ProductParser.GostReplaced | src/utils/productParser.ts:137 | Replacing every "ГОСТ" ignoring case leaves none behind. |
| ProductParser.GostStaysOut | src/utils/productParser.ts:138-140 | Replacing with a Latin-and-digit text cannot create a "ГОСТ" that was not there. |
| ProductParser.GenerateShortName | src/utils/productParser.ts:143-149 | The short name is the trim of the name after each standard reference is replaced by its bare marker (the translation first, for English). The Russian short name is never longer than the full name. |
| ProductParser.ShortNameRuReference | src/utils/productParser.ts:145 | With a ГОСТ reference, the Russian short name is the trim of the text before the leftmost reference, "ГОСТ", and the shortened rest. |
| ProductParser.ShortNameEnReference | src/utils/productParser.ts:147 | The same for the English short name, on the translated name and its GOST references. |
| ProductParser.ShortNameLastReference | src/utils/productParser.ts:145 | A name that ends in its only reference and has no white space at the start is shortened to the text before the reference followed by "ГОСТ". |
| ProductParser.ShortNameRuExample | src/utils/productParser.ts:145 | "Труба ГОСТ 9941-81" is shortened to "Труба ГОСТ". |
| ProductParser.ShortNameRuPlain | src/utils/productParser.ts:145 | With no ГОСТ reference, the Russian short name is the trimmed full name. |
| ProductParser.ShortNameTrimmed | src/utils/productParser.ts:143-149 | Trimming a short name again changes nothing. |
| ProductParser.MapToProductData | src/utils/productParser.ts:78-131 | The assembled record keeps the name and the extracted sizes. The inch field is empty exactly when the diameter is NaN, and the nominal field exactly when either size is. The method and construction fields are never empty. |
| ProductParser.ParseWithoutSize | src/utils/productParser.ts:79-101 | A name with no size gives an empty diameter and wall, weight "0", and empty inch and nominal fields. |
| ProductParser.ParseInchPresent | src/utils/productParser.ts:99-100 | The inch field is empty exactly when the diameter field is. |
| ProductParser.ParseWeightReadsBack | src/utils/productParser.ts:92 | When both sizes parse and the wall is no thicker than the diameter, the weight text reads back as the computed weight. |
| ProductParser.WeightTextReadsBack | src/utils/productParser.ts:92 | For 0 ≤ S ≤ D, `toString` of the rounded weight reads back as that weight. |
| ProductParser.ParseEnglishName | src/utils/productParser.ts:85 | The English full name holds no "ГОСТ" in any capitalisation. |
| FastenerParser.Parse | src/utils/fastenerParser.ts:92-110 | The name is the input and the unit is "шт". The thread diameter is the extracted diameter. The thickness is the extracted one, or "Не указано" when empty. The chamfer flag is set exactly for nuts. |
| FastenerParser.ParseComponents | src/utils/fastenerParser.ts:9-44 | The thickness component is always present. |
| FastenerParser.ExtractType | src/utils/fastenerParser.ts:46-52 | Checks гайка, шайба, болт, винт in that order, ignoring case. The first that occurs gives the type, otherwise "Неизвестно". |
| FastenerParser.ExtractApplication | src/utils/fastenerParser.ts:87-90 | "Фланцевые соединения" exactly when "фланцевых соединений" occurs (case-sensitive), else "Общего назначения". |
| FastenerParser.DecimalEnd | src/utils/fastenerParser.ts:55 | The end of the greedy `\d+(?:\.\d+)?`: the digit run, extended by a point and a further digit run only when a digit follows the point. |
| FastenerParser.DiameterAt | src/utils/fastenerParser.ts:55 | A match of `М?(\d+(?:\.\d+)?)` at a position starts its capture there, or one later after an 'М'. No match means neither is a digit. |
| FastenerParser.ExtractDiameter | src/utils/fastenerParser.ts:54-57 | "" exactly when the name has no digit. Otherwise it is the decimal number starting at the first digit; an optional 'М' is never part of it. |
| FastenerParser.DiameterIsNumber | src/utils/fastenerParser.ts:54-57 | A diameter is non-empty exactly when `parseFloat` accepts it. |
| FastenerParser.AccuracyAt | src/utils/fastenerParser.ts:60 | An anchored `\d+[HГ]\|\.\d+` match at a position is an accuracy match; no result means that none starts there. |
| FastenerParser.ExtractAccuracyClass | src/utils/fastenerParser.ts:59-62 | "" exactly when no accuracy match exists; otherwise the text of the leftmost match. |
| FastenerParser.AccuracyShape | src/utils/fastenerParser.ts:60 | A non-empty class is either digits followed by Latin H or Cyrillic Г, or a point followed by digits. |
| FastenerParser.ThicknessAt | src/utils/fastenerParser.ts:66 | An anchored `\d+\.(\d+)` match at a position is a thickness match; no result means that none starts there. |
| FastenerParser.ExtractThickness | src/utils/fastenerParser.ts:64-68 | "" exactly when no `\d+\.\d+` occurs; otherwise the digits after the point of the leftmost match. |
| FastenerParser.ThicknessIsDigits | src/utils/fastenerParser.ts:66 | The thickness is all digits. |
| FastenerParser.MaterialAt | src/utils/fastenerParser.ts:71 | An anchored greedy `\d+[ХНТ]+\d*[ХНТ]*\d*` match at a position, with every segment maximal; no result means that no match can start there. |
| FastenerParser.ExtractMaterial | src/utils/fastenerParser.ts:70-73 | "" exactly when no material match exists; otherwise the leftmost match. |
| FastenerParser.LiteralOutline | src/utils/fastenerParser.ts:71 | An occurrence of Х18Н10Т has the letter-digit shape that a material match cannot contain. |
| FastenerParser.OutlineInSlice | src/utils/fastenerParser.ts:71 | That shape is the same in a slice and in the whole name. |
| FastenerParser.LastRunReached | src/utils/fastenerParser.ts:71 | Inside a material match, a letter-digit-letter-digit pattern puts the second letter run no later than the second digit run. |
| FastenerParser.NoOutlineInMaterial | src/utils/fastenerParser.ts:71 | The pattern has only two digit segments, so a material match never holds the Х18Н10Т shape. |
| FastenerParser.NoOutlineNoStainless | src/utils/fastenerParser.ts:71 | A text without the shape does not contain Х18Н10Т. |
| FastenerParser.MatchHasNoStainless | src/utils/fastenerParser.ts:71 | No material match contains Х18Н10Т. |
| FastenerParser.MaterialLacksStainless | src/utils/fastenerParser.ts:70-73 | The extracted material never contains Х18Н10Т, so neither 12Х18Н10Т nor 08Х18Н10Т. |
| FastenerParser.ExtractSteelGrade | src/utils/fastenerParser.ts:75-80 | "Аустенитная нержавеющая сталь" exactly when the material contains 12Х18Н10Т or 08Х18Н10Т, else "Легированная сталь". |
| FastenerParser.ExtractStandard | src/utils/fastenerParser.ts:82-85 | "" exactly when no case-sensitive `(ОСТ\|ГОСТ)\s*[\d\-\.]+` match exists. Otherwise it is the marker, one space and the maximal number run of the leftmost match. |
| FastenerParser.WeightFactor | src/utils/fastenerParser.ts:117-121 | There is a positive factor exactly for nuts and washers. |
| FastenerParser.CalculateWeight | src/utils/fastenerParser.ts:112-123 | "Не указано" exactly when the diameter is NaN or the type is neither nut nor washer. Otherwise the text ends in " кг" and reads back within 0.0005 of d²·factor. |
| FastenerParser.ApproximateMass | src/utils/fastenerParser.ts:118-120 | d²·factor is non-negative. |
| FastenerParser.KilogramText | src/utils/fastenerParser.ts:118 | `toFixed(3)` followed by " кг" ends in " кг", differs from "Не указано", and reads back within 0.0005 of the value. |
| FastenerParser.DetermineClass | src/utils/fastenerParser.ts:125-129 | "А2" for 12Х18Н10Т, otherwise "А1" for 08Х18Н10Т, otherwise "Стандартный". |
| FastenerParser.DetermineMaterialCategory | src/utils/fastenerParser.ts:131-134 | "Нержавеющая сталь" exactly when the material contains Х18Н10Т, else "Углеродистая сталь". |
| FastenerParser.DetermineHardness | src/utils/fastenerParser.ts:136-140 | "200-250 HV" for 12Х18Н10Т, otherwise "180-230 HV" for 08Х18Н10Т, otherwise "Не указано". |
| FastenerParser.DetermineWasherType | src/utils/fastenerParser.ts:142-148 | "Не применимо" for a non-washer. A washer gets "Плоская усиленная" exactly when the application contains "фланцевых", else "Плоская обычная". |
| FastenerParser.HasChamfer | src/utils/fastenerParser.ts:150-153 | A chamfer is given exactly for the type "Гайка". |
| FastenerParser.HasCoating | src/utils/fastenerParser.ts:155-158 | Coating is set exactly when the material does not contain Х18Н10Т. |
| FastenerParser.MapToFastenerData | src/utils/fastenerParser.ts:92-110 | The record keeps the name, has unit "шт", and a thickness that is never empty (the extracted one when non-empty). The weight is "Не указано" exactly when the diameter is NaN or the type has no factor. The chamfer is set exactly for nuts. |
| FastenerParser.GradeTailOccurs | src/utils/fastenerParser.ts:126-132 | A material containing 12Х18Н10Т or 08Х18Н10Т contains Х18Н10Т. |
| FastenerParser.ParseMaterialBranches | src/utils/fastenerParser.ts:70-158 | The material extractor can never return a stainless grade. So every parsed record has steel grade "Легированная сталь", class "Стандартный", category "Углеродистая сталь", hardness "Не указано" and coating set. The stainless branches are unreachable. |
| FastenerParser.ParseWasherType | src/utils/fastenerParser.ts:142-153 | The application is never a text containing "фланцевых", so a washer is always "Плоская обычная" and anything else "Не применимо". |
| FastenerParser.ParseWeightGiven | src/utils/fastenerParser.ts:112-123 | A weight is given exactly when the name is a nut or washer and contains a digit. |
| Text.LowerChar | src/utils/productParser.ts:30 | `toLowerCase` on one character maps А–Я and A–Z to their lower case, Ё to ё, and leaves every other character alone. |
| Text.Lower | src/utils/productParser.ts:30 | `toLowerCase` keeps the length and lowers each character. |
| Text.IncludesLower | src/utils/productParser.ts:30 | `s.toLowerCase().includes(p)`, for a lower-case p, holds exactly when p occurs in s ignoring case. |
| Text.Includes | src/utils/productParser.ts:182 | `includes` holds exactly when the literal occurs. |
| Text.IndexOf | src/utils/productParser.ts:57 | Finds the leftmost occurrence of a literal at or after a position, or reports that none exists. |
| Text.Trim | src/utils/productParser.ts:145 | `trim` removes exactly the leading and trailing white space. |
| Text.TrimIdempotent | src/utils/productParser.ts:145 | Trimming twice is trimming once. |
| Text.ReplaceFirstChar | src/utils/productParser.ts:44 | `replace(',', '.')` changes only the first comma. |
| Text.ReplaceAll | src/utils/productParser.ts:136-140 | A text without the pattern is unchanged. |
| Text.ReplaceAllAvoids | src/utils/productParser.ts:137-140 | A replacement that shares no character with a word cannot create that word. |
| Text.OrElse | src/utils/productParser.ts:108-109 | `v \|\| d` is v when v is present and non-empty, and d otherwise. |
| Scan.RunEnd | src/utils/productParser.ts:37 | A greedy character-class run ends at the first character outside the class. |
| Scan.RunEndUnique | src/utils/productParser.ts:37 | That end is the only maximal run end. |
| Scan.FirstMatch | src/utils/productParser.ts:37 | `match` returns the first position with an anchored match, and none before it matches. |
| Scan.NumberAfter | src/utils/productParser.ts:64 | `\s*([\d\-\.]+)` after a marker matches maximal spaces and a maximal non-empty number run, or cannot match. |
| Scan.StandardAt | src/utils/productParser.ts:64 | At one position, the earliest marker alternative that matches is chosen. |
| Scan.StandardText | src/utils/productParser.ts:63-66 | The shared standard extractor: "" exactly when no match exists, otherwise the marker text, a space and the number of the leftmost match. |
| Scan.ReplaceStandards | src/utils/productParser.ts:145-147 | Replacing each standard reference by its marker never lengthens the text and leaves a text without references unchanged. |
| Scan.ReplaceStandardsAt | src/utils/productParser.ts:145-147 | The global replace keeps the text before the leftmost reference, puts the replacement where that whole reference (marker, spaces and number) stood, and goes on with the text after it. |
| Numbers.NatToString | src/utils/productParser.ts:178 | `toString` of a whole number is its decimal digits, with no leading zero. |
| Numbers.ParseFloat | src/utils/productParser.ts:79-80 | `parseFloat` yields a non-negative number or NaN. |
| Numbers.ParseFloatNaN | src/utils/productParser.ts:79-80 | `parseFloat` is NaN exactly when the text starts with neither a digit nor a point followed by a digit. |
| Numbers.ParseFloatIgnoresSuffix | src/utils/fastenerParser.ts:118 | Text after the number that starts with neither a digit nor a point does not change the value. |
| Numbers.ParseInteger | src/utils/productParser.ts:79 | `parseFloat` of a digit string is its value. |
| Numbers.ParseDecimal | src/utils/productParser.ts:80 | `parseFloat` of digits, a point and digits is the integer part plus the fraction. |
| Numbers.ParseFloatDecimal | src/utils/fastenerParser.ts:114 | For a greedy decimal, `parseFloat` reads the integer part and the fraction up to the first non-digit. |
| Numbers.Round | src/utils/productParser.ts:158 | `Math.round` gives the integer n with n−0.5 ≤ x < n+0.5. |
| Numbers.Thousandths | src/utils/productParser.ts:164 | For a non-negative value, the nearest thousandth, rounding halves up. |
| Numbers.ToFixed3 | src/utils/productParser.ts:164 | `toFixed(3)` is digits (after a minus sign for a negative value), a point and exactly three digits; for a non-negative value it reads back as the rounded thousandth. |
| Numbers.ThousandthsToString | src/utils/productParser.ts:92 | `toString` of k/1000 reads back as k/1000 and has no trailing zero after a point. |
| Numbers.RoundThousandths | src/utils/productParser.ts:158 | Rounding a whole thousandth times 1000 gives back the integer. |
| Numbers.NumberToString | src/utils/productParser.ts:92 | `toString` of a non-negative whole thousandth reads back as the same number. |

## Left out

- The React page that renders the records and lets a user edit fields is not part of this model; only the parsers are.
- Numbers are exact reals, not IEEE-754 doubles. `Math.PI` is its 16-digit decimal value. Rounding errors of binary floating point are not modelled, and neither are the sign, exponent, `Infinity` and leading-white-space forms of `parseFloat`. The parsers only ever pass it digits, points and commas (a wall thickness such as "2.5,1" keeps every comma after the first), and `parseFloat` stops at the first character that cannot continue the number.
- `toFixed` is modelled by its decimal value. The exponent form it switches to at 1e21 and above is not modelled.
- `toLowerCase` and case-insensitive regular expressions are modelled for the Latin and Cyrillic alphabets only. Other Unicode case mappings are not modelled.
- The regular expressions are modelled one by one as hand-written greedy matchers, not through a general regular-expression engine. Each matcher's contract states the match the engine would return for that pattern.
- The unused `innerDiam` value in `calculateWeight` is not modelled.
- The record fields `class` and `type` are reserved words in Dafny and are named `classCode` and `kind`. The optional `manufacturingMethod` and `construction` components, which may be `undefined`, are `Option<string>`.
- The pipe record has 37 fields in `src/types/product.ts`.
- Numbers.NumberToString: only the whole-thousandth values that weights take are rendered. Its read-back is proved only for non-negative values, and other numbers are not modelled.
- Numbers.ToFixed3: for a negative value the contract says only that the text is a minus sign before the text of the absolute value.
- ProductParser.ParseWeightReadsBack: read-back of the weight text is proved only when the wall is no thicker than the diameter, where the weight is non-negative.
- ProductParser.ConvertToInches: read-back is proved only for a non-negative diameter, which is the only kind `parseFloat` of a digit run yields.
- ProductParser.TranslateToEnglish: its contract states the unchanged case and, through TranslateRemovesGost, that no ГОСТ survives. The replaced text itself is given by the function body.
- ProductParser.GenerateShortName: the English short name is not proved to be no longer than the full name.
- Text.ReplaceAll: the contract covers the case with no occurrence. Its other properties are the lemmas ReplaceAllAvoids and GostReplaced.
