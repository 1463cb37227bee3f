/**
 * The pipe record (`ProductData`) and the intermediate record of extracted
 * fields (`ParsedComponents`).  The TypeScript fields `class` and `type`
 * are keywords in Dafny and are called `classCode` and `kind` here.
 */
module ProductTypes {
  import opened Wrappers

  datatype ProductData = ProductData(
    // names
    fullNameRu: string,
    fullNameEn: string,
    shortNameRu: string,
    shortNameEn: string,
    // main information
    unit: string,
    normativeDocument: string,
    weight: string,
    classCode: string,
    materialCategory: string,
    purpose: string,
    // geometry
    section: string,
    outerDiameter: string,
    outerDiameterInch: string,
    nominalDiameter: string,
    sizeA: string,
    sizeB: string,
    wallThickness: string,
    length: string,
    // technical characteristics
    manufacturingMethod: string,
    construction: string,
    measuredLength: string,
    manufacturingAccuracy: string,
    qualityGroup: string,
    steelGrade: string,
    deoxidationDegree: string,
    rollingCategory: string,
    strengthClass: string,
    // additional characteristics
    hasThreading: bool,
    hasCouplings: bool,
    hasCoating: bool,
    agingTest: bool,
    hydrogenCrackingTest: bool,
    iccResistance: bool,
    // impact tests
    kcuTestTemperature: string,
    kcuMinValue: string,
    kcvTestTemperature: string,
    kcvMinValue: string)

  /** The two optional members are `None` where the TypeScript value would be `undefined`. */
  datatype ParsedComponents = ParsedComponents(
    kind: string,
    outerDiameter: string,
    wallThickness: string,
    steelGrade: string,
    standard: string,
    manufacturingMethod: Option<string>,
    construction: Option<string>)
}
