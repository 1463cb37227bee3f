/**
 * The fastener record (`FastenerData`) and the intermediate record of
 * extracted fields (`ParsedComponents`).  The TypeScript fields `class`
 * and `type` are keywords in Dafny and are called `classCode` and `kind`
 * here.
 */
module FastenerTypes {
  import opened Wrappers

  datatype FastenerData = FastenerData(
    name: string,
    unit: string,
    normativeDocument: string,
    weight: string,
    classCode: string,
    materialCategory: string,
    threadDiameter: string,
    thickness: string,
    material: string,
    steelGrade: string,
    accuracyClass: string,
    vickersHardness: string,
    washerType: string,
    hasChamfer: bool,
    hasCoating: bool)

  /** `thickness` is optional in the interface; `None` stands for `undefined`. */
  datatype ParsedComponents = ParsedComponents(
    kind: string,
    application: string,
    diameter: string,
    accuracyClass: string,
    thickness: Option<string>,
    material: string,
    steelGrade: string,
    standard: string)
}
