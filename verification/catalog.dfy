/**
 The table catalog: every table the sampling script touches, in the order the script
 processes it, with the filter mode the script applies to it. Line numbers in the
 comments below refer to sample_datasets.py.
 */
module Catalog {
  import opened Tables
  import opened Wrappers

  /** Every table the script reads, declared in processing order. */
  datatype TableName =
    // read unconditionally, filtered by fdc_id (lines 19, 33)
    | FoodNutrient
    // read unconditionally, filtered by fdc_id (lines 16, 49)
    | Food
    // read unconditionally, copied (lines 56-58)
    | Nutrient
    // optional, filtered by fdc_id (lines 62-70)
    | FoodPortion
    // optional, keyed by unit ids derived from the filtered food_portion (lines 74-85)
    | MeasureUnit
    // optional, copied (lines 89-94)
    | FoodCategory
    // optional, filtered when it has fdc_id, else not written (lines 98-106)
    | WweiaFoodCategory
    // reference tables (lines 110-122)
    | FoodNutrientDerivation
    | LabMethod
    | LabMethodCode
    | LabMethodNutrient
    // conversion factors (lines 126-137)
    | FoodCalorieConversionFactor
    | FoodNutrientConversionFactor
    | FoodProteinConversionFactor
    // food type tables (lines 141-152)
    | FoundationFood
    | SrLegacyFood
    | SurveyFnddsFood
    // attribute tables (lines 156-166)
    | FoodAttributeType
    | FoodAttribute
    // filtered when they have fdc_id, else copied (lines 170-188)
    | FoodNutrientSource
    | FoodUpdateLogEntry
    // optional, copied (lines 192-197)
    | FoodComponent
    // filtered when they have fdc_id, else not written (lines 201-233)
    | BrandedFood
    | InputFood
    | SampleFood
    // specialised analysis tables (lines 237-248)
    | RetentionFactor
    | Microbe
    | MarketAcquisition
    // FNDDS tables (lines 252-262)
    | FnddsDerivation
    | FnddsIngredientNutrientValue
    // sampling and acquisition tables (lines 266-278)
    | AcquisitionSamples
    | AgriculturalSamples
    | SubSampleFood
    | SubSampleResult

  const TableCount: nat := 34

  const FdcId: ColumnName := "fdc_id"
  const MeasureUnitId: ColumnName := "measure_unit_id"
  const Id: ColumnName := "id"

  /** The base name of the file that holds a table. */
  function Stem(t: TableName): string
  {
    match t
    case FoodNutrient => "food_nutrient"
    case Food => "food"
    case Nutrient => "nutrient"
    case FoodPortion => "food_portion"
    case MeasureUnit => "measure_unit"
    case FoodCategory => "food_category"
    case WweiaFoodCategory => "wweia_food_category"
    case FoodNutrientDerivation => "food_nutrient_derivation"
    case LabMethod => "lab_method"
    case LabMethodCode => "lab_method_code"
    case LabMethodNutrient => "lab_method_nutrient"
    case FoodCalorieConversionFactor => "food_calorie_conversion_factor"
    case FoodNutrientConversionFactor => "food_nutrient_conversion_factor"
    case FoodProteinConversionFactor => "food_protein_conversion_factor"
    case FoundationFood => "foundation_food"
    case SrLegacyFood => "sr_legacy_food"
    case SurveyFnddsFood => "survey_fndds_food"
    case FoodAttributeType => "food_attribute_type"
    case FoodAttribute => "food_attribute"
    case FoodNutrientSource => "food_nutrient_source"
    case FoodUpdateLogEntry => "food_update_log_entry"
    case FoodComponent => "food_component"
    case BrandedFood => "branded_food"
    case InputFood => "input_food"
    case SampleFood => "sample_food"
    case RetentionFactor => "retention_factor"
    case Microbe => "microbe"
    case MarketAcquisition => "market_acquisition"
    case FnddsDerivation => "fndds_derivation"
    case FnddsIngredientNutrientValue => "fndds_ingredient_nutrient_value"
    case AcquisitionSamples => "acquisition_samples"
    case AgriculturalSamples => "agricultural_samples"
    case SubSampleFood => "sub_sample_food"
    case SubSampleResult => "sub_sample_result"
  }

  const Suffix: string := ".parquet"

  /** The file a table is read from and written to. */
  function FileName(t: TableName): (f: string)
    ensures |f| > |Suffix| && f[|f| - |Suffix|..] == Suffix
  {
    Stem(t) + Suffix
  }

  /** The table whose base name is `s`, if any; dispatching on the length first keeps
      each comparison against a handful of names. */
  function TableOfStem(s: string): Option<TableName>
  {
    match |s|
    case 4 => if s == "food" then Some(Food) else None
    case 7 => if s == "microbe" then Some(Microbe) else None
    case 8 => if s == "nutrient" then Some(Nutrient) else None
    case 10 => if s == "lab_method" then Some(LabMethod) else if s == "input_food" then Some(InputFood) else None
    case 11 => if s == "sample_food" then Some(SampleFood) else None
    case 12 => if s == "food_portion" then Some(FoodPortion) else if s == "measure_unit" then Some(MeasureUnit) else if s == "branded_food" then Some(BrandedFood) else None
    case 13 => if s == "food_nutrient" then Some(FoodNutrient) else if s == "food_category" then Some(FoodCategory) else None
    case 14 => if s == "sr_legacy_food" then Some(SrLegacyFood) else if s == "food_attribute" then Some(FoodAttribute) else if s == "food_component" then Some(FoodComponent) else None
    case 15 => if s == "lab_method_code" then Some(LabMethodCode) else if s == "foundation_food" then Some(FoundationFood) else if s == "sub_sample_food" then Some(SubSampleFood) else None
    case 16 => if s == "retention_factor" then Some(RetentionFactor) else if s == "fndds_derivation" then Some(FnddsDerivation) else None
    case 17 => if s == "survey_fndds_food" then Some(SurveyFnddsFood) else if s == "sub_sample_result" then Some(SubSampleResult) else None
    case 18 => if s == "market_acquisition" then Some(MarketAcquisition) else None
    case 19 => if s == "wweia_food_category" then Some(WweiaFoodCategory) else if s == "lab_method_nutrient" then Some(LabMethodNutrient) else if s == "food_attribute_type" then Some(FoodAttributeType) else if s == "acquisition_samples" then Some(AcquisitionSamples) else None
    case 20 => if s == "food_nutrient_source" then Some(FoodNutrientSource) else if s == "agricultural_samples" then Some(AgriculturalSamples) else None
    case 21 => if s == "food_update_log_entry" then Some(FoodUpdateLogEntry) else None
    case 24 => if s == "food_nutrient_derivation" then Some(FoodNutrientDerivation) else None
    case 30 => if s == "food_calorie_conversion_factor" then Some(FoodCalorieConversionFactor) else if s == "food_protein_conversion_factor" then Some(FoodProteinConversionFactor) else None
    case 31 => if s == "food_nutrient_conversion_factor" then Some(FoodNutrientConversionFactor) else if s == "fndds_ingredient_nutrient_value" then Some(FnddsIngredientNutrientValue) else None
    case _ => None
  }

  /** Reading a base name back gives the table it names (first half of the catalog). */
  lemma TableOfStemEarly(t: TableName)
    requires Position(t) < 17
    ensures TableOfStem(Stem(t)) == Some(t)
  {
  }

  /** Reading a base name back gives the table it names (second half of the catalog). */
  lemma TableOfStemLate(t: TableName)
    requires Position(t) >= 17
    ensures TableOfStem(Stem(t)) == Some(t)
  {
  }

  /** Reading a base name back gives the table it names. */
  lemma TableOfStemRoundTrip(t: TableName)
    ensures TableOfStem(Stem(t)) == Some(t)
  {
    if Position(t) < 17 { TableOfStemEarly(t); } else { TableOfStemLate(t); }
  }

  /** Distinct tables have distinct base names. */
  lemma StemInjective(a: TableName, b: TableName)
    ensures Stem(a) == Stem(b) ==> a == b
  {
    TableOfStemRoundTrip(a);
    TableOfStemRoundTrip(b);
  }

  /** Distinct tables live in distinct files. */
  lemma FileNameInjective(a: TableName, b: TableName)
    ensures FileName(a) == FileName(b) ==> a == b
  {
    StemInjective(a, b);
    if FileName(a) == FileName(b) {
      assert Stem(a) == FileName(a)[..|FileName(a)| - |Suffix|];
      assert Stem(b) == FileName(b)[..|FileName(b)| - |Suffix|];
    }
  }

  /** The table processed at step `i` of the script. */
  function TableAt(i: nat): TableName
    requires i < TableCount
  {
    match i
    case 0 => FoodNutrient
    case 1 => Food
    case 2 => Nutrient
    case 3 => FoodPortion
    case 4 => MeasureUnit
    case 5 => FoodCategory
    case 6 => WweiaFoodCategory
    case 7 => FoodNutrientDerivation
    case 8 => LabMethod
    case 9 => LabMethodCode
    case 10 => LabMethodNutrient
    case 11 => FoodCalorieConversionFactor
    case 12 => FoodNutrientConversionFactor
    case 13 => FoodProteinConversionFactor
    case 14 => FoundationFood
    case 15 => SrLegacyFood
    case 16 => SurveyFnddsFood
    case 17 => FoodAttributeType
    case 18 => FoodAttribute
    case 19 => FoodNutrientSource
    case 20 => FoodUpdateLogEntry
    case 21 => FoodComponent
    case 22 => BrandedFood
    case 23 => InputFood
    case 24 => SampleFood
    case 25 => RetentionFactor
    case 26 => Microbe
    case 27 => MarketAcquisition
    case 28 => FnddsDerivation
    case 29 => FnddsIngredientNutrientValue
    case 30 => AcquisitionSamples
    case 31 => AgriculturalSamples
    case 32 => SubSampleFood
    case _ => SubSampleResult
  }

  /** The step at which the script processes a table. */
  function Position(t: TableName): nat
  {
    match t
    case FoodNutrient => 0
    case Food => 1
    case Nutrient => 2
    case FoodPortion => 3
    case MeasureUnit => 4
    case FoodCategory => 5
    case WweiaFoodCategory => 6
    case FoodNutrientDerivation => 7
    case LabMethod => 8
    case LabMethodCode => 9
    case LabMethodNutrient => 10
    case FoodCalorieConversionFactor => 11
    case FoodNutrientConversionFactor => 12
    case FoodProteinConversionFactor => 13
    case FoundationFood => 14
    case SrLegacyFood => 15
    case SurveyFnddsFood => 16
    case FoodAttributeType => 17
    case FoodAttribute => 18
    case FoodNutrientSource => 19
    case FoodUpdateLogEntry => 20
    case FoodComponent => 21
    case BrandedFood => 22
    case InputFood => 23
    case SampleFood => 24
    case RetentionFactor => 25
    case Microbe => 26
    case MarketAcquisition => 27
    case FnddsDerivation => 28
    case FnddsIngredientNutrientValue => 29
    case AcquisitionSamples => 30
    case AgriculturalSamples => 31
    case SubSampleFood => 32
    case SubSampleResult => 33
  }

  /** The script visits every table exactly once: `TableAt` and `Position` are inverse. */
  lemma PositionIsInverse()
    ensures forall i :: 0 <= i < TableCount ==> Position(TableAt(i)) == i
    ensures forall t :: Position(t) < TableCount && TableAt(Position(t)) == t
  {
  }

  /** What the script does with a table whose file is present. */
  datatype Mode =
    /** Written unchanged. */
    | CopyAll
    /** Rows filtered by membership of `col` in the sampled key set; a missing column raises. */
    | FilterBy(col: ColumnName)
    /** Filtered by `col` when the table has it, otherwise written unchanged. */
    | FilterOrCopy(col: ColumnName)
    /** Filtered by `col` when the table has it, otherwise not written. */
    | FilterOrDrop(col: ColumnName)
    /** Filtered by membership of `keyCol` in the non-null `srcCol` values of the already
        written output of `srcTable`; skipped unless that output exists and has `srcCol`. */
    | DeriveThenFilter(srcTable: TableName, srcCol: ColumnName, keyCol: ColumnName)

  /** A table, whether the script reads it without checking that it exists, and its mode. */
  datatype Descriptor = Descriptor(name: TableName, required: bool, mode: Mode)

  /** The script's treatment of each table. */
  function Describe(t: TableName): (d: Descriptor)
    ensures d.name == t
  {
    match t
    case FoodNutrient => Descriptor(t, true, FilterBy(FdcId))
    case Food => Descriptor(t, true, FilterBy(FdcId))
    case Nutrient => Descriptor(t, true, CopyAll)
    case FoodPortion => Descriptor(t, false, FilterBy(FdcId))
    case MeasureUnit => Descriptor(t, false, DeriveThenFilter(FoodPortion, MeasureUnitId, Id))
    case WweiaFoodCategory => Descriptor(t, false, FilterOrDrop(FdcId))
    case FoodNutrientSource => Descriptor(t, false, FilterOrCopy(FdcId))
    case FoodUpdateLogEntry => Descriptor(t, false, FilterOrCopy(FdcId))
    case BrandedFood => Descriptor(t, false, FilterOrDrop(FdcId))
    case InputFood => Descriptor(t, false, FilterOrDrop(FdcId))
    case SampleFood => Descriptor(t, false, FilterOrDrop(FdcId))
    case _ => Descriptor(t, false, CopyAll)
  }

  /** The catalog in processing order. */
  function Steps(): seq<Descriptor>
  {
    seq(TableCount, i requires 0 <= i < TableCount => Describe(TableAt(i)))
  }

  /** No table appears twice in a catalog. */
  ghost predicate DistinctNames(cat: seq<Descriptor>)
  {
    forall i, j :: 0 <= i < j < |cat| ==> cat[i].name != cat[j].name
  }

  /** Every table that derives its keys from another table's output comes strictly after it:
      the source is never processed at or after the dependent step. */
  ghost predicate SourcesFirst(cat: seq<Descriptor>)
  {
    forall i, j :: 0 <= i <= j < |cat| && cat[i].mode.DeriveThenFilter? ==> cat[j].name != cat[i].mode.srcTable
  }

  /** The script's catalog lists every table once and respects the derivation dependency. */
  lemma StepsWellOrdered()
    ensures |Steps()| == TableCount
    ensures DistinctNames(Steps()) && SourcesFirst(Steps())
    ensures forall t :: Steps()[Position(t)] == Describe(t)
  {
    PositionIsInverse();
    assert forall i :: 0 <= i < |Steps()| ==> Steps()[i].name == TableAt(i);
    forall i | 0 <= i < |Steps()| && Steps()[i].mode.DeriveThenFilter?
      ensures Steps()[i].name == MeasureUnit && Steps()[i].mode.srcTable == FoodPortion
    {
      assert Position(Steps()[i].name) == i;
    }
  }
}
