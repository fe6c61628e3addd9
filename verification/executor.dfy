/**
 The pipeline: one pure step per catalog entry and a fold over the catalog in script order.
 A source file that is read without an existence check and is missing, or a column the script
 indexes without checking and is missing, ends the run; what was written before stays written.
 */
module Executor {
  import opened Tables
  import opened Catalog
  import opened Sampling

  /** Tables by name: the input directory, or what has been written to the output directory. */
  type Store = map<TableName, Table>

  /** Why a run stops early (the script raises and exits). */
  datatype Error =
    | MissingSource(table: TableName)
    | MissingColumn(table: TableName, column: ColumnName)

  /** What one step does with its table. */
  datatype Outcome = Write(table: Table) | Skip | Abort(error: Error)

  /** A run either finishes or stops at the first error, leaving the files written so far. */
  datatype RunResult = Completed(written: Store) | Aborted(error: Error, written: Store)

  /** One step: read the table if present, resolve its mode against its columns, filter or copy.
      `written` holds this run's outputs so far; only a derived-key step looks at it. */
  function ProcessTable(inputs: Store, written: Store, ids: set<Value>, d: Descriptor): (o: Outcome)
    ensures o.Write? ==> d.name in inputs && o.table.columns == inputs[d.name].columns
    ensures o.Write? ==> forall row :: row in o.table.rows ==> row in inputs[d.name].rows
    ensures o.Abort? ==> o.error.table == d.name
    ensures d.name !in inputs ==> !o.Write? && (o.Abort? <==> d.required)
    ensures d.name in inputs && d.mode.CopyAll? ==> o == Write(inputs[d.name])
    ensures o.Write? && d.mode.DeriveThenFilter? ==> d.mode.srcTable in written
  {
    if d.name !in inputs then
      if d.required then Abort(MissingSource(d.name)) else Skip
    else
      ApplyMode(d.name, inputs[d.name], written, ids, d.mode)
  }

  /** A present table `t` named `name`, put through `mode`. */
  function ApplyMode(name: TableName, t: Table, written: Store, ids: set<Value>, mode: Mode): (o: Outcome)
    ensures o.Write? ==> o.table.columns == t.columns
    ensures o.Write? ==> forall row :: row in o.table.rows ==> row in t.rows
    ensures o.Abort? ==> o.error.MissingColumn? && o.error.table == name && o.error.column !in t.columns
  {
    match mode
    case CopyAll => Write(t)
    case FilterBy(col) =>
      if col in t.columns then Write(Filter(t, col, ids)) else Abort(MissingColumn(name, col))
    case FilterOrCopy(col) =>
      if col in t.columns then Write(Filter(t, col, ids)) else Write(t)
    case FilterOrDrop(col) =>
      if col in t.columns then Write(Filter(t, col, ids)) else Skip
    case DeriveThenFilter(src, srcCol, keyCol) =>
      if src !in written || srcCol !in written[src].columns then Skip
      else if keyCol !in t.columns then Abort(MissingColumn(name, keyCol))
      else Write(Filter(t, keyCol, NonNullValues(written[src].rows, srcCol)))
  }

  /** The tables a catalog names. */
  ghost function Names(cat: seq<Descriptor>): set<TableName>
  {
    set d | d in cat :: d.name
  }

  /** Process the catalog in order, stopping at the first error. */
  function RunCatalog(cat: seq<Descriptor>, inputs: Store, ids: set<Value>, written: Store): (r: RunResult)
    ensures forall t :: t in r.written ==> t in written || t in Names(cat)
    ensures forall t :: t in r.written ==>
      (t in written && r.written[t] == written[t]) || (t in inputs && r.written[t].columns == inputs[t].columns)
    ensures forall t :: t in written && t !in Names(cat) ==> t in r.written && r.written[t] == written[t]
    decreases |cat|
  {
    if cat == [] then Completed(written)
    else
      assert forall d :: d in cat[1..] ==> d in cat;
      match ProcessTable(inputs, written, ids, cat[0])
      case Abort(e) => Aborted(e, written)
      case Skip => RunCatalog(cat[1..], inputs, ids, written)
      case Write(t) => RunCatalog(cat[1..], inputs, ids, written[cat[0].name := t])
  }

  /** `out` holds what a step with outcome `o` leaves for table `name`: the written table,
      or nothing; an aborting step leaves no completed output at all. */
  ghost predicate Reflects(out: Store, name: TableName, o: Outcome)
  {
    match o
    case Write(t) => name in out && out[name] == t
    case Skip => name !in out
    case Abort(_) => false
  }

  /** Every entry of a completed run is what its own step produces when it looks at the final
      outputs; entries already present are kept; an aborted run stopped at a step that aborts. */
  ghost predicate FoldSpec(cat: seq<Descriptor>, inputs: Store, ids: set<Value>, w: Store, r: RunResult)
  {
    && (forall t :: t in w ==> t in r.written && r.written[t] == w[t])
    && (r.Completed? ==> forall d :: d in cat ==> Reflects(r.written, d.name, ProcessTable(inputs, r.written, ids, d)))
    && (r.Aborted? ==> exists d :: d in cat && ProcessTable(inputs, r.written, ids, d) == Abort(r.error))
  }

  /** A step depends only on its own input and, for a derived-key step, on the output of its
      derivation source: no other table can change what it does. */
  lemma ProcessTableLocal(in1: Store, in2: Store, w1: Store, w2: Store, ids: set<Value>, d: Descriptor)
    requires (d.name in in1 <==> d.name in in2) && (d.name in in1 ==> in1[d.name] == in2[d.name])
    requires d.mode.DeriveThenFilter? ==>
      (d.mode.srcTable in w1 <==> d.mode.srcTable in w2) &&
      (d.mode.srcTable in w1 ==> w1[d.mode.srcTable] == w2[d.mode.srcTable])
    ensures ProcessTable(in1, w1, ids, d) == ProcessTable(in2, w2, ids, d)
  {
  }

  /** The tail of a well-ordered catalog is well ordered, does not repeat the head's name, and
      the head's derivation source is named nowhere in the catalog. */
  lemma CatalogTail(cat: seq<Descriptor>)
    requires cat != [] && DistinctNames(cat) && SourcesFirst(cat)
    ensures DistinctNames(cat[1..]) && SourcesFirst(cat[1..])
    ensures forall d :: d in cat[1..] ==> d in cat && d.name != cat[0].name
    ensures cat[0].mode.DeriveThenFilter? ==> cat[0].mode.srcTable !in Names(cat)
  {
    var d0 := cat[0];
    var rest := cat[1..];
    assert DistinctNames(rest) by {
      forall i, j | 0 <= i < j < |rest|
        ensures rest[i].name != rest[j].name
      {
        assert rest[i] == cat[i + 1] && rest[j] == cat[j + 1];
      }
    }
    assert SourcesFirst(rest) by {
      forall i, j | 0 <= i <= j < |rest| && rest[i].mode.DeriveThenFilter?
        ensures rest[j].name != rest[i].mode.srcTable
      {
        assert rest[i] == cat[i + 1] && rest[j] == cat[j + 1];
      }
    }
    forall d | d in rest
      ensures d in cat && d.name != d0.name
    {
      var j :| 0 <= j < |rest| && rest[j] == d;
      assert cat[j + 1] == d;
    }
    if d0.mode.DeriveThenFilter? {
      forall d | d in cat
        ensures d.name != d0.mode.srcTable
      {
        var j :| 0 <= j < |cat| && cat[j] == d;
      }
    }
  }

  /** A skipped first step leaves the fold's specification of the rest intact for the whole. */
  lemma FoldSkip(cat: seq<Descriptor>, inputs: Store, ids: set<Value>, w: Store, r: RunResult)
    requires cat != [] && ProcessTable(inputs, w, ids, cat[0]) == Skip
    requires forall d :: d in cat[1..] ==> d in cat && d.name != cat[0].name
    requires cat[0].mode.DeriveThenFilter? ==> cat[0].mode.srcTable !in Names(cat)
    requires cat[0].name !in w && (forall t :: t in r.written ==> t in w || t in Names(cat[1..]))
    requires FoldSpec(cat[1..], inputs, ids, w, r)
    ensures FoldSpec(cat, inputs, ids, w, r)
  {
    assert cat[0].name !in Names(cat[1..]);
    ProcessTableLocal(inputs, inputs, w, r.written, ids, cat[0]);
  }

  /** A written first step, kept by the rest of the fold, completes the whole fold's specification. */
  lemma FoldWrite(cat: seq<Descriptor>, inputs: Store, ids: set<Value>, w: Store, t: Table, r: RunResult)
    requires cat != [] && ProcessTable(inputs, w, ids, cat[0]) == Write(t)
    requires forall d :: d in cat[1..] ==> d in cat
    requires cat[0].mode.DeriveThenFilter? ==> cat[0].mode.srcTable !in Names(cat)
    requires cat[0].name !in w
    requires FoldSpec(cat[1..], inputs, ids, w[cat[0].name := t], r)
    ensures FoldSpec(cat, inputs, ids, w, r)
  {
    ProcessTableLocal(inputs, inputs, w, r.written, ids, cat[0]);
  }

  /** A catalog with distinct names whose derivation sources come first is processed as if each
      step saw the final outputs: one step never changes another table's output. */
  lemma {:induction false} RunCatalogSpec(cat: seq<Descriptor>, inputs: Store, ids: set<Value>, w: Store)
    requires DistinctNames(cat) && SourcesFirst(cat)
    requires forall d :: d in cat ==> d.name !in w
    ensures FoldSpec(cat, inputs, ids, w, RunCatalog(cat, inputs, ids, w))
    decreases |cat|
  {
    if cat != [] {
      var rest := cat[1..];
      var r := RunCatalog(cat, inputs, ids, w);
      CatalogTail(cat);
      match ProcessTable(inputs, w, ids, cat[0])
      case Abort(e) =>
        assert r == Aborted(e, w);
      case Skip =>
        RunCatalogSpec(rest, inputs, ids, w);
        assert r == RunCatalog(rest, inputs, ids, w);
        FoldSkip(cat, inputs, ids, w, r);
      case Write(t) =>
        RunCatalogSpec(rest, inputs, ids, w[cat[0].name := t]);
        assert r == RunCatalog(rest, inputs, ids, w[cat[0].name := t]);
        FoldWrite(cat, inputs, ids, w, t, r);
    }
  }

  /** The sampled key set, once the food table is known to be present. */
  function SampledIds(inputs: Store, draw: seq<nat>): (ids: set<Value>)
    requires Food in inputs && ValidDraw(inputs[Food], draw)
    ensures ids <= FoodIds(inputs[Food])
    ensures |ids| <= TargetCount(|inputs[Food].rows|)
  {
    SampleKeysBounded(inputs[Food], draw);
    SampleKeys(inputs[Food], draw)
  }

  /** The whole script: read food and food_nutrient, draw the sample, then walk the catalog. */
  function Run(inputs: Store, draw: seq<nat>): (r: RunResult)
    requires Food in inputs ==> ValidDraw(inputs[Food], draw)
    ensures forall t :: t in r.written ==> t in inputs && r.written[t].columns == inputs[t].columns
    ensures Food !in inputs || FoodNutrient !in inputs ==> r.Aborted? && |r.written| == 0
  {
    if Food !in inputs then Aborted(MissingSource(Food), map[])
    else if FoodNutrient !in inputs then Aborted(MissingSource(FoodNutrient), map[])
    else if FdcId !in inputs[Food].columns then Aborted(MissingColumn(Food, FdcId), map[])
    else RunCatalog(Steps(), inputs, SampledIds(inputs, draw), map[])
  }

  /** The inputs the script needs to finish: the three tables it reads unconditionally, the
      fdc_id columns it indexes unconditionally, and measure_unit's id when that step runs. */
  ghost predicate Runnable(inputs: Store)
  {
    && Food in inputs && FoodNutrient in inputs && Nutrient in inputs
    && FdcId in inputs[Food].columns
    && FdcId in inputs[FoodNutrient].columns
    && (FoodPortion in inputs ==> FdcId in inputs[FoodPortion].columns)
    && (FoodPortion in inputs && MeasureUnit in inputs && MeasureUnitId in inputs[FoodPortion].columns
        ==> Id in inputs[MeasureUnit].columns)
  }

  /** `out` is what every catalog step produces when it looks at `out` itself. */
  ghost predicate Consistent(inputs: Store, ids: set<Value>, out: Store)
  {
    forall t :: Reflects(out, t, ProcessTable(inputs, out, ids, Describe(t)))
  }

  /** An output reflecting every catalog step is consistent: the catalog lists every table. */
  lemma CatalogConsistent(inputs: Store, ids: set<Value>, out: Store)
    requires forall d :: d in Steps() ==> Reflects(out, d.name, ProcessTable(inputs, out, ids, d))
    ensures Consistent(inputs, ids, out)
  {
    StepsWellOrdered();
    forall t
      ensures Reflects(out, t, ProcessTable(inputs, out, ids, Describe(t)))
    {
      assert Steps()[Position(t)] in Steps();
    }
  }

  /** A run on runnable inputs completes, and its output is consistent with its inputs and
      sampled key set. */
  lemma RunConsistent(inputs: Store, draw: seq<nat>)
    requires Runnable(inputs) && ValidDraw(inputs[Food], draw)
    ensures Run(inputs, draw).Completed?
    ensures Consistent(inputs, SampledIds(inputs, draw), Run(inputs, draw).written)
  {
    RunnableRunCompletes(inputs, draw);
    var ids := SampledIds(inputs, draw);
    StepsWellOrdered();
    RunCatalogSpec(Steps(), inputs, ids, map[]);
    CatalogConsistent(inputs, ids, Run(inputs, draw).written);
  }

  /** The only ways a step can abort: a required table is missing, a table filtered by fdc_id
      without a check lacks the column, or measure_unit lacks id when its step runs. */
  lemma AbortCauses(inputs: Store, w: Store, ids: set<Value>, t: TableName)
    requires ProcessTable(inputs, w, ids, Describe(t)).Abort?
    ensures || (t in {Food, FoodNutrient, Nutrient} && t !in inputs)
            || (t in {Food, FoodNutrient, FoodPortion} && t in inputs && FdcId !in inputs[t].columns)
            || (t == MeasureUnit && t in inputs && FoodPortion in w
                && MeasureUnitId in w[FoodPortion].columns && Id !in inputs[t].columns)
  {
  }

  /** Consistent outputs exist only when the three required tables are present and food and
      food_nutrient have fdc_id. */
  lemma ConsistentRequired(inputs: Store, ids: set<Value>, out: Store)
    requires Consistent(inputs, ids, out)
    ensures Food in inputs && FoodNutrient in inputs && Nutrient in inputs
    ensures FdcId in inputs[Food].columns && FdcId in inputs[FoodNutrient].columns
  {
    assert Reflects(out, Food, ProcessTable(inputs, out, ids, Describe(Food)));
    assert Reflects(out, FoodNutrient, ProcessTable(inputs, out, ids, Describe(FoodNutrient)));
    assert Reflects(out, Nutrient, ProcessTable(inputs, out, ids, Describe(Nutrient)));
  }

  /** Consistent outputs exist only when a present food_portion has fdc_id and measure_unit has
      id whenever its step runs. */
  lemma ConsistentPortionColumns(inputs: Store, ids: set<Value>, out: Store)
    requires Consistent(inputs, ids, out)
    ensures FoodPortion in inputs ==> FdcId in inputs[FoodPortion].columns
    ensures FoodPortion in inputs && MeasureUnit in inputs && MeasureUnitId in inputs[FoodPortion].columns
      ==> Id in inputs[MeasureUnit].columns
  {
    assert Reflects(out, FoodPortion, ProcessTable(inputs, out, ids, Describe(FoodPortion)));
    assert Reflects(out, MeasureUnit, ProcessTable(inputs, out, ids, Describe(MeasureUnit)));
  }

  /** Consistent outputs exist only for runnable inputs. */
  lemma ConsistentRunnable(inputs: Store, ids: set<Value>, out: Store)
    requires Consistent(inputs, ids, out)
    ensures Runnable(inputs)
  {
    ConsistentRequired(inputs, ids, out);
    ConsistentPortionColumns(inputs, ids, out);
  }

  /** A run on inputs that are not runnable stops early: a completed run had every required
      file and every column the script indexes without a check. */
  lemma UnrunnableRunAborts(inputs: Store, draw: seq<nat>)
    requires Food in inputs ==> ValidDraw(inputs[Food], draw)
    requires !Runnable(inputs)
    ensures Run(inputs, draw).Aborted?
  {
    var r := Run(inputs, draw);
    if r.Completed? {
      var ids := SampledIds(inputs, draw);
      assert r == RunCatalog(Steps(), inputs, ids, map[]);
      StepsWellOrdered();
      RunCatalogSpec(Steps(), inputs, ids, map[]);
      CatalogConsistent(inputs, ids, r.written);
      ConsistentRunnable(inputs, ids, r.written);
      assert false;
    }
  }

  /** On runnable inputs no step aborts, provided the outputs so far kept their inputs' columns. */
  lemma NoStepAborts(inputs: Store, w: Store, ids: set<Value>, t: TableName)
    requires Runnable(inputs)
    requires FoodPortion in w ==> FoodPortion in inputs && w[FoodPortion].columns == inputs[FoodPortion].columns
    ensures !ProcessTable(inputs, w, ids, Describe(t)).Abort?
  {
    if ProcessTable(inputs, w, ids, Describe(t)).Abort? {
      AbortCauses(inputs, w, ids, t);
      assert false;
    }
  }

  /** On runnable inputs the walk of the catalog does not stop early, whatever the key set. */
  lemma CatalogCompletes(inputs: Store, ids: set<Value>)
    requires Runnable(inputs)
    ensures RunCatalog(Steps(), inputs, ids, map[]).Completed?
  {
    var r := RunCatalog(Steps(), inputs, ids, map[]);
    if r.Aborted? {
      StepsWellOrdered();
      RunCatalogSpec(Steps(), inputs, ids, map[]);
      var d :| d in Steps() && ProcessTable(inputs, r.written, ids, d) == Abort(r.error);
      var i :| 0 <= i < |Steps()| && Steps()[i] == d;
      PositionIsInverse();
      NoStepAborts(inputs, r.written, ids, TableAt(i));
      assert false;
    }
  }

  /** A run on runnable inputs does not stop early. */
  lemma RunnableRunCompletes(inputs: Store, draw: seq<nat>)
    requires Runnable(inputs) && ValidDraw(inputs[Food], draw)
    ensures Run(inputs, draw).Completed?
  {
    CatalogCompletes(inputs, SampledIds(inputs, draw));
  }

  /** A run completes exactly when its inputs are runnable. */
  lemma RunCompletesIffRunnable(inputs: Store, draw: seq<nat>)
    requires Food in inputs ==> ValidDraw(inputs[Food], draw)
    ensures Run(inputs, draw).Completed? <==> Runnable(inputs)
  {
    if Runnable(inputs) {
      RunnableRunCompletes(inputs, draw);
    } else {
      UnrunnableRunAborts(inputs, draw);
    }
  }

  /** Consistent outputs copy reference tables exactly when present. */
  lemma ConsistentCopy(inputs: Store, ids: set<Value>, out: Store, t: TableName)
    requires Consistent(inputs, ids, out) && Describe(t).mode.CopyAll?
    ensures (t in out <==> t in inputs) && (t in inputs ==> out[t] == inputs[t])
  {
    assert Reflects(out, t, ProcessTable(inputs, out, ids, Describe(t)));
  }

  /** Reference tables are copied unchanged when present and skipped without error when absent. */
  lemma RunCopiesReferenceTables(inputs: Store, draw: seq<nat>, t: TableName)
    requires Runnable(inputs) && ValidDraw(inputs[Food], draw)
    requires Describe(t).mode.CopyAll?
    ensures Run(inputs, draw).Completed?
    ensures t in Run(inputs, draw).written <==> t in inputs
    ensures t in inputs ==> Run(inputs, draw).written[t] == inputs[t]
  {
    RunConsistent(inputs, draw);
    ConsistentCopy(inputs, SampledIds(inputs, draw), Run(inputs, draw).written, t);
  }

  /** Tables filtered by the sampled fdc_id set, once their fdc_id column is known to exist. */
  ghost predicate FdcFiltered(inputs: Store, t: TableName)
  {
    && t in inputs
    && FdcId in inputs[t].columns
    && Describe(t).mode in {FilterBy(FdcId), FilterOrCopy(FdcId), FilterOrDrop(FdcId)}
  }

  /** Consistent outputs filter the fdc_id tables by the key set. */
  lemma ConsistentFdc(inputs: Store, ids: set<Value>, out: Store, t: TableName)
    requires Consistent(inputs, ids, out) && FdcFiltered(inputs, t)
    ensures t in out && out[t] == Filter(inputs[t], FdcId, ids)
  {
    var d := Describe(t);
    assert Reflects(out, t, ProcessTable(inputs, out, ids, d));
    assert ProcessTable(inputs, out, ids, d) == ApplyMode(t, inputs[t], out, ids, d.mode);
  }

  /** Every fdc_id kept in a filtered table is the fdc_id of a row kept in food. */
  lemma ConsistentFoodIntegrity(inputs: Store, ids: set<Value>, out: Store, t: TableName)
    requires Consistent(inputs, ids, out) && FdcFiltered(inputs, t)
    requires Food in inputs && ids <= FoodIds(inputs[Food])
    ensures t in out && Food in out
    ensures forall row :: row in out[t].rows ==>
      exists f :: f in out[Food].rows && Cell(f, FdcId) == Cell(row, FdcId)
  {
    ConsistentRunnable(inputs, ids, out);
    ConsistentFdc(inputs, ids, out, t);
    ConsistentFdc(inputs, ids, out, Food);
    forall row | row in out[t].rows
      ensures exists f :: f in out[Food].rows && Cell(f, FdcId) == Cell(row, FdcId)
    {
      var v := Cell(row, FdcId);
      assert v in FoodIds(inputs[Food]);
      var f :| f in inputs[Food].rows && Cell(f, FdcId) == v;
      assert f in out[Food].rows;
    }
  }

  /** Each fdc_id-filtered output is the order-preserving selection of its input's rows whose
      fdc_id is sampled, and every such fdc_id belongs to a food in the sampled food output. */
  lemma RunFiltersByFdcId(inputs: Store, draw: seq<nat>, t: TableName) returns (idx: seq<nat>)
    requires Runnable(inputs) && ValidDraw(inputs[Food], draw)
    requires FdcFiltered(inputs, t)
    ensures Run(inputs, draw).Completed?
    ensures t in Run(inputs, draw).written && Food in Run(inputs, draw).written
    ensures Run(inputs, draw).written[t] == Filter(inputs[t], FdcId, SampledIds(inputs, draw))
    ensures IsSelection(inputs[t].rows, Run(inputs, draw).written[t].rows, idx, FdcId, SampledIds(inputs, draw))
    ensures forall row :: row in Run(inputs, draw).written[t].rows ==>
      exists f :: f in Run(inputs, draw).written[Food].rows && Cell(f, FdcId) == Cell(row, FdcId)
  {
    RunConsistent(inputs, draw);
    var ids := SampledIds(inputs, draw);
    var out := Run(inputs, draw).written;
    ConsistentFoodIntegrity(inputs, ids, out, t);
    ConsistentFdc(inputs, ids, out, t);
    idx := FilterRowsIsSelection(inputs[t].rows, FdcId, ids);
  }

  /** Consistent outputs copy the two source tables whole when they lack fdc_id and leave the
      four food-detail tables unwritten. */
  lemma ConsistentWithoutFdcId(inputs: Store, ids: set<Value>, out: Store, t: TableName)
    requires Consistent(inputs, ids, out)
    requires t in inputs && FdcId !in inputs[t].columns
    ensures t in {FoodNutrientSource, FoodUpdateLogEntry} ==> t in out && out[t] == inputs[t]
    ensures t in {WweiaFoodCategory, BrandedFood, InputFood, SampleFood} ==> t !in out
  {
    assert Reflects(out, t, ProcessTable(inputs, out, ids, Describe(t)));
  }

  /** Without an fdc_id column, the two source tables are copied whole while the four
      food-detail tables are not written at all. */
  lemma RunWithoutFdcId(inputs: Store, draw: seq<nat>, t: TableName)
    requires Runnable(inputs) && ValidDraw(inputs[Food], draw)
    requires t in inputs && FdcId !in inputs[t].columns
    ensures Run(inputs, draw).Completed?
    ensures t in {FoodNutrientSource, FoodUpdateLogEntry} ==>
      t in Run(inputs, draw).written && Run(inputs, draw).written[t] == inputs[t]
    ensures t in {WweiaFoodCategory, BrandedFood, InputFood, SampleFood} ==> t !in Run(inputs, draw).written
  {
    RunConsistent(inputs, draw);
    ConsistentWithoutFdcId(inputs, SampledIds(inputs, draw), Run(inputs, draw).written, t);
  }

  /** Consistent outputs hold measure_unit exactly under the script's nested conditions, keyed by
      the units of the filtered food_portion. */
  lemma ConsistentMeasureUnit(inputs: Store, ids: set<Value>, out: Store)
    requires Consistent(inputs, ids, out)
    ensures MeasureUnit in out <==>
      FoodPortion in inputs && MeasureUnit in inputs && MeasureUnitId in inputs[FoodPortion].columns
    ensures MeasureUnit in out ==>
      && FoodPortion in out
      && out[FoodPortion] == Filter(inputs[FoodPortion], FdcId, ids)
      && out[MeasureUnit] == Filter(inputs[MeasureUnit], Id, NonNullValues(out[FoodPortion].rows, MeasureUnitId))
  {
    assert Reflects(out, FoodPortion, ProcessTable(inputs, out, ids, Describe(FoodPortion)));
    assert Reflects(out, MeasureUnit, ProcessTable(inputs, out, ids, Describe(MeasureUnit)));
  }

  /** measure_unit is written exactly when food_portion and measure_unit exist and food_portion
      has measure_unit_id; its rows are those whose id is a non-null measure_unit_id of the
      FILTERED food_portion output, i.e. of a portion of a sampled food. */
  lemma RunMeasureUnit(inputs: Store, draw: seq<nat>)
    requires Runnable(inputs) && ValidDraw(inputs[Food], draw)
    ensures Run(inputs, draw).Completed?
    ensures MeasureUnit in Run(inputs, draw).written <==>
      FoodPortion in inputs && MeasureUnit in inputs && MeasureUnitId in inputs[FoodPortion].columns
    ensures MeasureUnit in Run(inputs, draw).written ==>
      && FoodPortion in Run(inputs, draw).written
      && Run(inputs, draw).written[FoodPortion] == Filter(inputs[FoodPortion], FdcId, SampledIds(inputs, draw))
      && Run(inputs, draw).written[MeasureUnit] ==
           Filter(inputs[MeasureUnit], Id, NonNullValues(Run(inputs, draw).written[FoodPortion].rows, MeasureUnitId))
    ensures MeasureUnit in Run(inputs, draw).written ==>
      forall row :: row in Run(inputs, draw).written[MeasureUnit].rows ==>
        Cell(row, Id) != Null &&
        exists p :: p in inputs[FoodPortion].rows && Cell(p, FdcId) in SampledIds(inputs, draw)
                    && Cell(p, MeasureUnitId) == Cell(row, Id)
  {
    RunConsistent(inputs, draw);
    var ids := SampledIds(inputs, draw);
    var out := Run(inputs, draw).written;
    ConsistentMeasureUnit(inputs, ids, out);
  }

  /** Consistent outputs for two input stores agree on a table when the inputs it reads agree. */
  lemma ConsistentLocal(in1: Store, in2: Store, ids: set<Value>, out1: Store, out2: Store, t: TableName)
    requires Consistent(in1, ids, out1) && Consistent(in2, ids, out2)
    requires (t in in1 <==> t in in2) && (t in in1 ==> in1[t] == in2[t])
    requires t == MeasureUnit ==>
      (FoodPortion in in1 <==> FoodPortion in in2) && (FoodPortion in in1 ==> in1[FoodPortion] == in2[FoodPortion])
    ensures (t in out1 <==> t in out2) && (t in out1 ==> out1[t] == out2[t])
  {
    assert Reflects(out1, t, ProcessTable(in1, out1, ids, Describe(t)));
    assert Reflects(out2, t, ProcessTable(in2, out2, ids, Describe(t)));
    if t == MeasureUnit {
      assert Reflects(out1, FoodPortion, ProcessTable(in1, out1, ids, Describe(FoodPortion)));
      assert Reflects(out2, FoodPortion, ProcessTable(in2, out2, ids, Describe(FoodPortion)));
      ProcessTableLocal(in1, in2, out1, out2, ids, Describe(FoodPortion));
    }
    ProcessTableLocal(in1, in2, out1, out2, ids, Describe(t));
  }

  /** A table's output depends only on its own input, on the food table and the draw (through the
      key set) and, for measure_unit, on food_portion: other tables never affect it. */
  lemma RunOutputIsLocal(in1: Store, in2: Store, draw: seq<nat>, t: TableName)
    requires Runnable(in1) && Runnable(in2)
    requires ValidDraw(in1[Food], draw) && in1[Food] == in2[Food]
    requires t in in1 <==> t in in2
    requires t in in1 ==> in1[t] == in2[t]
    requires t == MeasureUnit ==>
      (FoodPortion in in1 <==> FoodPortion in in2) && (FoodPortion in in1 ==> in1[FoodPortion] == in2[FoodPortion])
    ensures t in Run(in1, draw).written <==> t in Run(in2, draw).written
    ensures t in Run(in1, draw).written ==> Run(in1, draw).written[t] == Run(in2, draw).written[t]
  {
    RunConsistent(in1, draw);
    RunConsistent(in2, draw);
    assert SampledIds(in1, draw) == SampledIds(in2, draw);
    ConsistentLocal(in1, in2, SampledIds(in1, draw), Run(in1, draw).written, Run(in2, draw).written, t);
  }
}
