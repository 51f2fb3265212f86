/** Applying the mosaic solution to a single CCD (updateExposure.py): the
    per-row flux correction of a source catalog (`applyMosaicResultsCatalog`)
    and the quarter-turn bookkeeping between the camera's pixel frame and
    the frame meas_mosaic fits in (`applyMosaicResultsExposure`,
    `getFluxFitParams`). The correction values themselves come from the
    fitted polynomial and the Jacobian of the WCS and are an input here. */
module ApplyResults {
  import opened Common
  import opened FluxKeys

  // ------------------------------------------------------------- catalogs

  /** One column of a source catalog: its field and one value per row. */
  datatype Column = Column(field: FieldInfo, values: seq<real>)

  datatype Catalog = Catalog(rows: nat, columns: seq<Column>)

  function SchemaOf(cat: Catalog): (s: Schema)
    ensures |s| == |cat.columns| && forall j :: 0 <= j < |s| ==> s[j] == cat.columns[j].field
  {
    seq(|cat.columns|, j requires 0 <= j < |cat.columns| => cat.columns[j].field)
  }

  /** Every column has one value per row and no two fields share a name, as
      an afw table guarantees. */
  predicate WellFormed(cat: Catalog) {
    && (forall j :: 0 <= j < |cat.columns| ==> |cat.columns[j].values| == cat.rows)
    && NoDup(Names(SchemaOf(cat)))
  }

  /** The column addCorrection adds, a double field. */
  const CorrName: string := "mosaic_corr"
  const CorrField: FieldInfo := FieldInfo(CorrName, "D", false)

  /** Errors of applyMosaicResultsCatalog: the schema mapper refuses a second
      field of the same name, and getFluxKeys finds no flux field. */
  datatype CatalogError = DuplicateField(name: string) | NoFluxKeysFound

  /** x to the power n. */
  function Pow(x: real, n: nat): real {
    if n == 0 then 1.0 else x * Pow(x, n - 1)
  }

  /** The addCorrection branch: every column is copied and "mosaic_corr"
      holding the correction is added at the end. */
  function AddCorrection(cat: Catalog, corr: seq<real>): (r: Result<Catalog, CatalogError>)
    requires WellFormed(cat) && |corr| == cat.rows
    ensures r.Failure? <==> CorrName in Names(SchemaOf(cat))
    ensures r.Failure? ==> r.error == DuplicateField(CorrName)
    ensures r.Success? ==> WellFormed(r.value) && r.value.rows == cat.rows
    ensures r.Success? ==> SchemaOf(r.value) == SchemaOf(cat) + [CorrField]
    ensures r.Success? ==> r.value.columns[..|cat.columns|] == cat.columns
    ensures r.Success? ==> r.value.columns[|cat.columns|].values == corr
  {
    if CorrName in Names(SchemaOf(cat)) then Failure(DuplicateField(CorrName))
    else
      var out := Catalog(cat.rows, cat.columns + [Column(CorrField, corr)]);
      assert SchemaOf(out) == SchemaOf(cat) + [CorrField];
      assert Names(SchemaOf(out)) == Names(SchemaOf(cat)) + [CorrName];
      Success(out)
  }

  /** `catalog[key][:] *= corr` for the key of `name`, when that key has no
      subfields. */
  function MultiplyNamed(cat: Catalog, name: string, corr: seq<real>): (r: Catalog)
    requires WellFormed(cat) && |corr| == cat.rows
    ensures WellFormed(r) && r.rows == cat.rows && SchemaOf(r) == SchemaOf(cat)
    ensures forall j, i :: 0 <= j < |cat.columns| && 0 <= i < cat.rows ==>
      r.columns[j].values[i] == cat.columns[j].values[i] * (if cat.columns[j].field.name == name && !cat.columns[j].field.hasSubfields then corr[i] else 1.0)
  {
    var cols := seq(|cat.columns|, j requires 0 <= j < |cat.columns| =>
      var c := cat.columns[j];
      if c.field.name == name && !c.field.hasSubfields
      then Column(c.field, seq(cat.rows, i requires 0 <= i < cat.rows => c.values[i] * corr[i]))
      else c);
    var r := Catalog(cat.rows, cols);
    assert SchemaOf(r) == SchemaOf(cat);
    r
  }

  /** How often a row value of `col` ends up multiplied by the correction
      when every key in `keys` is applied once. */
  function Factor(col: Column, keys: seq<string>, corr: seq<real>, i: int): real
    requires 0 <= i < |corr|
  {
    if col.field.hasSubfields then 1.0 else Pow(corr[i], Count(keys, col.field.name))
  }

  /** The scaling loop `for name, key in fluxKeys + errKeys: catalog[key] *= corr`:
      a column without subfields ends up multiplied by the correction once
      per occurrence of its name among the keys, and nothing else changes. */
  function ScaleByKeys(cat: Catalog, keys: seq<string>, corr: seq<real>): (r: Catalog)
    requires WellFormed(cat) && |corr| == cat.rows
    ensures WellFormed(r) && r.rows == cat.rows && SchemaOf(r) == SchemaOf(cat)
    ensures ScaledBy(r, cat, keys, corr)
    decreases |keys|
  {
    if |keys| == 0 then cat
    else
      var m := MultiplyNamed(cat, keys[0], corr);
      var r := ScaleByKeys(m, keys[1..], corr);
      ScaledThrough(cat, m, r, keys, corr);
      r
  }

  /** Scaling by the first key, then by the rest, scales by all keys. */
  lemma ScaledThrough(cat: Catalog, m: Catalog, r: Catalog, keys: seq<string>, corr: seq<real>)
    requires WellFormed(cat) && |corr| == cat.rows && |keys| > 0
    requires m == MultiplyNamed(cat, keys[0], corr)
    requires WellFormed(r) && r.rows == cat.rows && SchemaOf(r) == SchemaOf(cat)
    requires ScaledBy(r, m, keys[1..], corr)
    ensures ScaledBy(r, cat, keys, corr)
  {
    forall j, i | 0 <= j < |cat.columns| && j < |r.columns| && 0 <= i < |cat.columns[j].values|
                  && i < |r.columns[j].values| && i < |corr|
      ensures r.columns[j].values[i] == cat.columns[j].values[i] * Factor(cat.columns[j], keys, corr, i)
    {
      ScaleStep(cat, m, r, keys, corr, j, i);
    }
  }

  /** One key applied first, the rest after: the factors multiply. */
  lemma ScaleStep(cat: Catalog, m: Catalog, r: Catalog, keys: seq<string>, corr: seq<real>, j: int, i: int)
    requires WellFormed(cat) && |corr| == cat.rows && |keys| > 0
    requires 0 <= j < |cat.columns| && 0 <= i < cat.rows
    requires WellFormed(m) && m.rows == cat.rows && SchemaOf(m) == SchemaOf(cat)
    requires WellFormed(r) && r.rows == cat.rows && SchemaOf(r) == SchemaOf(cat)
    requires m.columns[j].values[i] == cat.columns[j].values[i] * (if cat.columns[j].field.name == keys[0] && !cat.columns[j].field.hasSubfields then corr[i] else 1.0)
    requires ScaledBy(r, m, keys[1..], corr)
    ensures r.columns[j].values[i] == cat.columns[j].values[i] * Factor(cat.columns[j], keys, corr, i)
  {
    assert m.columns[j].field == SchemaOf(m)[j] == cat.columns[j].field;
    var c := cat.columns[j];
    var v := c.values[i];
    var k := Count(keys[1..], c.field.name);
    if !c.field.hasSubfields && c.field.name == keys[0] {
      assert Count(keys, c.field.name) == 1 + k;
      assert Pow(corr[i], 1 + k) == corr[i] * Pow(corr[i], k);
      assert (v * corr[i]) * Pow(corr[i], k) == v * (corr[i] * Pow(corr[i], k));
    } else if !c.field.hasSubfields {
      assert Count(keys, c.field.name) == k;
    }
  }

  /** The flux keys then the error keys, the order of the scaling loop. */
  function AllKeys(keys: FluxKeySet): seq<string> {
    keys.flux + keys.err
  }

  /** Row i of column j of `out` is that of `cat` times the correction
      once per occurrence of the column's name in `keys`, for every column
      of `cat`. */
  predicate ScaledBy(out: Catalog, cat: Catalog, keys: seq<string>, corr: seq<real>) {
    forall j, i :: 0 <= j < |cat.columns| && j < |out.columns| && 0 <= i < |cat.columns[j].values|
                   && i < |out.columns[j].values| && i < |corr| ==>
      out.columns[j].values[i] == cat.columns[j].values[i] * Factor(cat.columns[j], keys, corr, i)
  }

  /** applyMosaicResultsCatalog on the catalog's columns, once the catalog
      is in the frame of the fit and the per-row correction is known. */
  function ApplyMosaicResultsCatalog(cat: Catalog, corr: seq<real>, addCorrection: bool, hscRun: bool)
    : (r: Result<Catalog, CatalogError>)
    requires WellFormed(cat) && |corr| == cat.rows
    ensures r.Failure? <==>
      (addCorrection && CorrName in Names(SchemaOf(cat))) || GetFluxKeys(SchemaOf(cat), hscRun).Failure?
    ensures r.Failure? && addCorrection && CorrName in Names(SchemaOf(cat)) ==> r.error == DuplicateField(CorrName)
    ensures r.Failure? && !(addCorrection && CorrName in Names(SchemaOf(cat))) ==> r.error == NoFluxKeysFound
    ensures r.Success? ==>
      && WellFormed(r.value) && r.value.rows == cat.rows
      && |r.value.columns| == |cat.columns| + (if addCorrection then 1 else 0)
      && (forall j :: 0 <= j < |cat.columns| ==> r.value.columns[j].field == cat.columns[j].field)
    // every column of the input is multiplied by the correction once per
    // occurrence of its name among the flux and error keys of the input
    ensures r.Success? ==> ScaledBy(r.value, cat, AllKeys(GetFluxKeys(SchemaOf(cat), hscRun).value), corr)
    // the added column holds the correction itself
    ensures r.Success? && addCorrection ==> r.value.columns[|cat.columns|] == Column(CorrField, corr)
  {
    var added := if addCorrection then AddCorrection(cat, corr) else Success(cat);
    if added.Failure? then Failure(added.error)
    else
      var cat1 := added.value;
      SameKeysAfterAdding(cat, cat1, addCorrection, hscRun);
      match GetFluxKeys(SchemaOf(cat1), hscRun)
      case Failure(_) => Failure(NoFluxKeysFound)
      case Success(keys) =>
        var out := ScaleByKeys(cat1, AllKeys(keys), corr);
        CopiedColumns(cat, cat1, out, AllKeys(keys), corr);
        CorrColumnUnchanged(cat, cat1, out, hscRun, corr, addCorrection);
        Success(out)
  }

  /** The columns of the input keep their position through the optional
      addition of "mosaic_corr". */
  lemma CopiedColumns(cat: Catalog, cat1: Catalog, out: Catalog, keys: seq<string>, corr: seq<real>)
    requires WellFormed(cat) && |corr| == cat.rows && WellFormed(cat1) && cat1.rows == cat.rows
    requires |cat.columns| <= |cat1.columns| && cat1.columns[..|cat.columns|] == cat.columns
    requires out == ScaleByKeys(cat1, keys, corr)
    ensures forall j :: 0 <= j < |cat.columns| ==> out.columns[j].field == cat.columns[j].field
    ensures ScaledBy(out, cat, keys, corr)
  {
    forall j | 0 <= j < |cat.columns|
      ensures cat1.columns[j] == cat.columns[j]
      ensures out.columns[j].field == cat.columns[j].field
    {
      assert cat1.columns[..|cat.columns|][j] == cat1.columns[j];
      assert SchemaOf(out)[j] == SchemaOf(cat1)[j];
    }
    ScaledPrefix(cat, cat1, out, keys, corr);
  }

  /** Scaling facts about a catalog carry over to the columns it shares
      with another. */
  lemma ScaledPrefix(cat: Catalog, cat1: Catalog, out: Catalog, keys: seq<string>, corr: seq<real>)
    requires |cat.columns| <= |cat1.columns|
    requires forall j :: 0 <= j < |cat.columns| ==> cat1.columns[j] == cat.columns[j]
    requires ScaledBy(out, cat1, keys, corr)
    ensures ScaledBy(out, cat, keys, corr)
  {
  }

  /** The flux keys of the catalog after the optional addition of
      "mosaic_corr" are those of the input. */
  lemma SameKeysAfterAdding(cat: Catalog, cat1: Catalog, addCorrection: bool, hscRun: bool)
    requires addCorrection ==> CorrName !in Names(SchemaOf(cat)) && SchemaOf(cat1) == SchemaOf(cat) + [CorrField]
    requires !addCorrection ==> cat1 == cat
    ensures GetFluxKeys(SchemaOf(cat1), hscRun) == GetFluxKeys(SchemaOf(cat), hscRun)
  {
    if addCorrection {
      FluxKeysIgnoreCorrection(SchemaOf(cat), hscRun);
    }
  }

  /** "mosaic_corr", added before the keys are looked up, is multiplied by
      nothing. */
  lemma CorrColumnUnchanged(cat: Catalog, cat1: Catalog, out: Catalog, hscRun: bool, corr: seq<real>, addCorrection: bool)
    requires WellFormed(cat1) && |corr| == cat1.rows
    requires addCorrection ==>
      && |cat1.columns| == |cat.columns| + 1 && cat1.columns[|cat.columns|].values == corr
      && SchemaOf(cat1) == SchemaOf(cat) + [CorrField]
    requires GetFluxKeys(SchemaOf(cat1), hscRun).Success?
    requires out == ScaleByKeys(cat1, AllKeys(GetFluxKeys(SchemaOf(cat1), hscRun).value), corr)
    ensures addCorrection ==> out.columns[|cat.columns|] == Column(CorrField, corr)
  {
    if addCorrection {
      var keys := GetFluxKeys(SchemaOf(cat1), hscRun).value;
      CorrNotAKey(SchemaOf(cat1), hscRun);
      CorrKeyless(cat, cat1, out, AllKeys(keys), corr);
    }
  }

  lemma CorrKeyless(cat: Catalog, cat1: Catalog, out: Catalog, keys: seq<string>, corr: seq<real>)
    requires WellFormed(cat1) && |corr| == cat1.rows
    requires |cat1.columns| == |cat.columns| + 1 && cat1.columns[|cat.columns|].values == corr
    requires SchemaOf(cat1)[|cat.columns|] == CorrField
    requires CorrName !in keys
    requires out == ScaleByKeys(cat1, keys, corr)
    ensures out.columns[|cat.columns|] == Column(CorrField, corr)
  {
    var n := |cat.columns|;
    CountAbsent(keys, CorrName);
    assert out.columns[n].field == SchemaOf(out)[n] == CorrField;
    assert |out.columns[n].values| == cat1.rows;
    forall i | 0 <= i < cat1.rows
      ensures out.columns[n].values[i] == corr[i]
    {
      assert Factor(cat1.columns[n], keys, corr, i) == 1.0;
    }
  }

  /** What makes "mosaic_corr" neither a flux nor an error name. */
  lemma CorrNameFacts()
    ensures !MatchesHscFlux(CorrName)
    ensures !EndsWith(CorrName, FluxSuffix)
    ensures !EndsWith(CorrName, ErrSuffix)
    ensures !EndsWith(CorrName, FluxSuffix + ErrSuffix)
    ensures forall s :: s + HscErrSuffix != CorrName
  {
    assert |CorrName| == 11;
    assert CorrName[..5] != "flux_" by {
      assert CorrName[0] == 'm';
    }
    assert CorrName[2..] != FluxSuffix by {
      assert CorrName[2] == 's';
    }
    assert CorrName[8..] != ErrSuffix by {
      assert CorrName[8] == 'o';
    }
    forall s
      ensures s + HscErrSuffix != CorrName
    {
      if |s| == 7 {
        assert (s + HscErrSuffix)[7] == '_';
        assert CorrName[7] == 'c';
      }
    }
  }

  /** "mosaic_corr" never becomes a flux or error key. */
  lemma CorrNotAKey(schema: Schema, hscRun: bool)
    requires GetFluxKeys(schema, hscRun).Success?
    ensures CorrName !in AllKeys(GetFluxKeys(schema, hscRun).value)
  {
    var keys := GetFluxKeys(schema, hscRun).value;
    CorrNameFacts();
    if hscRun {
      assert CorrName !in keys.flux;
      forall k | 0 <= k < |keys.err|
        ensures keys.err[k] != CorrName
      {
        assert keys.err[k] == keys.flux[k] + HscErrSuffix;
      }
    } else {
      forall n | n in keys.err
        ensures n != CorrName
      {
        var k :| 0 <= k < |keys.flux| && n == keys.flux[k] + ErrSuffix;
        assert n[|n| - 3..] == ErrSuffix;
      }
      forall n | n in keys.flux
        ensures n != CorrName
      {
        var i :| 0 <= i < |schema| && schema[i].name == n && IsLsstFluxField(schema[i]);
      }
    }
  }

  /** Adding "mosaic_corr" to a schema does not change its flux and error
      keys, so applyMosaicResultsCatalog selects on the input's fields. */
  lemma FluxKeysIgnoreCorrection(schema: Schema, hscRun: bool)
    requires CorrName !in Names(schema)
    ensures GetFluxKeys(schema + [CorrField], hscRun) == GetFluxKeys(schema, hscRun)
  {
    var s1 := schema + [CorrField];
    if hscRun {
      HscNamesIgnoreCorrection(schema);
    } else {
      LsstNamesIgnoreCorrection(schema);
    }
  }

  lemma HscNamesIgnoreCorrection(schema: Schema)
    ensures var names := Names(schema); var names1 := Names(schema + [CorrField]);
      names1 == names + [CorrName] && Filter(names1, HscTest(names1)) == Filter(names, HscTest(names))
  {
    var names := Names(schema);
    var names1 := Names(schema + [CorrField]);
    assert names1 == names + [CorrName];
    CorrNameFacts();
    FilterSnoc(names, CorrName, HscTest(names1));
    forall i | 0 <= i < |names|
      ensures HscTest(names1)(names[i]) == HscTest(names)(names[i])
    {
      assert names[i] + HscErrSuffix != CorrName;
    }
    FilterCongruent(names, HscTest(names1), HscTest(names));
  }

  lemma LsstNamesIgnoreCorrection(schema: Schema)
    ensures var flux := NamesWhere(schema, IsLsstFluxField);
      && NamesWhere(schema + [CorrField], IsLsstFluxField) == flux
      && NamesWhere(schema + [CorrField], ErrTest(flux)) == NamesWhere(schema, ErrTest(flux))
  {
    var s1 := schema + [CorrField];
    assert s1[..|s1| - 1] == schema;
    CorrNameFacts();
  }

  /** In the LSST convention every flux and error column without subfields
      is multiplied by the correction exactly once and every other column is
      copied unchanged. */
  lemma LsstCatalogScaledOnce(cat: Catalog, corr: seq<real>, addCorrection: bool)
    requires WellFormed(cat) && |corr| == cat.rows
    requires ApplyMosaicResultsCatalog(cat, corr, addCorrection, false).Success?
    ensures var keys := GetFluxKeys(SchemaOf(cat), false).value;
      ScaledOnce(ApplyMosaicResultsCatalog(cat, corr, addCorrection, false).value, cat, keys, corr)
  {
    var keys := GetFluxKeys(SchemaOf(cat), false).value;
    var out := ApplyMosaicResultsCatalog(cat, corr, addCorrection, false).value;
    LsstKeysOnce(SchemaOf(cat));
    EachKeyScaledOnce(cat, out, keys, corr);
  }

  /** Row i of every column of `cat` is, in `out`, multiplied by the
      correction if the column is a flux or error column without subfields,
      and unchanged otherwise. */
  predicate ScaledOnce(out: Catalog, cat: Catalog, keys: FluxKeySet, corr: seq<real>) {
    forall j, i :: 0 <= j < |cat.columns| && j < |out.columns| && 0 <= i < |cat.columns[j].values|
                   && i < |out.columns[j].values| && i < |corr| ==>
      out.columns[j].values[i] ==
        if !cat.columns[j].field.hasSubfields && (cat.columns[j].field.name in keys.flux || cat.columns[j].field.name in keys.err)
        then cat.columns[j].values[i] * corr[i] else cat.columns[j].values[i]
  }

  /** Flux and error keys with no repeated name: each column is named at
      most once by the scaling loop. */
  predicate KeysOnce(keys: FluxKeySet) {
    NoDup(keys.flux) && NoDup(keys.err) && forall n :: n in keys.flux ==> n !in keys.err
  }

  /** The LSST convention names every column at most once. */
  lemma LsstKeysOnce(schema: Schema)
    requires NoDup(Names(schema)) && GetFluxKeys(schema, false).Success?
    ensures KeysOnce(GetFluxKeys(schema, false).value)
  {
    var flux := NamesWhere(schema, IsLsstFluxField);
    NamesWhereNoDup(schema, IsLsstFluxField);
    NamesWhereNoDup(schema, ErrTest(flux));
    LsstFluxAndErrDisjoint(schema);
  }

  /** Keys without repeats scale each of their columns once. */
  lemma EachKeyScaledOnce(cat: Catalog, out: Catalog, keys: FluxKeySet, corr: seq<real>)
    requires KeysOnce(keys)
    requires ScaledBy(out, cat, AllKeys(keys), corr)
    ensures ScaledOnce(out, cat, keys, corr)
  {
    forall j, i | 0 <= j < |cat.columns| && j < |out.columns| && 0 <= i < |cat.columns[j].values|
                  && i < |out.columns[j].values| && i < |corr|
      ensures out.columns[j].values[i] ==
        if !cat.columns[j].field.hasSubfields && (cat.columns[j].field.name in keys.flux || cat.columns[j].field.name in keys.err)
        then cat.columns[j].values[i] * corr[i] else cat.columns[j].values[i]
    {
      FactorOnce(keys, cat.columns[j], corr, i);
    }
  }

  /** The factor of a column under keys without repeats: the correction for
      a flux or error column without subfields, one for any other. */
  lemma FactorOnce(keys: FluxKeySet, col: Column, corr: seq<real>, i: int)
    requires KeysOnce(keys)
    requires 0 <= i < |corr|
    ensures Factor(col, AllKeys(keys), corr, i) ==
      if !col.field.hasSubfields && (col.field.name in keys.flux || col.field.name in keys.err) then corr[i] else 1.0
  {
    var k := KeyCount(keys, col.field.name);
    assert Pow(corr[i], 1) == corr[i];
  }

  /** Under keys without repeats a name occurs once among the flux and
      error keys together if it is one of them, and not at all otherwise. */
  lemma KeyCount(keys: FluxKeySet, name: string) returns (k: nat)
    requires KeysOnce(keys)
    ensures k == Count(AllKeys(keys), name)
    ensures k == 1 <==> name in keys.flux || name in keys.err
    ensures k == 0 <==> name !in keys.flux && name !in keys.err
  {
    CountAppend(keys.flux, keys.err, name);
    NoDupCount(keys.flux, name);
    NoDupCount(keys.err, name);
    if name in keys.flux {
      CountPresent(keys.flux, name);
      CountAbsent(keys.err, name);
    } else {
      CountAbsent(keys.flux, name);
      if name in keys.err {
        CountPresent(keys.err, name);
      } else {
        CountAbsent(keys.err, name);
      }
    }
    k := Count(AllKeys(keys), name);
  }

  /** A catalog in the HSC convention where "flux_a_err" is both a flux key
      (its "_err" companion exists) and the error key of "flux_a". */
  const OverlapCatalog: Catalog := Catalog(1, [Column(FieldInfo("flux_a", "D", false), [1.0]),
                                               Column(FieldInfo("flux_a_err", "D", false), [1.0]),
                                               Column(FieldInfo("flux_a_err_err", "D", false), [1.0])])

  lemma OverlapKeys()
    ensures GetFluxKeys(SchemaOf(OverlapCatalog), true)
            == Success(FluxKeySet(["flux_a", "flux_a_err"], ["flux_a_err", "flux_a_err_err"]))
  {
    var schema := SchemaOf(OverlapCatalog);
    OverlapNames();
    OverlapFilter();
    HscKeys(schema, ["flux_a", "flux_a_err"]);
    OverlapErrNames();
  }

  lemma OverlapErrNames()
    ensures AppendAll(["flux_a", "flux_a_err"], HscErrSuffix) == ["flux_a_err", "flux_a_err_err"]
  {
    var r := AppendAll(["flux_a", "flux_a_err"], HscErrSuffix);
    assert r[0] == "flux_a" + HscErrSuffix == "flux_a_err";
    assert r[1] == "flux_a_err" + HscErrSuffix == "flux_a_err_err";
  }

  lemma OverlapNames()
    ensures Names(SchemaOf(OverlapCatalog)) == ["flux_a", "flux_a_err", "flux_a_err_err"]
    ensures WellFormed(OverlapCatalog)
  {
    var names := Names(SchemaOf(OverlapCatalog));
    assert names == ["flux_a", "flux_a_err", "flux_a_err_err"];
    assert names[0] != names[1] && names[0] != names[2] && names[1] != names[2];
  }

  /** The HSC branch of getFluxKeys, given the names that pass its test. */
  lemma HscKeys(schema: Schema, flux: seq<string>)
    requires Filter(Names(schema), HscTest(Names(schema))) == flux && |flux| > 0
    ensures GetFluxKeys(schema, true) == Success(FluxKeySet(flux, AppendAll(flux, HscErrSuffix)))
  {
  }

  lemma OverlapFilter()
    ensures var names := ["flux_a", "flux_a_err", "flux_a_err_err"];
      Filter(names, HscTest(names)) == ["flux_a", "flux_a_err"]
  {
    var names := ["flux_a", "flux_a_err", "flux_a_err_err"];
    OverlapTests(names);
    FilterFirstTwo(names, HscTest(names));
  }

  lemma FilterFirstTwo<T>(xs: seq<T>, p: T -> bool)
    requires |xs| == 3 && p(xs[0]) && p(xs[1]) && !p(xs[2])
    ensures Filter(xs, p) == xs[..2]
  {
    var t1, t2 := xs[1..], xs[2..];
    assert t2[1..] == [];
    assert Filter(t2, p) == [];
    assert t1[1..] == t2;
    assert Filter(t1, p) == [xs[1]];
    assert xs[1..] == t1;
    assert Filter(xs, p) == [xs[0]] + [xs[1]];
  }

  lemma OverlapTests(names: seq<string>)
    requires names == ["flux_a", "flux_a_err", "flux_a_err_err"]
    ensures HscTest(names)("flux_a") && HscTest(names)("flux_a_err") && !HscTest(names)("flux_a_err_err")
  {
    var a, b, c := "flux_a", "flux_a_err", "flux_a_err_err";
    assert MatchesHscFlux(a) by {
      assert a[..5] == "flux_" && AllWord(a[5..]);
    }
    assert !MatchesHscApcorr(a);
    assert a + HscErrSuffix == b;
    assert MatchesHscFlux(b) by {
      assert b[..5] == "flux_" && AllWord(b[5..]);
    }
    assert !MatchesHscApcorr(b);
    assert b + HscErrSuffix == c;
    assert |c + HscErrSuffix| == 18;
  }

  /** In the HSC convention a name can be a flux key and the "_err"
      companion of another flux key at once; its column is then multiplied
      by the correction twice while the others are multiplied once. */
  lemma HscOverlapScaledTwice()
    ensures var r := ApplyMosaicResultsCatalog(OverlapCatalog, [2.0], false, true);
      && r.Success? && r.value.rows == 1 && |r.value.columns| == 3
      && r.value.columns[0].values[0] == 2.0
      && r.value.columns[1].values[0] == 4.0
      && r.value.columns[2].values[0] == 2.0
  {
    var keys := ["flux_a", "flux_a_err", "flux_a_err", "flux_a_err_err"];
    OverlapFacts(OverlapCatalog, keys);
    OverlapScaled(OverlapCatalog, [2.0], keys);
  }

  /** What OverlapScaled needs to know of that catalog. */
  lemma OverlapFacts(cat: Catalog, keys: seq<string>)
    requires cat == OverlapCatalog
    requires keys == ["flux_a", "flux_a_err", "flux_a_err", "flux_a_err_err"]
    ensures WellFormed(cat) && cat.rows == 1 && |cat.columns| == 3
    ensures forall j :: 0 <= j < 3 ==> cat.columns[j].values[0] == 1.0 && !cat.columns[j].field.hasSubfields
    ensures CorrName !in Names(SchemaOf(cat))
    ensures GetFluxKeys(SchemaOf(cat), true).Success? && AllKeys(GetFluxKeys(SchemaOf(cat), true).value) == keys
    ensures Count(keys, cat.columns[0].field.name) == 1
    ensures Count(keys, cat.columns[1].field.name) == 2
    ensures Count(keys, cat.columns[2].field.name) == 1
  {
    OverlapColumns(cat);
    OverlapNoCorr(Names(SchemaOf(cat)));
    OverlapAllKeys(cat, keys);
    OverlapCounts();
  }

  lemma OverlapColumns(cat: Catalog)
    requires cat == OverlapCatalog
    ensures WellFormed(cat) && cat.rows == 1 && |cat.columns| == 3
    ensures forall j :: 0 <= j < 3 ==> cat.columns[j].values[0] == 1.0 && !cat.columns[j].field.hasSubfields
    ensures cat.columns[0].field.name == "flux_a"
    ensures cat.columns[1].field.name == "flux_a_err"
    ensures cat.columns[2].field.name == "flux_a_err_err"
    ensures Names(SchemaOf(cat)) == ["flux_a", "flux_a_err", "flux_a_err_err"]
  {
    OverlapNames();
  }

  lemma OverlapNoCorr(names: seq<string>)
    requires names == ["flux_a", "flux_a_err", "flux_a_err_err"]
    ensures CorrName !in names
  {
    assert CorrName != names[0] && CorrName != names[1] && CorrName != names[2];
  }

  lemma OverlapAllKeys(cat: Catalog, keys: seq<string>)
    requires cat == OverlapCatalog
    requires keys == ["flux_a", "flux_a_err", "flux_a_err", "flux_a_err_err"]
    ensures GetFluxKeys(SchemaOf(cat), true).Success? && AllKeys(GetFluxKeys(SchemaOf(cat), true).value) == keys
  {
    OverlapKeys();
    assert AllKeys(FluxKeySet(["flux_a", "flux_a_err"], ["flux_a_err", "flux_a_err_err"])) == keys;
  }

  /** A one-row, three-column catalog of ones whose middle name occurs
      twice among the keys: scaling by 2 gives 2, 4 and 2. */
  lemma OverlapScaled(cat: Catalog, corr: seq<real>, keys: seq<string>)
    requires WellFormed(cat) && cat.rows == 1 && |corr| == 1 && corr[0] == 2.0 && |cat.columns| == 3
    requires forall j :: 0 <= j < 3 ==> cat.columns[j].values[0] == 1.0 && !cat.columns[j].field.hasSubfields
    requires CorrName !in Names(SchemaOf(cat))
    requires GetFluxKeys(SchemaOf(cat), true).Success? && AllKeys(GetFluxKeys(SchemaOf(cat), true).value) == keys
    requires Count(keys, cat.columns[0].field.name) == 1
    requires Count(keys, cat.columns[1].field.name) == 2
    requires Count(keys, cat.columns[2].field.name) == 1
    ensures var r := ApplyMosaicResultsCatalog(cat, corr, false, true);
      && r.Success? && r.value.rows == 1 && |r.value.columns| == 3
      && r.value.columns[0].values[0] == 2.0
      && r.value.columns[1].values[0] == 4.0
      && r.value.columns[2].values[0] == 2.0
  {
    var out := ApplyMosaicResultsCatalog(cat, corr, false, true).value;
    ScaledValue(out, cat, keys, corr, 0);
    ScaledValue(out, cat, keys, corr, 1);
    ScaledValue(out, cat, keys, corr, 2);
    assert Pow(2.0, 1) == 2.0;
    assert Pow(2.0, 2) == 4.0;
  }

  /** The first row of column j under ScaledBy. */
  lemma ScaledValue(out: Catalog, cat: Catalog, keys: seq<string>, corr: seq<real>, j: int)
    requires ScaledBy(out, cat, keys, corr) && WellFormed(out) && WellFormed(cat)
    requires 0 <= j < |cat.columns| && j < |out.columns| && cat.rows > 0 && out.rows > 0 && |corr| > 0
    ensures out.columns[j].values[0] == cat.columns[j].values[0] * Factor(cat.columns[j], keys, corr, 0)
  {
  }

  lemma OverlapCounts()
    ensures Count(["flux_a", "flux_a_err", "flux_a_err", "flux_a_err_err"], "flux_a") == 1
    ensures Count(["flux_a", "flux_a_err", "flux_a_err", "flux_a_err_err"], "flux_a_err") == 2
    ensures Count(["flux_a", "flux_a_err", "flux_a_err", "flux_a_err_err"], "flux_a_err_err") == 1
  {
    var a, b, c := "flux_a", "flux_a_err", "flux_a_err_err";
    assert a != b && a != c && b != c;
    CountAppend([a, b], [b, c], a);
    CountAppend([a, b], [b, c], b);
    CountAppend([a, b], [b, c], c);
    CountAppend([a], [b], a);
    CountAppend([a], [b], b);
    CountAppend([a], [b], c);
    CountAppend([b], [c], a);
    CountAppend([b], [c], b);
    CountAppend([b], [c], c);
    assert [a, b, b, c] == [a, b] + [b, c];
    assert [a, b] == [a] + [b] && [b, c] == [b] + [c];
  }
}
