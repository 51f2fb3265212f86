/** Flux-field naming of updateExposure.py: which fields of a catalog
    schema hold fluxes and flux errors (`getFluxKeys`), in the LSST
    convention ("*_instFlux" / "*_instFluxErr") and in the older HSC one
    ("flux_*" / "*_instFlux" with an "_err" companion); and the schema
    `applyCalib` builds when it turns those fluxes into magnitudes. */
module FluxKeys {
  import opened Common
  import opened SchemaMapper

  /** One field of an afw table schema, as getFluxKeys sees it. */
  datatype FieldInfo = FieldInfo(name: string, typeName: string, hasSubfields: bool)

  type Schema = seq<FieldInfo>

  function Names(schema: Schema): (ns: seq<string>)
    ensures |ns| == |schema| && forall i :: 0 <= i < |schema| ==> ns[i] == schema[i].name
  {
    seq(|schema|, i requires 0 <= i < |schema| => schema[i].name)
  }

  /** The flux fields and the error fields, as names in schema order (the
      keys of the two dicts). */
  datatype FluxKeySet = FluxKeySet(flux: seq<string>, err: seq<string>)

  /** TaskError("No flux keys found"). */
  datatype NoFluxKeys = NoFluxKeys

  // ------------------------------------------------------------ LSST names

  const FluxSuffix := "_instFlux"
  const ErrSuffix := "Err"

  /** A flux field in the LSST convention: named "*_instFlux", not a Flag,
      not a slot alias. */
  predicate IsLsstFluxField(f: FieldInfo) {
    EndsWith(f.name, FluxSuffix) && f.typeName != "Flag" && !StartsWith(f.name, "slot")
  }

  /** An error-field name in the LSST convention: "*_instFluxErr" whose
      name without "Err" is a selected flux field. */
  predicate IsLsstErrName(name: string, flux: seq<string>) {
    EndsWith(name, FluxSuffix + ErrSuffix) && name[..|name| - |ErrSuffix|] in flux
  }

  /** The test the LSST branch applies to candidate error fields. */
  function ErrTest(flux: seq<string>): FieldInfo -> bool {
    (f: FieldInfo) => IsLsstErrName(f.name, flux)
  }

  /** The schema has a field of this name that satisfies `p`. */
  predicate HasField(schema: Schema, n: string, p: FieldInfo -> bool) {
    exists i :: 0 <= i < |schema| && schema[i].name == n && p(schema[i])
  }

  /** The names of the fields satisfying `p`, in schema order (the keys of
      a dict built from the fields). */
  function NamesWhere(schema: Schema, p: FieldInfo -> bool): (ns: seq<string>)
    ensures |ns| <= |schema|
    ensures forall n :: n in ns <==> HasField(schema, n, p)
    decreases |schema|
  {
    if |schema| == 0 then []
    else
      var init := schema[..|schema| - 1];
      var f := schema[|schema| - 1];
      HasFieldSnoc(schema, init, f, p);
      if p(f) then NamesWhere(init, p) + [f.name] else NamesWhere(init, p)
  }

  lemma HasFieldSnoc(schema: Schema, init: Schema, f: FieldInfo, p: FieldInfo -> bool)
    requires |schema| > 0 && init == schema[..|schema| - 1] && f == schema[|schema| - 1]
    ensures forall n :: HasField(schema, n, p) <==> HasField(init, n, p) || (n == f.name && p(f))
  {
    forall n | HasField(schema, n, p)
      ensures HasField(init, n, p) || (n == f.name && p(f))
    {
      var i :| 0 <= i < |schema| && schema[i].name == n && p(schema[i]);
      if i < |init| {
        assert init[i] == schema[i];
      }
    }
    forall n | HasField(init, n, p)
      ensures HasField(schema, n, p)
    {
      var i :| 0 <= i < |init| && init[i].name == n && p(init[i]);
      assert schema[i] == init[i];
    }
  }

  /** Names selected from a schema without repeated names are not repeated
      (the keys of a dict). */
  lemma {:induction false} NamesWhereNoDup(schema: Schema, p: FieldInfo -> bool)
    requires NoDup(Names(schema))
    ensures NoDup(NamesWhere(schema, p))
    decreases |schema|
  {
    if |schema| > 0 {
      var init := schema[..|schema| - 1];
      var f := schema[|schema| - 1];
      assert Names(init) == Names(schema)[..|schema| - 1];
      NamesWhereNoDup(init, p);
      forall i | 0 <= i < |init|
        ensures init[i].name != f.name
      {
        assert Names(schema)[i] == init[i].name && Names(schema)[|schema| - 1] == f.name;
      }
      assert !HasField(init, f.name, p);
    }
  }

  // ------------------------------------------------------------- HSC names

  /** `\w` on ASCII text. */
  predicate IsWordChar(c: char) {
    ('a' <= c <= 'z') || ('A' <= c <= 'Z') || ('0' <= c <= '9') || c == '_'
  }

  predicate AllWord(s: string) {
    forall i :: 0 <= i < |s| ==> IsWordChar(s[i])
  }

  /** Python's `$` also matches just before a final newline. */
  function DropFinalNewline(s: string): string {
    if |s| > 0 && s[|s| - 1] == '\n' then s[..|s| - 1] else s
  }

  /** re.search(r"^(flux\_\w+|\w+\_instFlux)$", name) */
  predicate MatchesHscFlux(name: string) {
    var m := DropFinalNewline(name);
    (StartsWith(m, "flux_") && |m| > 5 && AllWord(m[5..]))
    || (EndsWith(m, FluxSuffix) && |m| > |FluxSuffix| && AllWord(m[..|m| - |FluxSuffix|]))
  }

  /** re.search(r"^(\w+\_apcorr)$", name) */
  predicate MatchesHscApcorr(name: string) {
    var m := DropFinalNewline(name);
    EndsWith(m, "_apcorr") && |m| > 7 && AllWord(m[..|m| - 7])
  }

  const HscErrSuffix := "_err"

  predicate IsHscFluxName(name: string, names: seq<string>) {
    MatchesHscFlux(name) && !MatchesHscApcorr(name) && name + HscErrSuffix in names
  }

  /** The test the HSC branch applies to the schema's names. */
  function HscTest(names: seq<string>): string -> bool {
    (n: string) => IsHscFluxName(n, names)
  }

  function AppendAll(ns: seq<string>, suffix: string): (r: seq<string>)
    ensures |r| == |ns| && forall i :: 0 <= i < |ns| ==> r[i] == ns[i] + suffix
  {
    seq(|ns|, i requires 0 <= i < |ns| => ns[i] + suffix)
  }

  // ---------------------------------------------------------- getFluxKeys

  /** getFluxKeys(schema, hscRun). */
  function GetFluxKeys(schema: Schema, hscRun: bool): (r: Result<FluxKeySet, NoFluxKeys>)
    ensures r.Failure? <==> forall i :: 0 <= i < |schema| ==>
      if hscRun then !IsHscFluxName(schema[i].name, Names(schema)) else !IsLsstFluxField(schema[i])
    ensures r.Success? ==> |r.value.flux| > 0
    // LSST convention: exactly the "*_instFlux" fields that are neither
    // flags nor slots, and exactly the present F + "Err" for those F.
    ensures r.Success? && !hscRun ==>
      && (forall n :: n in r.value.flux <==> exists i :: 0 <= i < |schema| && schema[i].name == n && IsLsstFluxField(schema[i]))
      && (forall n :: n in r.value.err <==> n in Names(schema) && exists k :: 0 <= k < |r.value.flux| && n == r.value.flux[k] + ErrSuffix)
    // HSC convention: the names matching the flux pattern but not the
    // aperture-correction one that have an "_err" companion, and exactly
    // those companions.
    ensures r.Success? && hscRun ==>
      && (forall n :: n in r.value.flux <==> n in Names(schema) && IsHscFluxName(n, Names(schema)))
      && r.value.err == AppendAll(r.value.flux, HscErrSuffix)
  {
    var names := Names(schema);
    if !hscRun then
      var flux := NamesWhere(schema, IsLsstFluxField);
      var err := NamesWhere(schema, ErrTest(flux));
      assert forall i :: 0 <= i < |schema| && IsLsstFluxField(schema[i]) ==> HasField(schema, schema[i].name, IsLsstFluxField);
      LsstFluxSuffix(schema, flux);
      LsstErrNames(schema, flux, err);
      if |flux| == 0 then
        Failure(NoFluxKeys)
      else
        assert HasField(schema, flux[0], IsLsstFluxField);
        Success(FluxKeySet(flux, err))
    else
      var flux := Filter(names, HscTest(names));
      assert forall i :: 0 <= i < |schema| && IsHscFluxName(schema[i].name, names) ==> names[i] in flux;
      if |flux| == 0 then
        Failure(NoFluxKeys)
      else
        HscFluxNames(names, flux);
        Success(FluxKeySet(flux, AppendAll(flux, HscErrSuffix)))
  }

  lemma LsstFluxSuffix(schema: Schema, flux: seq<string>)
    requires flux == NamesWhere(schema, IsLsstFluxField)
    ensures forall k :: 0 <= k < |flux| ==> EndsWith(flux[k], FluxSuffix)
  {
    forall k | 0 <= k < |flux|
      ensures EndsWith(flux[k], FluxSuffix)
    {
      assert HasField(schema, flux[k], IsLsstFluxField);
    }
  }

  /** The error names the LSST branch selects are the present F + "Err". */
  lemma LsstErrNames(schema: Schema, flux: seq<string>, err: seq<string>)
    requires forall k :: 0 <= k < |flux| ==> EndsWith(flux[k], FluxSuffix)
    requires err == NamesWhere(schema, ErrTest(flux))
    ensures forall n :: n in err <==> n in Names(schema) && exists k :: 0 <= k < |flux| && n == flux[k] + ErrSuffix
  {
    var p := ErrTest(flux);
    forall n
      ensures n in err <==> n in Names(schema) && exists k :: 0 <= k < |flux| && n == flux[k] + ErrSuffix
    {
      LsstErrNameIff(n, flux);
      if n in err {
        var i :| 0 <= i < |schema| && schema[i].name == n && p(schema[i]);
        assert Names(schema)[i] == n;
      }
      if n in Names(schema) && IsLsstErrName(n, flux) {
        var i :| 0 <= i < |schema| && Names(schema)[i] == n;
        assert HasField(schema, n, p);
      }
    }
  }

  /** "*_instFluxErr" whose stem is a flux name is the same as flux name
      plus "Err", when every flux name ends in "_instFlux". */
  lemma LsstErrNameIff(n: string, flux: seq<string>)
    requires forall k :: 0 <= k < |flux| ==> EndsWith(flux[k], FluxSuffix)
    ensures IsLsstErrName(n, flux) <==> exists k :: 0 <= k < |flux| && n == flux[k] + ErrSuffix
  {
    if IsLsstErrName(n, flux) {
      var k :| 0 <= k < |flux| && flux[k] == n[..|n| - 3];
      assert n == n[..|n| - 3] + n[|n| - 3..];
    }
    if exists k :: 0 <= k < |flux| && n == flux[k] + ErrSuffix {
      var k :| 0 <= k < |flux| && n == flux[k] + ErrSuffix;
      assert n[..|n| - 3] == flux[k];
      assert n[|n| - 12..] == flux[k][|flux[k]| - 9..] + ErrSuffix;
    }
  }

  lemma HscFluxNames(names: seq<string>, flux: seq<string>)
    requires flux == Filter(names, HscTest(names))
    ensures forall n :: n in flux <==> n in names && IsHscFluxName(n, names)
  {
    forall n | n in names && IsHscFluxName(n, names)
      ensures n in flux
    {
      var i :| 0 <= i < |names| && names[i] == n;
    }
  }

  /** In the LSST convention no name is both a flux and an error field, so
      applyMosaicResultsCatalog scales each column at most once. */
  lemma LsstFluxAndErrDisjoint(schema: Schema)
    requires GetFluxKeys(schema, false).Success?
    ensures var keys := GetFluxKeys(schema, false).value;
      forall n :: n in keys.flux ==> n !in keys.err
  {
    var keys := GetFluxKeys(schema, false).value;
    forall n | n in keys.flux
      ensures n !in keys.err
    {
      var i :| 0 <= i < |schema| && schema[i].name == n && IsLsstFluxField(schema[i]);
      assert n[|n| - 1] == 'x';
      forall k | 0 <= k < |keys.flux|
        ensures n != keys.flux[k] + ErrSuffix
      {
        assert (keys.flux[k] + ErrSuffix)[|keys.flux[k]| + 2] == 'r';
      }
    }
  }

  // ---------------------------------------------- instFlux -> mag renaming

  /** Python's str.replace: every non-overlapping occurrence, left to
      right. */
  function Replace(s: string, pat: string, rep: string): string
    requires |pat| > 0
    decreases |s|
  {
    if |s| < |pat| then s
    else if s[..|pat|] == pat then rep + Replace(s[|pat|..], pat, rep)
    else [s[0]] + Replace(s[1..], pat, rep)
  }

  /** name.replace("instFlux", "mag") */
  function Rename(name: string): string {
    Replace(name, "instFlux", "mag")
  }

  /** Renaming distributes over a concatenation whose second part starts
      with a character that cannot begin or continue "instFlux". */
  lemma RenameAppend(a: string, b: string)
    requires |b| > 0 && b[0] !in "instFlux"
    ensures Rename(a + b) == Rename(a) + Rename(b)
  {
    ReplaceAppend(a, b, "instFlux", "mag");
  }

  /** Replacing distributes over a concatenation whose second part starts
      with a character not in the pattern: no occurrence straddles the
      seam. */
  lemma {:induction false} ReplaceAppend(a: string, b: string, pat: string, rep: string)
    requires |pat| > 0 && |b| > 0 && b[0] !in pat
    ensures Replace(a + b, pat, rep) == Replace(a, pat, rep) + Replace(b, pat, rep)
    decreases |a|
  {
    var s := a + b;
    if |a| == 0 {
      assert s == b;
    } else if |a| >= |pat| {
      SplitAppend(a, b, |pat|);
      SplitAppend(a, b, 1);
      if a[..|pat|] == pat {
        ReplaceAppend(a[|pat|..], b, pat, rep);
      } else {
        ReplaceAppend(a[1..], b, pat, rep);
      }
    } else {
      if |s| >= |pat| {
        StraddleMismatch(a, b, pat);
      }
      SplitAppend(a, b, 1);
      ReplaceAppend(a[1..], b, pat, rep);
      assert Replace(a, pat, rep) == a;
      assert Replace(a[1..], pat, rep) == a[1..];
      assert a == [a[0]] + a[1..];
    }
  }

  /** Cutting a concatenation inside its first part. */
  lemma SplitAppend(a: string, b: string, n: nat)
    requires n <= |a|
    ensures (a + b)[..n] == a[..n] && (a + b)[n..] == a[n..] + b
  {
  }

  /** A window of |pat| characters starting inside a shorter first part
      covers b[0], so it is not pat. */
  lemma StraddleMismatch(a: string, b: string, pat: string)
    requires |a| < |pat| <= |a + b| && |b| > 0 && b[0] !in pat
    ensures (a + b)[..|pat|] != pat
  {
    assert (a + b)[..|pat|][|a|] == b[0];
    assert pat[|a|] in pat;
  }

  /** The renamed error field of F is the renamed F with the error suffix:
      renaming F + "Err" (or F + "_err") directly gives the same name. */
  lemma RenameErrorName(f: string, errName: string)
    requires errName == ErrSuffix || errName == HscErrSuffix
    ensures Rename(f + errName) == Rename(f) + errName
  {
    RenameAppend(f, errName);
    assert Rename(errName) == errName;
  }

  /** An LSST flux field P + "_instFlux" becomes Rename(P) + "_mag". */
  lemma RenameFluxName(p: string)
    ensures Rename(p + FluxSuffix) == Rename(p) + "_mag"
  {
    RenameAppend(p, FluxSuffix);
    var s := FluxSuffix;
    assert s[1..][..8] == "instFlux";
    assert s[1..][8..] == [];
    assert Rename(s[1..]) == "mag";
  }

  // ------------------------------------------------------- applyCalib schema

  /** The fields mapped unchanged: every field that is not a flux field. */
  function PassThrough(schema: Schema, flux: seq<string>): (r: seq<OutField>)
    ensures |r| <= |schema|
    ensures forall o :: o in r ==> o.unit == InputUnit && o.name == o.source && o.source !in flux
    ensures forall i :: 0 <= i < |schema| && schema[i].name !in flux ==>
      OutField(schema[i].name, schema[i].name, InputUnit) in r
    ensures forall o :: o in r ==> o.source in Names(schema)
    decreases |schema|
  {
    if |schema| == 0 then []
    else
      var rest := PassThrough(schema[1..], flux);
      assert forall i :: 1 <= i < |schema| ==> schema[1..][i - 1] == schema[i];
      assert forall x :: x in Names(schema[1..]) ==> x in Names(schema);
      assert Names(schema)[0] == schema[0].name;
      var n := schema[0].name;
      if n in flux then rest else [OutField(n, n, InputUnit)] + rest
  }

  /** The magnitude fields added for one flux name: the renamed flux
      field, then the renamed error field when the error is present. */
  function OwnMagFields(f: string, err: seq<string>, errName: string): (r: seq<OutField>)
    requires errName == ErrSuffix || errName == HscErrSuffix
    ensures OutField(Rename(f), f, Mag) in r
    ensures f + errName in err ==> OutField(Rename(f + errName), f + errName, Mag) in r
    ensures forall o :: o in r ==> o.unit == Mag && o.name == Rename(o.source)
    ensures forall o :: o in r ==> o.source == f || (o.source in err && o.source == f + errName)
  {
    RenameErrorName(f, errName);
    [OutField(Rename(f), f, Mag)]
      + (if f + errName in err then [OutField(Rename(f) + errName, f + errName, Mag)] else [])
  }

  /** The magnitude fields added for the flux names, in order. */
  function MagFields(flux: seq<string>, err: seq<string>, errName: string): (r: seq<OutField>)
    requires errName == ErrSuffix || errName == HscErrSuffix
    ensures forall k :: 0 <= k < |flux| ==> OutField(Rename(flux[k]), flux[k], Mag) in r
    ensures forall k :: 0 <= k < |flux| && flux[k] + errName in err ==>
      OutField(Rename(flux[k] + errName), flux[k] + errName, Mag) in r
    ensures forall o :: o in r ==> o.unit == Mag && o.name == Rename(o.source)
    ensures forall o :: o in r ==> o.source in flux || (o.source in err && o.source in AppendAll(flux, errName))
    decreases |flux|, 1
  {
    if |flux| == 0 then []
    else
      var own := OwnMagFields(flux[0], err, errName);
      var rest := MagFields(flux[1..], err, errName);
      MagFieldsStep(flux, err, errName, own, rest);
      own + rest
  }

  /** The properties of MagFields carry over from the tail to the whole
      list, one lemma per property. */
  lemma MagFieldsStep(flux: seq<string>, err: seq<string>, errName: string, own: seq<OutField>, rest: seq<OutField>)
    requires errName == ErrSuffix || errName == HscErrSuffix
    requires |flux| > 0
    requires own == OwnMagFields(flux[0], err, errName)
    requires rest == MagFields(flux[1..], err, errName)
    ensures forall k :: 0 <= k < |flux| ==> OutField(Rename(flux[k]), flux[k], Mag) in own + rest
    ensures forall k :: 0 <= k < |flux| && flux[k] + errName in err ==>
      OutField(Rename(flux[k] + errName), flux[k] + errName, Mag) in own + rest
    ensures forall o :: o in own + rest ==> o.source in flux || (o.source in err && o.source in AppendAll(flux, errName))
    decreases |flux|, 0
  {
    FluxFieldsStep(flux, err, errName, own, rest);
    ErrFieldsStep(flux, err, errName, own, rest);
    SourcesStep(flux, err, errName, own, rest);
  }

  lemma FluxFieldsStep(flux: seq<string>, err: seq<string>, errName: string, own: seq<OutField>, rest: seq<OutField>)
    requires |flux| > 0
    requires OutField(Rename(flux[0]), flux[0], Mag) in own
    requires forall k :: 0 <= k < |flux[1..]| ==> OutField(Rename(flux[1..][k]), flux[1..][k], Mag) in rest
    ensures forall k :: 0 <= k < |flux| ==> OutField(Rename(flux[k]), flux[k], Mag) in own + rest
  {
    forall k | 0 < k < |flux|
      ensures OutField(Rename(flux[k]), flux[k], Mag) in rest
    {
      assert flux[k] == flux[1..][k - 1];
    }
  }

  lemma ErrFieldsStep(flux: seq<string>, err: seq<string>, errName: string, own: seq<OutField>, rest: seq<OutField>)
    requires |flux| > 0
    requires flux[0] + errName in err ==> OutField(Rename(flux[0] + errName), flux[0] + errName, Mag) in own
    requires forall k :: 0 <= k < |flux[1..]| && flux[1..][k] + errName in err ==>
      OutField(Rename(flux[1..][k] + errName), flux[1..][k] + errName, Mag) in rest
    ensures forall k :: 0 <= k < |flux| && flux[k] + errName in err ==>
      OutField(Rename(flux[k] + errName), flux[k] + errName, Mag) in own + rest
  {
    forall k | 0 < k < |flux| && flux[k] + errName in err
      ensures OutField(Rename(flux[k] + errName), flux[k] + errName, Mag) in rest
    {
      assert flux[k] == flux[1..][k - 1];
    }
  }

  lemma SourcesStep(flux: seq<string>, err: seq<string>, errName: string, own: seq<OutField>, rest: seq<OutField>)
    requires |flux| > 0
    requires forall o :: o in own ==> o.source == flux[0] || (o.source in err && o.source == flux[0] + errName)
    requires forall o :: o in rest ==> o.source in flux[1..] || (o.source in err && o.source in AppendAll(flux[1..], errName))
    ensures forall o :: o in own + rest ==> o.source in flux || (o.source in err && o.source in AppendAll(flux, errName))
  {
    assert forall x :: x in flux[1..] ==> x in flux;
    forall o | o in rest && o.source !in flux
      ensures o.source in AppendAll(flux, errName)
    {
      var k :| 0 <= k < |flux| - 1 && o.source == AppendAll(flux[1..], errName)[k];
      assert o.source == AppendAll(flux, errName)[k + 1];
    }
    assert flux[0] + errName == AppendAll(flux, errName)[0];
  }

  /** The alias settings of applyCalib, in order: each flux name and its
      error name (present or not) sent to the new names. */
  function AliasSets(flux: seq<string>, errName: string): (r: seq<(string, string)>)
    ensures |r| == 2 * |flux|
    ensures forall k :: 0 <= k < |flux| ==>
      (r[2 * k] == (flux[k], Rename(flux[k])) && r[2 * k + 1] == (flux[k] + errName, Rename(flux[k]) + errName))
    decreases |flux|
  {
    if |flux| == 0 then []
    else
      var rest := AliasSets(flux[1..], errName);
      assert forall k :: 1 <= k < |flux| ==> flux[1..][k - 1] == flux[k];
      [(flux[0], Rename(flux[0])), (flux[0] + errName, Rename(flux[0]) + errName)] + rest
  }

  /** The alias map after a sequence of settings: the last setting of a
      name wins. */
  function AliasLookup(sets: seq<(string, string)>, name: string): Option<string>
    decreases |sets|
  {
    if |sets| == 0 then None
    else if sets[|sets| - 1].0 == name then Some(sets[|sets| - 1].1)
    else AliasLookup(sets[..|sets| - 1], name)
  }

  /** Whether applyCalib gives input field s a magnitude field: s is a flux
      key, or the selected error field of one. */
  predicate MapsToMag(keys: FluxKeySet, errName: string, s: string) {
    s in keys.flux || (s in keys.err && s in AppendAll(keys.flux, errName))
  }

  /** The output schema, by input field, and the alias settings. */
  datatype CalibSchema = CalibSchema(fields: Output, aliases: seq<(string, string)>)

  /** The addMapping calls of applyCalib, in order, on one mapper: the loop
      over the schema, then the loop over the flux keys. An error field is
      not a flux key, so it is mapped twice: passed through, then as a
      magnitude field. */
  function CalibMappings(schema: Schema, keys: FluxKeySet, errName: string): seq<OutField>
    requires errName == ErrSuffix || errName == HscErrSuffix
  {
    PassThrough(schema, keys.flux) + MagFields(keys.flux, keys.err, errName)
  }

  /** The output schema and alias map for selected flux and error names, or
      the name the mapper refuses. */
  function CalibSchemaOf(schema: Schema, keys: FluxKeySet, errName: string): (r: Result<CalibSchema, MapError>)
    requires errName == ErrSuffix || errName == HscErrSuffix
    // one field per input field, no two with the same name
    ensures r.Success? ==> ValidOutput(r.value.fields)
    // the inputs with a field: the fields that are not flux fields, and
    // the flux fields and their selected error fields
    ensures r.Success? ==> forall s :: s in r.value.fields <==>
      (s in Names(schema) && s !in keys.flux) || MapsToMag(keys, errName, s)
    // those are magnitude fields named by the renaming, the second mapping
    // of an error field replacing its pass-through
    ensures r.Success? ==> forall s :: s in r.value.fields && MapsToMag(keys, errName, s) ==>
      r.value.fields[s] == OutField(Rename(s), s, Mag)
    // every other field is kept under its name and unit
    ensures r.Success? ==> forall s :: s in r.value.fields && !MapsToMag(keys, errName, s) ==>
      r.value.fields[s] == OutField(s, s, InputUnit)
    // the mapper refuses only a name asked for two different inputs
    ensures r.Failure? ==> exists a, b ::
      a in CalibMappings(schema, keys, errName) && b in CalibMappings(schema, keys, errName)
      && a.name == r.error.name && b.name == r.error.name && a.source != b.source
    // every alias sends a name to its renaming, and every flux name and
    // error name is aliased
    ensures r.Success? ==> AllRenamed(r.value.aliases)
    ensures r.Success? ==> forall k :: 0 <= k < |keys.flux| ==>
      AliasLookup(r.value.aliases, keys.flux[k]) == Some(Rename(keys.flux[k]))
    ensures r.Success? ==> forall k :: 0 <= k < |keys.flux| ==>
      AliasLookup(r.value.aliases, keys.flux[k] + errName) == Some(Rename(keys.flux[k] + errName))
  {
    var fs := CalibMappings(schema, keys, errName);
    match MapAll(map[], fs)
    case Failure(e) =>
      CalibRefusal(fs, e);
      Failure(e)
    case Success(out) =>
      CalibFields(schema, keys, errName, out);
      AliasesRename(keys.flux, errName);
      AliasLookupAll(keys.flux, errName);
      Success(CalibSchema(out, AliasSets(keys.flux, errName)))
  }

  /** A refusal of the mapper, starting empty, names two of the mappings. */
  lemma CalibRefusal(fs: seq<OutField>, e: MapError)
    requires MapAll(map[], fs) == Failure(e)
    ensures exists a, b :: a in fs && b in fs && a.name == e.name && b.name == e.name && a.source != b.source
  {
    var a, b :| Holds(map[], fs, a) && b in fs && a.name == e.name && b.name == e.name && a.source != b.source;
    assert a in fs;
  }

  /** The output of the mapper, starting empty, holds the field applyCalib
      means for every input, and only those. */
  lemma CalibFields(schema: Schema, keys: FluxKeySet, errName: string, out: Output)
    requires errName == ErrSuffix || errName == HscErrSuffix
    requires MapAll(map[], CalibMappings(schema, keys, errName)) == Success(out)
    ensures ValidOutput(out)
    ensures forall s :: s in out <==> (s in Names(schema) && s !in keys.flux) || MapsToMag(keys, errName, s)
    ensures forall s :: s in out && MapsToMag(keys, errName, s) ==> out[s] == OutField(Rename(s), s, Mag)
    ensures forall s :: s in out && !MapsToMag(keys, errName, s) ==> out[s] == OutField(s, s, InputUnit)
  {
    var fs := CalibMappings(schema, keys, errName);
    forall s ensures LastFor(fs, s) == CalibField(keys, errName, s, Names(schema)) {
      CalibLast(schema, keys, errName, s);
    }
  }

  /** The field applyCalib means input s to end with, if any. */
  function CalibField(keys: FluxKeySet, errName: string, s: string, names: seq<string>): Option<OutField> {
    if MapsToMag(keys, errName, s) then Some(OutField(Rename(s), s, Mag))
    else if s in names && s !in keys.flux then Some(OutField(s, s, InputUnit))
    else None
  }

  /** The last mapping of each input is the one applyCalib means. */
  lemma CalibLast(schema: Schema, keys: FluxKeySet, errName: string, s: string)
    requires errName == ErrSuffix || errName == HscErrSuffix
    ensures LastFor(CalibMappings(schema, keys, errName), s) == CalibField(keys, errName, s, Names(schema))
  {
    var pass, mags := PassThrough(schema, keys.flux), MagFields(keys.flux, keys.err, errName);
    LastForAppend(pass, mags, s);
    if MapsToMag(keys, errName, s) {
      if s in keys.flux {
        var k :| 0 <= k < |keys.flux| && keys.flux[k] == s;
        assert OutField(Rename(s), s, Mag) in mags;
      } else {
        var k :| 0 <= k < |keys.flux| && AppendAll(keys.flux, errName)[k] == s;
        assert OutField(Rename(keys.flux[k] + errName), keys.flux[k] + errName, Mag) in mags;
      }
      assert LastFor(mags, s).Some?;
    } else {
      assert LastFor(mags, s).None? by {
        forall i | 0 <= i < |mags| ensures mags[i].source != s {
          assert mags[i] in mags;
        }
      }
      if s in Names(schema) && s !in keys.flux {
        var i :| 0 <= i < |schema| && Names(schema)[i] == s;
        assert OutField(s, s, InputUnit) in pass;
        assert LastFor(pass, s).Some?;
      } else {
        assert LastFor(pass, s).None? by {
          forall i | 0 <= i < |pass| ensures pass[i].source != s {
            assert pass[i] in pass;
          }
        }
      }
    }
  }

  /** When no name is asked for two different inputs, the mapper refuses
      nothing. */
  lemma CalibSchemaSucceeds(schema: Schema, keys: FluxKeySet, errName: string)
    requires errName == ErrSuffix || errName == HscErrSuffix
    requires var fs := CalibMappings(schema, keys, errName);
      forall i, j :: 0 <= i < |fs| && 0 <= j < |fs| && fs[i].name == fs[j].name ==> fs[i].source == fs[j].source
    ensures CalibSchemaOf(schema, keys, errName).Success?
  {
    var fs := CalibMappings(schema, keys, errName);
    forall a, b | Holds(map[], fs, a) && Holds(map[], fs, b) && a.name == b.name
      ensures a.source == b.source
    {
      var i :| 0 <= i < |fs| && fs[i] == a;
      var j :| 0 <= j < |fs| && fs[j] == b;
    }
    MapAllSucceeds(map[], fs);
  }

  /** An HSC error field is passed through first and then mapped as a
      magnitude field: the second mapping replaces the first, so the output
      has one field per input and no name twice. */
  lemma HscErrorFieldRemapped(schema: Schema, keys: FluxKeySet)
    requires schema == [FieldInfo("a", "D", false), FieldInfo("a_err", "D", false)]
    requires keys == FluxKeySet(["a"], ["a_err"])
    ensures CalibSchemaOf(schema, keys, HscErrSuffix).Success?
    ensures CalibSchemaOf(schema, keys, HscErrSuffix).value.fields
      == map["a" := OutField("a", "a", Mag), "a_err" := OutField("a_err", "a_err", Mag)]
  {
    HscSucceeds(schema, keys);
    var fields := CalibSchemaOf(schema, keys, HscErrSuffix).value.fields;
    HscInputs(schema, keys, fields);
    HscFluxField(schema, keys, fields);
    HscErrField(schema, keys, fields);
    TwoEntries(fields, "a", OutField("a", "a", Mag), "a_err", OutField("a_err", "a_err", Mag));
  }

  /** No name of that schema's mappings is asked for two inputs. */
  lemma HscSucceeds(schema: Schema, keys: FluxKeySet)
    requires schema == [FieldInfo("a", "D", false), FieldInfo("a_err", "D", false)]
    requires keys == FluxKeySet(["a"], ["a_err"])
    ensures CalibSchemaOf(schema, keys, HscErrSuffix).Success?
  {
    HscMappings();
    var fs := CalibMappings(schema, keys, HscErrSuffix);
    assert forall i, j :: 0 <= i < |fs| && 0 <= j < |fs| && fs[i].name == fs[j].name ==> fs[i].source == fs[j].source;
    CalibSchemaSucceeds(schema, keys, HscErrSuffix);
  }

  /** The inputs with a field in that output. */
  lemma HscInputs(schema: Schema, keys: FluxKeySet, fields: Output)
    requires schema == [FieldInfo("a", "D", false), FieldInfo("a_err", "D", false)]
    requires keys == FluxKeySet(["a"], ["a_err"])
    requires CalibSchemaOf(schema, keys, HscErrSuffix).Success?
    requires fields == CalibSchemaOf(schema, keys, HscErrSuffix).value.fields
    ensures forall s :: s in fields ==> s == "a" || s == "a_err"
  {
    forall s | s in fields ensures s == "a" || s == "a_err" {
      assert s in Names(schema) || s in keys.flux || s in keys.err;
    }
  }

  /** The flux field of that output is a magnitude field. */
  lemma HscFluxField(schema: Schema, keys: FluxKeySet, fields: Output)
    requires schema == [FieldInfo("a", "D", false), FieldInfo("a_err", "D", false)]
    requires keys == FluxKeySet(["a"], ["a_err"])
    requires CalibSchemaOf(schema, keys, HscErrSuffix).Success?
    requires fields == CalibSchemaOf(schema, keys, HscErrSuffix).value.fields
    ensures "a" in fields && fields["a"] == OutField("a", "a", Mag)
  {
    assert MapsToMag(keys, HscErrSuffix, "a");
  }

  /** The error field of that output is a magnitude field too. */
  lemma HscErrField(schema: Schema, keys: FluxKeySet, fields: Output)
    requires schema == [FieldInfo("a", "D", false), FieldInfo("a_err", "D", false)]
    requires keys == FluxKeySet(["a"], ["a_err"])
    requires CalibSchemaOf(schema, keys, HscErrSuffix).Success?
    requires fields == CalibSchemaOf(schema, keys, HscErrSuffix).value.fields
    ensures "a_err" in fields && fields["a_err"] == OutField("a_err", "a_err", Mag)
  {
    HscErrMaps(keys);
    var r := CalibSchemaOf(schema, keys, HscErrSuffix);
    assert "a_err" in r.value.fields;
    assert r.value.fields["a_err"] == OutField(Rename("a_err"), "a_err", Mag);
  }

  /** The error name of "a" is selected and keeps its name. */
  lemma HscErrMaps(keys: FluxKeySet)
    requires keys == FluxKeySet(["a"], ["a_err"])
    ensures MapsToMag(keys, HscErrSuffix, "a_err") && Rename("a_err") == "a_err"
  {
    assert AppendAll(keys.flux, HscErrSuffix)[0] == "a_err";
  }

  /** A map is determined by its keys and their values. */
  lemma TwoEntries<V>(m: map<string, V>, k1: string, v1: V, k2: string, v2: V)
    requires forall s :: s in m ==> s == k1 || s == k2
    requires k1 in m && m[k1] == v1 && k2 in m && m[k2] == v2
    ensures m == map[k1 := v1, k2 := v2]
  {
  }

  /** The mappings of that schema: the error field passed through, then
      the flux field and the error field as magnitude fields. */
  lemma HscMappings()
    ensures var schema := [FieldInfo("a", "D", false), FieldInfo("a_err", "D", false)];
      CalibMappings(schema, FluxKeySet(["a"], ["a_err"]), HscErrSuffix)
        == [OutField("a_err", "a_err", InputUnit), OutField("a", "a", Mag), OutField("a_err", "a_err", Mag)]
  {
    var schema := [FieldInfo("a", "D", false), FieldInfo("a_err", "D", false)];
    HscPassThrough(schema, ["a"]);
    HscMagFields(["a"], ["a_err"]);
  }

  lemma HscPassThrough(schema: Schema, flux: seq<string>)
    requires schema == [FieldInfo("a", "D", false), FieldInfo("a_err", "D", false)]
    requires flux == ["a"]
    ensures PassThrough(schema, flux) == [OutField("a_err", "a_err", InputUnit)]
  {
    assert schema[1..][1..] == [];
    assert PassThrough(schema[1..], flux) == [OutField("a_err", "a_err", InputUnit)];
  }

  lemma HscMagFields(flux: seq<string>, err: seq<string>)
    requires flux == ["a"] && err == ["a_err"]
    ensures MagFields(flux, err, HscErrSuffix) == [OutField("a", "a", Mag), OutField("a_err", "a_err", Mag)]
  {
    HscNames("a", "a_err");
    assert flux[1..] == [];
  }

  /** The names of that schema: the error name is the flux name with the
      HSC suffix, and the renaming leaves both alone. */
  lemma HscNames(f: string, e: string)
    requires f == "a" && e == "a_err"
    ensures f + HscErrSuffix == e
    ensures Rename(f) == f && Rename(e) == e
  {
    assert Rename(f) == f;
    assert Rename(e) == e;
  }

  /** A field already named like the renaming of a flux key is refused:
      "a_instFlux" becomes "a_mag", which the passed-through "a_mag" holds. */
  lemma RenamedNameClashes()
    ensures var schema := [FieldInfo("a_mag", "D", false), FieldInfo("a_instFlux", "D", false)];
      CalibSchemaOf(schema, FluxKeySet(["a_instFlux"], []), ErrSuffix) == Failure(NameClash("a_mag"))
  {
    var pass, mag := OutField("a_mag", "a_mag", InputUnit), OutField("a_mag", "a_instFlux", Mag);
    ClashingMappings();
    var first := map["a_mag" := pass];
    assert AddMapping(map[], pass) == Success(first);
    assert Clashes(first, mag) by {
      assert first["a_mag"].name == mag.name;
    }
    assert MapAll(first, [mag]) == Failure(NameClash("a_mag"));
    assert [pass, mag][1..] == [mag];
  }

  /** The mappings of that schema: "a_mag" passed through, then the
      magnitude field of "a_instFlux" under the same name. */
  lemma ClashingMappings()
    ensures var schema := [FieldInfo("a_mag", "D", false), FieldInfo("a_instFlux", "D", false)];
      CalibMappings(schema, FluxKeySet(["a_instFlux"], []), ErrSuffix)
        == [OutField("a_mag", "a_mag", InputUnit), OutField("a_mag", "a_instFlux", Mag)]
  {
    var schema := [FieldInfo("a_mag", "D", false), FieldInfo("a_instFlux", "D", false)];
    ClashPassThrough(schema, ["a_instFlux"]);
    ClashMagFields(["a_instFlux"]);
  }

  lemma ClashPassThrough(schema: Schema, flux: seq<string>)
    requires schema == [FieldInfo("a_mag", "D", false), FieldInfo("a_instFlux", "D", false)]
    requires flux == ["a_instFlux"]
    ensures PassThrough(schema, flux) == [OutField("a_mag", "a_mag", InputUnit)]
  {
    assert schema[1..][1..] == [];
    assert PassThrough(schema[1..], flux) == [];
  }

  lemma ClashMagFields(flux: seq<string>)
    requires flux == ["a_instFlux"]
    ensures MagFields(flux, [], ErrSuffix) == [OutField("a_mag", "a_instFlux", Mag)]
  {
    ClashNames("a", "a_instFlux", "a_mag");
    assert flux[1..] == [];
    assert OwnMagFields(flux[0], [], ErrSuffix) == [OutField(Rename(flux[0]), flux[0], Mag)];
  }

  /** "a_instFlux" is the flux name of "a" and renames to "a_mag". */
  lemma ClashNames(p: string, f: string, m: string)
    requires p == "a" && f == "a_instFlux" && m == "a_mag"
    ensures p + FluxSuffix == f && Rename(f) == m
  {
    RenameFluxName(p);
    assert Rename(p) == p;
  }

  /** An error of the schema side of applyCalib: getFluxKeys finds no flux
      key, or the mapper refuses a name. */
  datatype CalibError = NoCalibKeys | Refused(e: MapError)

  /** The schema side of applyCalib. */
  function ApplyCalibSchema(schema: Schema, hscRun: bool): (r: Result<CalibSchema, CalibError>)
    ensures r == Failure(NoCalibKeys) <==> GetFluxKeys(schema, hscRun).Failure?
    ensures r.Failure? && r.error.Refused? ==> var keys := GetFluxKeys(schema, hscRun).value;
      exists a, b ::
        a in CalibMappings(schema, keys, if hscRun then HscErrSuffix else ErrSuffix)
        && b in CalibMappings(schema, keys, if hscRun then HscErrSuffix else ErrSuffix)
        && a.name == r.error.e.name && b.name == r.error.e.name && a.source != b.source
    // one field per input, names unique, and every flux key becomes a
    // magnitude field named by the renaming
    ensures r.Success? ==> ValidOutput(r.value.fields)
    ensures r.Success? ==> forall s :: s in GetFluxKeys(schema, hscRun).value.flux ==>
      s in r.value.fields && r.value.fields[s] == OutField(Rename(s), s, Mag)
    ensures r.Success? ==> CalibSchemaOf(schema, GetFluxKeys(schema, hscRun).value, if hscRun then HscErrSuffix else ErrSuffix) == Success(r.value)
  {
    match GetFluxKeys(schema, hscRun)
    case Failure(_) => Failure(NoCalibKeys)
    case Success(keys) =>
      match CalibSchemaOf(schema, keys, if hscRun then HscErrSuffix else ErrSuffix)
      case Failure(e) => Failure(Refused(e))
      case Success(c) => Success(c)
  }

  /** Every flux name and error name reaches its renaming in the alias map. */
  lemma AliasLookupAll(flux: seq<string>, errName: string)
    requires errName == ErrSuffix || errName == HscErrSuffix
    ensures forall k :: 0 <= k < |flux| ==> AliasLookup(AliasSets(flux, errName), flux[k]) == Some(Rename(flux[k]))
    ensures forall k :: 0 <= k < |flux| ==>
      AliasLookup(AliasSets(flux, errName), flux[k] + errName) == Some(Rename(flux[k] + errName))
  {
    var sets := AliasSets(flux, errName);
    AliasesRename(flux, errName);
    forall k | 0 <= k < |flux|
      ensures AliasLookup(sets, flux[k]) == Some(Rename(flux[k]))
      ensures AliasLookup(sets, flux[k] + errName) == Some(Rename(flux[k] + errName))
    {
      assert sets[2 * k].0 == flux[k] && sets[2 * k + 1].0 == flux[k] + errName;
      AliasLookupRenames(sets, flux[k], 2 * k);
      AliasLookupRenames(sets, flux[k] + errName, 2 * k + 1);
    }
  }

  /** Every setting maps a name to its renaming. */
  predicate AllRenamed(sets: seq<(string, string)>) {
    forall j :: 0 <= j < |sets| ==> sets[j].1 == Rename(sets[j].0)
  }

  /** Each alias setting of applyCalib maps a name to its renaming. */
  lemma AliasesRename(flux: seq<string>, errName: string)
    requires errName == ErrSuffix || errName == HscErrSuffix
    ensures AllRenamed(AliasSets(flux, errName))
  {
    var sets := AliasSets(flux, errName);
    forall j | 0 <= j < |sets|
      ensures sets[j].1 == Rename(sets[j].0)
    {
      var k := j / 2;
      if j % 2 == 1 {
        assert j == 2 * k + 1;
        RenameErrorName(flux[k], errName);
      } else {
        assert j == 2 * k;
      }
    }
  }

  /** When every setting maps a name to its renaming, the alias map sends
      every name that was set to its renaming, whatever the order. */
  lemma {:induction false} AliasLookupRenames(sets: seq<(string, string)>, name: string, j: int)
    requires AllRenamed(sets)
    requires 0 <= j < |sets| && sets[j].0 == name
    ensures AliasLookup(sets, name) == Some(Rename(name))
    decreases |sets|
  {
    if sets[|sets| - 1].0 != name {
      AliasLookupRenames(sets[..|sets| - 1], name, j);
    }
  }
}
