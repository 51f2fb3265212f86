/** The part of afw's SchemaMapper that applyCalib relies on. Each input
    field is mapped to at most one output field. Mapping an input field a
    second time replaces its output field (the output key is reused). A
    name that the output field of another input already holds is refused.
    Input fields are identified by their names, which afw keeps unique
    within a schema; the order of the output fields is not modelled. */
module SchemaMapper {
  import opened Common

  /** The output unit of a field: copied from the input or "mag". */
  datatype Unit = InputUnit | Mag

  /** A field of the output schema and the input field it is mapped from. */
  datatype OutField = OutField(name: string, source: string, unit: Unit)

  /** InvalidParameterError: a field of this name is already present with
      a different key. */
  datatype MapError = NameClash(name: string)

  /** The output schema being built, by input field. */
  type Output = map<string, OutField>

  /** Each output field is filed under its input, and no two output fields
      have the same name. */
  predicate ValidOutput(out: Output) {
    && (forall s :: s in out ==> out[s].source == s)
    && (forall s, t :: s in out && t in out && out[s].name == out[t].name ==> s == t)
  }

  /** Whether f's name is held by the output field of another input. */
  predicate Clashes(out: Output, f: OutField) {
    exists s :: s in out && out[s].name == f.name && s != f.source
  }

  /** addMapping of one field: refused when the output field of another
      input has its name; otherwise f becomes the field of its input, and
      the other inputs keep theirs. */
  function AddMapping(out: Output, f: OutField): (r: Result<Output, MapError>)
    requires ValidOutput(out)
    ensures r.Failure? <==> exists s :: s in out && out[s].name == f.name && out[s].source != f.source
    ensures r.Failure? ==> r.error == NameClash(f.name)
    ensures r.Success? ==> ValidOutput(r.value)
    ensures r.Success? ==> f.source in r.value && r.value[f.source] == f
    ensures r.Success? ==> forall s :: s != f.source ==> (s in r.value <==> s in out) && (s in out ==> r.value[s] == out[s])
  {
    if Clashes(out, f) then Failure(NameClash(f.name))
    else Success(out[f.source := f])
  }

  /** The last field of fs given for input s, if any. */
  function LastFor(fs: seq<OutField>, s: string): (r: Option<OutField>)
    ensures r.Some? ==> r.value in fs && r.value.source == s
    ensures r.None? <==> forall i :: 0 <= i < |fs| ==> fs[i].source != s
    decreases |fs|
  {
    if |fs| == 0 then None
    else
      match LastFor(fs[1..], s)
      case Some(o) => Some(o)
      case None =>
        assert forall i :: 1 <= i < |fs| ==> fs[i] == fs[1..][i - 1];
        if fs[0].source == s then Some(fs[0]) else None
  }

  /** The last field for s of a concatenation comes from the second part
      when that names s at all. */
  lemma {:induction false} LastForAppend(a: seq<OutField>, b: seq<OutField>, s: string)
    ensures LastFor(a + b, s) == if LastFor(b, s).Some? then LastFor(b, s) else LastFor(a, s)
    decreases |a|
  {
    if |a| > 0 {
      assert (a + b)[1..] == a[1..] + b;
      LastForAppend(a[1..], b, s);
    } else {
      assert a + b == b;
    }
  }

  /** A field the mapping can see: the current field of its input, or one
      still to be mapped. */
  predicate Holds(out: Output, fs: seq<OutField>, o: OutField) {
    (o.source in out && out[o.source] == o) || o in fs
  }

  /** The fields of fs mapped in order; the first refused name stops the
      mapping. */
  function MapAll(out: Output, fs: seq<OutField>): (r: Result<Output, MapError>)
    requires ValidOutput(out)
    ensures r.Success? ==> ValidOutput(r.value)
    // the inputs mapped before and those given now have a field
    ensures r.Success? ==> forall s :: s in r.value <==> s in out || LastFor(fs, s).Some?
    // and it is the last one given, or the one from before
    ensures r.Success? ==> forall s :: s in r.value ==>
      r.value[s] == if LastFor(fs, s).Some? then LastFor(fs, s).value else out[s]
    // a refusal names a name held by two different inputs
    ensures r.Failure? ==> exists a, b :: Holds(out, fs, a) && b in fs && a.name == r.error.name && b.name == r.error.name && a.source != b.source
    decreases |fs|
  {
    if |fs| == 0 then Success(out)
    else
      var f := fs[0];
      match AddMapping(out, f)
      case Failure(e) =>
        var s :| s in out && out[s].name == f.name && out[s].source != f.source;
        assert Holds(out, fs, out[s]) && f in fs;
        Failure(e)
      case Success(next) =>
        var rest := MapAll(next, fs[1..]);
        MapAllStep(out, fs, next, rest);
        rest
  }

  /** The properties of MapAll carry over from the rest of the fields to all
      of them. */
  lemma MapAllStep(out: Output, fs: seq<OutField>, next: Output, rest: Result<Output, MapError>)
    requires ValidOutput(out) && |fs| > 0
    requires AddMapping(out, fs[0]) == Success(next)
    requires ValidOutput(next) && rest == MapAll(next, fs[1..])
    ensures rest.Success? ==> forall s :: s in rest.value <==> s in out || LastFor(fs, s).Some?
    ensures rest.Success? ==> forall s :: s in rest.value ==>
      rest.value[s] == if LastFor(fs, s).Some? then LastFor(fs, s).value else out[s]
    ensures rest.Failure? ==> exists a, b :: Holds(out, fs, a) && b in fs && a.name == rest.error.name && b.name == rest.error.name && a.source != b.source
    decreases |fs|, 0
  {
    if rest.Success? {
      StepFields(out, fs, next, rest.value);
    } else {
      StepRefusal(out, fs, next, rest.error.name);
    }
  }

  /** The fields after the rest of fs: those of out and fs alike. */
  lemma StepFields(out: Output, fs: seq<OutField>, next: Output, last: Output)
    requires ValidOutput(out) && |fs| > 0
    requires AddMapping(out, fs[0]) == Success(next)
    requires forall s :: s in last <==> s in next || LastFor(fs[1..], s).Some?
    requires forall s :: s in last ==>
      last[s] == if LastFor(fs[1..], s).Some? then LastFor(fs[1..], s).value else next[s]
    ensures forall s :: s in last <==> s in out || LastFor(fs, s).Some?
    ensures forall s :: s in last ==>
      last[s] == if LastFor(fs, s).Some? then LastFor(fs, s).value else out[s]
  {
    var f, tail := fs[0], fs[1..];
    assert fs == [f] + tail;
    forall s
      ensures s in last <==> s in out || LastFor(fs, s).Some?
      ensures s in last ==> last[s] == if LastFor(fs, s).Some? then LastFor(fs, s).value else out[s]
    {
      LastForAppend([f], tail, s);
      assert LastFor([f], s) == if f.source == s then Some(f) else None;
    }
  }

  /** A clash the rest of fs runs into is one between fields of out and fs. */
  lemma StepRefusal(out: Output, fs: seq<OutField>, next: Output, name: string)
    requires ValidOutput(out) && |fs| > 0
    requires AddMapping(out, fs[0]) == Success(next)
    requires exists a, b :: Holds(next, fs[1..], a) && b in fs[1..] && a.name == name && b.name == name && a.source != b.source
    ensures exists a, b :: Holds(out, fs, a) && b in fs && a.name == name && b.name == name && a.source != b.source
  {
    var a, b :| Holds(next, fs[1..], a) && b in fs[1..] && a.name == name && b.name == name && a.source != b.source;
    assert Holds(out, fs, a) && b in fs;
  }

  /** When no two fields the mapping can see share a name across inputs, no
      mapping is refused. */
  lemma {:induction false} MapAllSucceeds(out: Output, fs: seq<OutField>)
    requires ValidOutput(out)
    requires forall a, b :: Holds(out, fs, a) && Holds(out, fs, b) && a.name == b.name ==> a.source == b.source
    ensures MapAll(out, fs).Success?
    decreases |fs|
  {
    if |fs| > 0 {
      var f := fs[0];
      assert Holds(out, fs, f);
      assert !Clashes(out, f) by {
        forall s | s in out ensures !(out[s].name == f.name && s != f.source) {
          assert Holds(out, fs, out[s]);
        }
      }
      var next := AddMapping(out, f).value;
      forall a | Holds(next, fs[1..], a) ensures Holds(out, fs, a) {
        if a !in fs[1..] && a.source != f.source {
          assert out[a.source] == a;
        }
      }
      MapAllSucceeds(next, fs[1..]);
    }
  }
}
