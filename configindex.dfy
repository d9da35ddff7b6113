/**
 * What GenerateModelLists builds from the STATIC definitions, as a function:
 * the model list (model URL -> config URL), the registry keys in insertion
 * order, the placements loaded per model URL, and the exception, if any,
 * that stopped the load.
 */
module ConfigIndex {
  import opened Outcomes
  import opened ConfigTree
  import opened Records
  import opened PathStrings

  /** GameDatabase's UrlConfig: a STATIC node and the URL it was loaded from. */
  datatype UrlConfig = UrlConfig(url: string, config: ConfigNode)

  datatype Index = Index(
    models: map<string, string>,
    order: seq<string>,
    records: map<string, seq<Placement>>,
    fault: Option<Fault>)

  const EmptyIndex := Index(map[], [], map[], None)

  /** The shape every index reached from EmptyIndex keeps. */
  ghost predicate WellFormed(idx: Index)
  {
    && (forall i, j :: 0 <= i < j < |idx.order| ==> idx.order[i] != idx.order[j])
    && (forall k :: k in idx.records <==> k in idx.order)
    && idx.records.Keys <= idx.models.Keys
    && (forall k :: k in idx.records ==> idx.records[k] != [])
  }

  /** The list loaded so far for `m`; an absent key reads as empty. */
  function Loaded(idx: Index, m: string): seq<Placement>
  {
    if m in idx.records then idx.records[m] else []
  }

  /** Append one placement to the list for `m`, creating the list if absent. */
  function Append(idx: Index, m: string, p: Placement): (r: Index)
    ensures r.records == idx.records[m := Loaded(idx, m) + [p]]
    ensures r.models == idx.models && r.fault == idx.fault
    ensures r.order == if m in idx.records then idx.order else idx.order + [m]
  {
    if m in idx.records then idx.(records := idx.records[m := idx.records[m] + [p]])
    else
      assert Loaded(idx, m) + [p] == [p];
      idx.(records := idx.records[m := [p]], order := idx.order + [m])
  }

  /** The `Instances` records of one definition, appended one by one until one fails to parse. */
  function AddRecords(idx: Index, m: string, recs: seq<ConfigNode>, codec: Codec): (r: Index)
    requires idx.fault.None?
    ensures r.models == idx.models
    ensures r.fault.None? || r.fault == Some(MalformedRecord(m))
    ensures |Loaded(idx, m)| <= |Loaded(r, m)| <= |Loaded(idx, m)| + |recs|
    ensures forall k :: k != m ==> Loaded(r, k) == Loaded(idx, k)
    decreases |recs|
  {
    if recs == [] then idx
    else match ParseRecord(recs[0], codec, m)
      case Err(f) => idx.(fault := Some(f))
      case Ok(p) => AddRecords(Append(idx, m, p), m, recs[1..], codec)
  }

  /** AddRecords' step at record `j`: a record that does not parse stops the load, one that parses is appended. */
  lemma AddRecordsStep(idx: Index, m: string, recs: seq<ConfigNode>, j: nat, codec: Codec)
    requires idx.fault.None? && j < |recs|
    ensures ParseRecord(recs[j], codec, m).Err? ==>
      AddRecords(idx, m, recs[j..], codec) == idx.(fault := Some(ParseRecord(recs[j], codec, m).fault))
    ensures ParseRecord(recs[j], codec, m).Ok? ==>
      AddRecords(idx, m, recs[j..], codec)
      == AddRecords(Append(idx, m, ParseRecord(recs[j], codec, m).value), m, recs[j + 1..], codec)
  {
    assert recs[j..][0] == recs[j] && recs[j..][1..] == recs[j + 1..];
  }

  /** One iteration of GenerateModelLists' loop over the STATIC definitions. */
  function IndexDefinition(idx: Index, d: UrlConfig, codec: Codec): (r: Index)
    requires idx.fault.None?
    ensures forall k :: k in idx.models ==> k in r.models && r.models[k] == idx.models[k]
    ensures forall k :: k in r.models && k !in idx.models ==> r.models[k] == d.url
    ensures |r.models| <= |idx.models| + 1
  {
    var mesh := GetValue(d.config, "mesh");
    if mesh.None? || mesh.value == "" then idx
    else match ModelUrlFor(d.url, mesh.value)
      case Err(f) => idx.(fault := Some(f))
      case Ok(m) =>
        if m in idx.models then idx.(fault := Some(DuplicateModelUrl(m)))
        else
          var added := idx.(models := idx.models[m := d.url]);
          if !HasNode(d.config, InstancesTag) then added
          else AddRecords(added, m, GetNodes(d.config, InstancesTag), codec)
  }

  /** The rest of the loop; an exception ends it. */
  function IndexConfigs(idx: Index, defs: seq<UrlConfig>, codec: Codec): (r: Index)
    ensures idx.fault.Some? ==> r == idx
    ensures forall k :: k in idx.models ==> k in r.models && r.models[k] == idx.models[k]
    ensures forall k :: k in r.models && k !in idx.models ==> exists i :: 0 <= i < |defs| && defs[i].url == r.models[k]
    decreases |defs|
  {
    if defs == [] || idx.fault.Some? then idx
    else IndexConfigs(IndexDefinition(idx, defs[0], codec), defs[1..], codec)
  }

  /** The load's step at definition `i`: it is indexed, then the rest. */
  lemma IndexConfigsStep(idx: Index, defs: seq<UrlConfig>, i: nat, codec: Codec)
    requires idx.fault.None? && i < |defs|
    ensures IndexConfigs(idx, defs[i..], codec) == IndexConfigs(IndexDefinition(idx, defs[i], codec), defs[i + 1..], codec)
  {
    assert defs[i..][0] == defs[i] && defs[i..][1..] == defs[i + 1..];
  }

  /** All records of a definition read in order, or the first failure. */
  function ParseRecords(recs: seq<ConfigNode>, codec: Codec, m: string): Result<seq<Placement>>
    decreases |recs|
  {
    if recs == [] then Ok([])
    else match ParseRecord(recs[0], codec, m)
      case Err(f) => Err(f)
      case Ok(p) =>
        match ParseRecords(recs[1..], codec, m)
        case Err(f) => Err(f)
        case Ok(ps) => Ok([p] + ps)
  }

  /** Placements appended one by one, as AddRecords does once each record has parsed. */
  function AppendAll(idx: Index, m: string, ps: seq<Placement>): Index
    decreases |ps|
  {
    if ps == [] then idx else AppendAll(Append(idx, m, ps[0]), m, ps[1..])
  }

  /** Appending a list adds it, in order, to `m`'s list; a new key joins the order once. */
  lemma {:induction false} AppendAllShape(idx: Index, m: string, ps: seq<Placement>)
    ensures var r := AppendAll(idx, m, ps);
      && r.fault == idx.fault && r.models == idx.models
      && r.records == (if ps == [] then idx.records else idx.records[m := Loaded(idx, m) + ps])
      && r.order == (if ps == [] || m in idx.records then idx.order else idx.order + [m])
    decreases |ps|
  {
    if ps != [] {
      var next := Append(idx, m, ps[0]);
      AppendAllShape(next, m, ps[1..]);
      assert Loaded(next, m) == Loaded(idx, m) + [ps[0]];
      if ps[1..] == [] {
        assert ps == [ps[0]];
      } else {
        assert Loaded(next, m) + ps[1..] == Loaded(idx, m) + ps;
        assert next.records[m := Loaded(idx, m) + ps] == idx.records[m := Loaded(idx, m) + ps];
      }
    }
  }

  /** When every record parses, AddRecords appends the parsed placements. */
  lemma {:induction false} AddRecordsParsed(idx: Index, m: string, recs: seq<ConfigNode>, codec: Codec, ps: seq<Placement>)
    requires idx.fault.None?
    requires ParseRecords(recs, codec, m) == Ok(ps)
    ensures AddRecords(idx, m, recs, codec) == AppendAll(idx, m, ps)
    decreases |recs|
  {
    if recs != [] {
      var p := ParseRecord(recs[0], codec, m).value;
      var rest := ParseRecords(recs[1..], codec, m).value;
      assert ps == [p] + rest;
      AddRecordsParsed(Append(idx, m, p), m, recs[1..], codec, rest);
    }
  }

  /** When every record parses, they are appended to `m`'s list in record order. */
  lemma AddRecordsOk(idx: Index, m: string, recs: seq<ConfigNode>, codec: Codec, ps: seq<Placement>)
    requires idx.fault.None?
    requires ParseRecords(recs, codec, m) == Ok(ps)
    ensures var r := AddRecords(idx, m, recs, codec);
      && r.fault.None? && r.models == idx.models
      && r.records == (if ps == [] then idx.records else idx.records[m := Loaded(idx, m) + ps])
      && r.order == (if ps == [] || m in idx.records then idx.order else idx.order + [m])
  {
    AddRecordsParsed(idx, m, recs, codec, ps);
    AppendAllShape(idx, m, ps);
  }

  /** A record that fails to parse stops the load with its fault. */
  lemma {:induction false} AddRecordsErr(idx: Index, m: string, recs: seq<ConfigNode>, codec: Codec)
    requires idx.fault.None?
    requires ParseRecords(recs, codec, m).Err?
    ensures AddRecords(idx, m, recs, codec).fault == Some(ParseRecords(recs, codec, m).fault)
    decreases |recs|
  {
    match ParseRecord(recs[0], codec, m)
    case Err(f) =>
    case Ok(p) => AddRecordsErr(Append(idx, m, p), m, recs[1..], codec);
  }

  /** Appending keeps an index well formed. */
  lemma {:induction false} AddRecordsWellFormed(idx: Index, m: string, recs: seq<ConfigNode>, codec: Codec)
    requires idx.fault.None? && WellFormed(idx) && m in idx.models
    ensures WellFormed(AddRecords(idx, m, recs, codec))
    decreases |recs|
  {
    if recs != [] {
      match ParseRecord(recs[0], codec, m)
      case Err(f) =>
      case Ok(p) =>
        var next := Append(idx, m, p);
        assert WellFormed(next);
        AddRecordsWellFormed(next, m, recs[1..], codec);
    }
  }

  /** One definition keeps an index well formed. */
  lemma IndexDefinitionWellFormed(idx: Index, d: UrlConfig, codec: Codec)
    requires idx.fault.None? && WellFormed(idx)
    ensures WellFormed(IndexDefinition(idx, d, codec))
  {
    var mesh := GetValue(d.config, "mesh");
    if mesh.Some? && mesh.value != "" && ModelUrlFor(d.url, mesh.value).Ok? {
      var m := ModelUrlFor(d.url, mesh.value).value;
      if m !in idx.models {
        var added := idx.(models := idx.models[m := d.url]);
        assert WellFormed(added);
        if HasNode(d.config, InstancesTag) {
          AddRecordsWellFormed(added, m, GetNodes(d.config, InstancesTag), codec);
        }
      }
    }
  }

  /** Every index the load reaches from a well-formed one is well formed. */
  lemma {:induction false} IndexConfigsWellFormed(idx: Index, defs: seq<UrlConfig>, codec: Codec)
    requires WellFormed(idx)
    ensures WellFormed(IndexConfigs(idx, defs, codec))
    decreases |defs|
  {
    if defs != [] && idx.fault.None? {
      IndexDefinitionWellFormed(idx, defs[0], codec);
      IndexConfigsWellFormed(IndexDefinition(idx, defs[0], codec), defs[1..], codec);
    }
  }

  /** A definition whose `mesh` is missing or empty is skipped: neither map changes. */
  lemma SkippedDefinition(idx: Index, d: UrlConfig, codec: Codec)
    requires idx.fault.None?
    requires GetValue(d.config, "mesh").None? || GetValue(d.config, "mesh") == Some("")
    ensures IndexDefinition(idx, d, codec) == idx
  {
  }

  /** A model URL already in the model list makes Dictionary.Add throw. */
  lemma DuplicateModelUrlFaults(idx: Index, d: UrlConfig, codec: Codec, m: string)
    requires idx.fault.None?
    requires GetValue(d.config, "mesh").Some? && GetValue(d.config, "mesh").value != ""
    requires ModelUrlFor(d.url, GetValue(d.config, "mesh").value) == Ok(m)
    requires m in idx.models
    ensures IndexDefinition(idx, d, codec) == idx.(fault := Some(DuplicateModelUrl(m)))
  {
  }

  /**
   * A definition that loads cleanly adds its model URL to the model list and
   * its records, in order, as that URL's list; a definition without records
   * creates no registry key. Nothing else changes.
   */
  lemma DefinitionLoaded(idx: Index, d: UrlConfig, codec: Codec, m: string, ps: seq<Placement>)
    requires idx.fault.None? && WellFormed(idx)
    requires GetValue(d.config, "mesh").Some? && GetValue(d.config, "mesh").value != ""
    requires ModelUrlFor(d.url, GetValue(d.config, "mesh").value) == Ok(m)
    requires m !in idx.models
    requires ParseRecords(GetNodes(d.config, InstancesTag), codec, m) == Ok(ps)
    ensures var r := IndexDefinition(idx, d, codec);
      && r.fault.None?
      && r.models == idx.models[m := d.url]
      && r.records == (if ps == [] then idx.records else idx.records[m := ps])
      && r.order == (if ps == [] then idx.order else idx.order + [m])
  {
    var added := idx.(models := idx.models[m := d.url]);
    assert m !in idx.records;
    assert Loaded(added, m) == [];
    if HasNode(d.config, InstancesTag) {
      AddRecordsOk(added, m, GetNodes(d.config, InstancesTag), codec, ps);
      assert [] + ps == ps;
    } else {
      assert ps == [];
    }
  }
}
