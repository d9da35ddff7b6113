/**
 * The KerbTown add-on's state: the instance registry (model URL -> ordered
 * list of static objects), the model list (model URL -> config URL), the
 * single selection, and the operations behind its load, save, create,
 * select and delete paths. Calls into the engine that change what is drawn
 * (Manipulate, Destroy) are recorded in order in `hostCalls`.
 */
module Session {
  import opened Outcomes
  import opened ConfigTree
  import opened Records
  import opened PathStrings
  import opened ConfigIndex
  import opened Persistence
  import opened Statics

  /** StaticObject.Manipulate(inactive) and Object.Destroy on an object's GameObject. */
  datatype HostCall = Manipulate(target: StaticObject, inactive: bool) | Destroy(target: StaticObject)

  /** The objects a sequence of host calls leaves highlighted (Manipulate(true) highlights). */
  ghost function Highlighted(log: seq<HostCall>): set<StaticObject>
    decreases |log|
  {
    if log == [] then {}
    else
      Apply(Highlighted(log[..|log| - 1]), log[|log| - 1])
  }

  /** One host call's effect on the highlighted set. */
  ghost function Apply(before: set<StaticObject>, c: HostCall): set<StaticObject>
  {
    if c.Manipulate? && c.inactive then before + {c.target} else before - {c.target}
  }

  lemma HighlightedStep(log: seq<HostCall>, c: HostCall)
    ensures Highlighted(log + [c]) == Apply(Highlighted(log), c)
  {
    assert (log + [c])[..|log|] == log;
  }

  /** The host calls of a change of selection: the old selection, if any, is unhighlighted, then `next` is highlighted. */
  function Reselection(previous: StaticObject?, next: StaticObject): seq<HostCall>
  {
    (if previous != null then [Manipulate(previous, false)] else []) + [Manipulate(next, true)]
  }

  /** Dictionary<K, List<T>>: `o` added at the end of `key`'s list, the list created if absent. */
  function Appended(lists: map<string, seq<StaticObject>>, key: string, o: StaticObject): map<string, seq<StaticObject>>
  {
    lists[key := (if key in lists then lists[key] else []) + [o]]
  }

  /** The keys in enumeration order after `key` is used: a new key joins the end. */
  function OrderAfter(order: seq<string>, lists: map<string, seq<StaticObject>>, key: string): seq<string>
  {
    if key in lists then order else order + [key]
  }

  /** List<T>.Remove: drop the first occurrence of `x`, keep the rest in order. */
  function RemoveFirst<T(==)>(s: seq<T>, x: T): (r: seq<T>)
    ensures x !in s ==> r == s
    ensures x in s ==> |r| == |s| - 1
  {
    if s == [] then []
    else if s[0] == x then s[1..]
    else [s[0]] + RemoveFirst(s[1..], x)
  }

  /** Removal cuts the list at the first occurrence of `x` and joins the two sides. */
  lemma {:induction false} RemoveFirstAt<T>(s: seq<T>, x: T, i: nat)
    requires i < |s| && s[i] == x && x !in s[..i]
    ensures RemoveFirst(s, x) == s[..i] + s[i + 1..]
  {
    if i > 0 {
      assert s[1..][..i - 1] == s[..i][1..];
      RemoveFirstAt(s[1..], x, i - 1);
      assert s[..i] == [s[0]] + s[1..][..i - 1];
    }
  }

  /** Removal takes away one `x` and nothing else. */
  lemma {:induction false} RemoveFirstCount<T>(s: seq<T>, x: T)
    ensures multiset(RemoveFirst(s, x)) == multiset(s) - multiset{x}
  {
    if s != [] {
      assert s == [s[0]] + s[1..];
      RemoveFirstCount(s[1..], x);
    }
  }

  /** Removal keeps only elements that were there. */
  lemma RemoveFirstKeeps<T>(s: seq<T>, x: T)
    ensures forall z :: z in RemoveFirst(s, x) ==> z in s
  {
    RemoveFirstCount(s, x);
    forall z | z in RemoveFirst(s, x) ensures z in s {
      assert multiset(RemoveFirst(s, x))[z] > 0;
    }
  }

  /** Removing an element that was appended to a list it was not in restores the list. */
  lemma {:induction false} RemoveFirstUndoesAppend<T>(s: seq<T>, x: T)
    requires x !in s
    ensures RemoveFirst(s + [x], x) == s
  {
    RemoveFirstAt(s + [x], x, |s|);
    assert (s + [x])[..|s|] == s;
  }

  /** The position of the first object with this ObjectID, or -1 (Enumerable.FirstOrDefault). */
  function FirstIndexWithId(os: seq<StaticObject>, objectId: string): (r: int)
    ensures -1 <= r < |os|
    ensures r == -1 <==> forall i :: 0 <= i < |os| ==> os[i].objectId != objectId
    ensures 0 <= r ==> os[r].objectId == objectId && forall i :: 0 <= i < r ==> os[i].objectId != objectId
  {
    if os == [] then -1
    else if os[0].objectId == objectId then 0
    else
      var r := FirstIndexWithId(os[1..], objectId);
      assert forall i :: 1 <= i < |os| ==> os[i] == os[1..][i - 1];
      if r == -1 then -1 else r + 1
  }

  lemma PlacementsOfSnoc(os: seq<StaticObject>, o: StaticObject)
    ensures PlacementsOf(os + [o]) == PlacementsOf(os) + [o.CurrentPlacement()]
  {
    assert forall i :: 0 <= i < |os| ==> (os + [o])[i] == os[i];
  }

  /** Which model the asset list has selected, and the config URL paired with it. */
  datatype ModelChoice = ModelChoice(modelUrl: string, configUrl: string)

  /** Clicking a model in the available-assets list: each half toggles on its own. */
  function Toggle(models: map<string, string>, current: ModelChoice, m: string): (r: ModelChoice)
    requires m in models
    ensures r.modelUrl == (if m == current.modelUrl then "" else m)
    ensures r.configUrl in {"", models[m]}
    ensures r.configUrl == "" <==> current.configUrl == models[m] || models[m] == ""
  {
    ModelChoice(if m == current.modelUrl then "" else m,
                if current.configUrl == models[m] then "" else models[m])
  }

  /** Nothing is selected, or a model is selected together with its own config URL. */
  predicate Paired(models: map<string, string>, c: ModelChoice)
  {
    || (c.modelUrl == "" && c.configUrl == "")
    || (c.modelUrl in models && c.configUrl == models[c.modelUrl])
  }

  ghost predicate Injective(models: map<string, string>)
  {
    forall a, b :: a in models && b in models && a != b ==> models[a] != models[b]
  }

  /**
   * When no two models share a config URL (and no URL is empty), a click
   * keeps the model and its config URL paired: it selects the clicked model
   * with its URL, or deselects both when the model was already selected.
   */
  lemma TogglePaired(models: map<string, string>, current: ModelChoice, m: string)
    requires m in models && Paired(models, current) && Injective(models)
    requires "" !in models && forall k :: k in models ==> models[k] != ""
    ensures Paired(models, Toggle(models, current, m))
    ensures Toggle(models, current, m) == if m == current.modelUrl then ModelChoice("", "") else ModelChoice(m, models[m])
  {
  }

  /**
   * Two models loaded from definitions with the same config URL: selecting
   * one and then clicking the other selects the second model with no
   * config URL.
   */
  lemma SharedConfigUrlUnpairs()
    ensures var models := map["a/x" := "a/c", "a/y" := "a/c"];
      && Paired(models, ModelChoice("a/x", "a/c"))
      && Toggle(models, ModelChoice("a/x", "a/c"), "a/y") == ModelChoice("a/y", "")
      && !Paired(models, Toggle(models, ModelChoice("a/x", "a/c"), "a/y"))
  {
    var models := map["a/x" := "a/c", "a/y" := "a/c"];
    assert "a/x" != "a/y" by { assert "a/x"[2] != "a/y"[2]; }
  }

  /** Every object is listed under its own model URL, which maps to the object's config URL. */
  ghost predicate SourcedIn(lists: map<string, seq<StaticObject>>, models: map<string, string>)
  {
    forall k, o {:trigger o in lists[k]} :: k in lists && o in lists[k] ==> o.modelUrl == k && k in models && o.configUrl == models[k]
  }

  lemma SourcedAppend(lists: map<string, seq<StaticObject>>, extended: map<string, seq<StaticObject>>,
                      models: map<string, string>, m: string, o: StaticObject)
    requires SourcedIn(lists, models) && m in models && o.modelUrl == m && o.configUrl == models[m]
    requires extended == lists[m := (if m in lists then lists[m] else []) + [o]]
    ensures SourcedIn(extended, models)
  {
  }

  /** Objects that no statement changed keep their placements. */
  twostate lemma {:induction false} PlacementsUnchanged(os: seq<StaticObject>)
    requires forall o :: o in os ==> old(allocated(o)) && unchanged(o)
    ensures PlacementsOf(os) == old(PlacementsOf(os))
  {
    if os != [] {
      assert os[0] in os;
      assert forall o :: o in os[1..] ==> o in os;
      PlacementsUnchanged(os[1..]);
    }
  }

  /** Lists of objects that no statement changed keep their placements. */
  twostate lemma RegistryPlacementsUnchanged(lists: map<string, seq<StaticObject>>)
    requires forall k, o :: k in lists && o in lists[k] ==> old(allocated(o)) && unchanged(o)
    ensures forall k :: k in lists ==> PlacementsOf(lists[k]) == old(PlacementsOf(lists[k]))
  {
    forall k | k in lists
      ensures PlacementsOf(lists[k]) == old(PlacementsOf(lists[k]))
    {
      PlacementsUnchanged(lists[k]);
    }
  }

  /** A new model URL, under which nothing is registered yet, keeps every object sourced. */
  lemma SourcedExtend(lists: map<string, seq<StaticObject>>, models: map<string, string>, m: string, url: string)
    requires SourcedIn(lists, models) && m !in models
    ensures SourcedIn(lists, models[m := url])
  {
    forall k, o | k in lists && o in lists[k]
      ensures o.modelUrl == k && k in models[m := url] && o.configUrl == models[m := url][k]
    {
      assert k in models && o.configUrl == models[k];
    }
  }

  /** Appending an object whose placement is `p` appends `p` to that key's placements and to no other. */
  lemma PlacementsAppend(lists: map<string, seq<StaticObject>>, extended: map<string, seq<StaticObject>>,
                         placed: map<string, seq<Placement>>, extendedPlaced: map<string, seq<Placement>>,
                         m: string, o: StaticObject, p: Placement)
    requires lists.Keys == placed.Keys
    requires forall k :: k in lists ==> PlacementsOf(lists[k]) == placed[k]
    requires o.CurrentPlacement() == p
    requires extended == lists[m := (if m in lists then lists[m] else []) + [o]]
    requires extendedPlaced == placed[m := (if m in placed then placed[m] else []) + [p]]
    ensures forall k :: k in extended ==> PlacementsOf(extended[k]) == extendedPlaced[k]
  {
    PlacementsOfSnoc(if m in lists then lists[m] else [], o);
  }

  /**
   * The registry's keys are distinct, listed in order and known to the
   * model list, and every object sits under its own model URL.
   */
  ghost predicate RegistryShape(lists: map<string, seq<StaticObject>>, order: seq<string>, models: map<string, string>)
  {
    && (forall i, j :: 0 <= i < j < |order| ==> order[i] != order[j])
    && (forall k :: k in lists <==> k in order)
    && lists.Keys <= models.Keys
    && (forall k, o :: k in lists && o in lists[k] ==> o.modelUrl == k)
  }

  /** Appending an object to its own model's list keeps the registry's shape and every earlier membership. */
  lemma RegistryShapeAppend(lists: map<string, seq<StaticObject>>, order: seq<string>, models: map<string, string>,
                            m: string, o: StaticObject,
                            extended: map<string, seq<StaticObject>>, extendedOrder: seq<string>)
    requires RegistryShape(lists, order, models) && m in models && o.modelUrl == m
    requires extended == lists[m := (if m in lists then lists[m] else []) + [o]]
    requires extendedOrder == if m in lists then order else order + [m]
    ensures RegistryShape(extended, extendedOrder, models)
  {
  }

  /** Removing an object from one list keeps the registry's shape. */
  lemma RegistryShapeRemove(lists: map<string, seq<StaticObject>>, order: seq<string>, models: map<string, string>,
                            m: string, o: StaticObject)
    requires RegistryShape(lists, order, models) && m in lists
    ensures RegistryShape(lists[m := RemoveFirst(lists[m], o)], order, models)
  {
    RemoveFirstKeeps(lists[m], o);
  }

  /**
   * At most one object is selected; it is registered and its ID is the
   * selected ID, and it is exactly what the host calls leave highlighted.
   */
  ghost predicate SelectionState(lists: map<string, seq<StaticObject>>, selected: StaticObject?, selectedId: string,
                                 log: seq<HostCall>)
  {
    && (selected == null <==> selectedId == "")
    && (selected != null ==>
          selectedId == selected.objectId && selected.modelUrl in lists && selected in lists[selected.modelUrl])
    && Highlighted(log) == (if selected == null then {} else {selected})
  }

  /** Appending an object to a list keeps the selected object registered. */
  lemma SelectionStateAppend(lists: map<string, seq<StaticObject>>, selected: StaticObject?, selectedId: string,
                             log: seq<HostCall>, m: string, o: StaticObject, extended: map<string, seq<StaticObject>>)
    requires SelectionState(lists, selected, selectedId, log)
    requires extended == lists[m := (if m in lists then lists[m] else []) + [o]]
    ensures SelectionState(extended, selected, selectedId, log)
  {
  }

  /** A registry that mirrors a well-formed index has the registry's shape. */
  lemma MirrorShape(lists: map<string, seq<StaticObject>>, models: map<string, string>, idx: Index)
    requires WellFormed(idx) && SourcedIn(lists, models)
    requires models == idx.models && lists.Keys == idx.records.Keys
    ensures RegistryShape(lists, idx.order, models)
  {
  }

  class KerbTown {
    var instancedList: map<string, seq<StaticObject>>
    /** The registry's keys in Dictionary enumeration order (insertion order: keys are never removed). */
    var keyOrder: seq<string>
    var modelList: map<string, string>
    var currentModelUrl: string
    var currentConfigUrl: string
    var currentBodyName: string
    var currentCelestial: Option<Body>
    var currentSelectedObject: StaticObject?
    var currentObjectId: string
    var hostCalls: seq<HostCall>

    /** The list stored for `key`; an absent key reads as empty. */
    function ListOf(key: string): seq<StaticObject>
      reads this`instancedList
    {
      if key in instancedList then instancedList[key] else []
    }

    /** Every object in the registry. */
    ghost function Objects(): set<StaticObject>
      reads this`instancedList
    {
      set k, i | k in instancedList && 0 <= i < |instancedList[k]| :: instancedList[k][i]
    }

    /** What the save reads of the registry: each key's objects as (ConfigURL, placement) pairs. */
    function Tracks(): (r: map<string, seq<Tracked>>)
      reads this`instancedList, Objects()
      ensures r.Keys == instancedList.Keys
    {
      map k | k in instancedList :: TracksOf(instancedList[k])
    }

    ghost predicate Registered(o: StaticObject)
      reads this`instancedList
    {
      o.modelUrl in instancedList && o in instancedList[o.modelUrl]
    }

    /**
     * The registry's keys are distinct, listed in order and known to the
     * model list; every object sits under its own model URL; at most one
     * object is selected, it is registered, its ID is the selected ID, and
     * it is the only object left highlighted.
     */
    ghost predicate Valid()
      reads this`instancedList, this`keyOrder, this`modelList, this`currentModelUrl
      reads this`currentSelectedObject, this`currentObjectId, this`hostCalls
    {
      && RegistryShape(instancedList, keyOrder, modelList)
      && (currentModelUrl == "" || currentModelUrl in modelList)
      && SelectionState(instancedList, currentSelectedObject, currentObjectId, hostCalls)
    }

    constructor ()
      ensures Valid()
      ensures instancedList == map[] && keyOrder == [] && modelList == map[]
      ensures currentModelUrl == "" && currentConfigUrl == "" && currentBodyName == ""
      ensures currentSelectedObject == null && currentObjectId == "" && hostCalls == []
    {
      instancedList := map[];
      keyOrder := [];
      modelList := map[];
      currentModelUrl := "";
      currentConfigUrl := "";
      currentBodyName := "";
      currentCelestial := None;
      currentSelectedObject := null;
      currentObjectId := "";
      hostCalls := [];
    }

    /** Every loaded object carries its key and its definition's config URL. */
    ghost predicate Sourced()
      reads this`instancedList, this`modelList
    {
      SourcedIn(instancedList, modelList)
    }

    method NewInstance(m: string, configUrl: string, p: Placement, randomId: IdText) returns (o: StaticObject)
      ensures fresh(o) && o.modelUrl == m && o.configUrl == configUrl && o.CurrentPlacement() == p
    {
      o := new StaticObject(p.radPosition, p.rotAngle, p.radOffset, p.orientation, p.visRange,
                            m, configUrl, p.bodyName, "", randomId);
    }

    /** A parsed record becomes a new object at the end of `m`'s list (the list is created if absent). */
    method LoadInstance(m: string, p: Placement, randomId: IdText, ghost idx: Index) returns (ghost after: Index)
      requires m in modelList
      requires Sourced() && modelList == idx.models && keyOrder == idx.order && instancedList.Keys == idx.records.Keys
      requires (forall k :: k in instancedList ==> PlacementsOf(instancedList[k]) == idx.records[k])
      modifies this`instancedList, this`keyOrder
      ensures after == Append(idx, m, p)
      ensures Sourced() && modelList == after.models && keyOrder == after.order && instancedList.Keys == after.records.Keys
      ensures (forall k :: k in instancedList ==> PlacementsOf(instancedList[k]) == after.records[k])
    {
      ghost var lists := instancedList;
      var o := NewInstance(m, modelList[m], p, randomId);
      Register(m, o);
      SourcedAppend(lists, instancedList, modelList, m, o);
      RegistryPlacementsUnchanged(lists);
      after := Append(idx, m, p);
      PlacementsAppend(lists, instancedList, idx.records, after.records, m, o, p);
    }

    /**
     * The loop over one definition's `Instances` records: each record that
     * parses becomes a new object appended to `m`'s list; the first that
     * does not parse stops the load. Mirrors AddRecords.
     */
    method LoadRecords(m: string, recs: seq<ConfigNode>, codec: Codec, randomIds: nat -> IdText, drawn: nat,
                       ghost idx: Index)
      returns (fault: Option<Fault>, drawnAfter: nat, ghost after: Index)
      requires idx.fault.None? && WellFormed(idx) && m in idx.models
      requires Sourced() && modelList == idx.models && keyOrder == idx.order && instancedList.Keys == idx.records.Keys
      requires (forall k :: k in instancedList ==> PlacementsOf(instancedList[k]) == idx.records[k])
      modifies this`instancedList, this`keyOrder
      ensures after == AddRecords(idx, m, recs, codec) && fault == after.fault
      ensures Sourced() && modelList == after.models && keyOrder == after.order && instancedList.Keys == after.records.Keys
      ensures (forall k :: k in instancedList ==> PlacementsOf(instancedList[k]) == after.records[k])
    {
      fault := None;
      drawnAfter := drawn;
      after := idx;
      var j := 0;
      while j < |recs|
        invariant 0 <= j <= |recs|
        invariant after.fault.None? && m in after.models
        invariant AddRecords(after, m, recs[j..], codec) == AddRecords(idx, m, recs, codec)
        invariant Sourced() && modelList == after.models && keyOrder == after.order && instancedList.Keys == after.records.Keys
        invariant (forall k :: k in instancedList ==> PlacementsOf(instancedList[k]) == after.records[k])
      {
        AddRecordsStep(after, m, recs, j, codec);
        var record := ParseRecord(recs[j], codec, m);
        if record.Err? {
          fault := Some(record.fault);
          after := after.(fault := fault);
          return;
        }
        after := LoadInstance(m, record.value, randomIds(drawnAfter), after);
        drawnAfter := drawnAfter + 1;
        j := j + 1;
      }
    }

    /** A definition's new model URL `m` enters the model list, pointing at its config URL `url`. */
    method AddModel(m: string, url: string, ghost idx: Index) returns (ghost after: Index)
      requires idx.fault.None? && WellFormed(idx) && m !in idx.models
      requires Sourced() && modelList == idx.models && keyOrder == idx.order && instancedList.Keys == idx.records.Keys
      requires (forall k :: k in instancedList ==> PlacementsOf(instancedList[k]) == idx.records[k])
      modifies this`modelList
      ensures after == idx.(models := idx.models[m := url]) && WellFormed(after) && m in after.models
      ensures Sourced() && modelList == after.models && keyOrder == after.order && instancedList.Keys == after.records.Keys
      ensures (forall k :: k in instancedList ==> PlacementsOf(instancedList[k]) == after.records[k])
    {
      SourcedExtend(instancedList, modelList, m, url);
      modelList := modelList[m := url];
      RegistryPlacementsUnchanged(instancedList);
      after := idx.(models := idx.models[m := url]);
      assert WellFormed(after);
    }

    /** One iteration of GenerateModelLists' loop over the STATIC definitions. Mirrors IndexDefinition. */
    method LoadDefinition(d: UrlConfig, codec: Codec, randomIds: nat -> IdText, drawn: nat, ghost idx: Index)
      returns (fault: Option<Fault>, drawnAfter: nat, ghost after: Index)
      requires idx.fault.None? && WellFormed(idx)
      requires Sourced() && modelList == idx.models && keyOrder == idx.order && instancedList.Keys == idx.records.Keys
      requires (forall k :: k in instancedList ==> PlacementsOf(instancedList[k]) == idx.records[k])
      modifies this`instancedList, this`keyOrder, this`modelList
      ensures after == IndexDefinition(idx, d, codec) && fault == after.fault
      ensures Sourced() && modelList == after.models && keyOrder == after.order && instancedList.Keys == after.records.Keys
      ensures (forall k :: k in instancedList ==> PlacementsOf(instancedList[k]) == after.records[k])
    {
      fault := None;
      drawnAfter := drawn;
      after := idx;
      var mesh := GetValue(d.config, "mesh");
      if mesh.None? || mesh.value == "" {
        return;
      }
      var modelUrl := ModelUrlFor(d.url, mesh.value);
      if modelUrl.Err? {
        fault := Some(modelUrl.fault);
        after := idx.(fault := fault);
        return;
      }
      var m := modelUrl.value;
      if m in modelList {
        fault := Some(DuplicateModelUrl(m));
        after := idx.(fault := fault);
        return;
      }
      after := AddModel(m, d.url, idx);
      if HasNode(d.config, InstancesTag) {
        fault, drawnAfter, after := LoadRecords(m, GetNodes(d.config, InstancesTag), codec, randomIds, drawn, after);
      }
    }

    /**
     * GenerateModelLists: read every STATIC definition, fill the model list
     * and the registry, and stop at the first exception. The outcome is
     * IndexConfigs' from an empty index: the same model list, keys in the
     * same order, and under each key fresh objects holding that key's loaded
     * placements, in order, each tagged with its definition's config URL.
     * It runs once at start-up, before anything is selected.
     */
    method GenerateModelLists(configs: seq<UrlConfig>, codec: Codec, randomIds: nat -> IdText)
      returns (fault: Option<Fault>)
      requires Valid() && currentSelectedObject == null && currentModelUrl == ""
      modifies this`instancedList, this`keyOrder, this`modelList
      ensures Valid()
      ensures var idx := IndexConfigs(EmptyIndex, configs, codec);
        && fault == idx.fault && modelList == idx.models && keyOrder == idx.order
        && instancedList.Keys == idx.records.Keys
        && (forall k :: k in instancedList ==> PlacementsOf(instancedList[k]) == idx.records[k])
      ensures forall k, o :: k in instancedList && o in instancedList[k] ==> o.configUrl == modelList[k]
    {
      instancedList := map[];
      modelList := map[];
      keyOrder := [];
      fault := None;
      ghost var idx := EmptyIndex;
      var drawn := 0;
      var i := 0;
      while i < |configs|
        invariant 0 <= i <= |configs|
        invariant fault.None? && idx.fault.None? && WellFormed(idx)
        invariant IndexConfigs(idx, configs[i..], codec) == IndexConfigs(EmptyIndex, configs, codec)
        invariant Sourced() && modelList == idx.models && keyOrder == idx.order && instancedList.Keys == idx.records.Keys
        invariant (forall k :: k in instancedList ==> PlacementsOf(instancedList[k]) == idx.records[k])
      {
        IndexConfigsStep(idx, configs, i, codec);
        IndexDefinitionWellFormed(idx, configs[i], codec);
        fault, drawn, idx := LoadDefinition(configs[i], codec, randomIds, drawn, idx);
        if fault.Some? {
          assert IndexConfigs(idx, configs[i + 1..], codec) == idx;
          MirrorShape(instancedList, modelList, idx);
          assert SourcedIn(instancedList, modelList);
          return;
        }
        i := i + 1;
      }
      assert configs[i..] == [];
      MirrorShape(instancedList, modelList, idx);
      assert SourcedIn(instancedList, modelList);
    }

    /**
     * One pass of WriteSessionConfigs' outer loop: the first object's
     * ConfigURL (or, for an empty list, the model list's entry) names the
     * definition node; its `Instances` children are replaced by one record
     * per object, in list order, and the definition is written to its .cfg
     * file. A model URL missing from the model list, a URL without a
     * directory or a URL without a node in the database throws before
     * anything of this key is changed. Mirrors SaveKey.
     */
    method SaveDefinition(key: string, tracks: seq<Tracked>, db: map<string, ConfigNode>, files: seq<SavedFile>,
                          codec: Codec, root: string)
      returns (saved: map<string, ConfigNode>, written: seq<SavedFile>, fault: Option<Fault>)
      ensures SaveState(saved, written, fault) == SaveKey(SaveState(db, files, None), key, tracks, modelList, codec, root)
    {
      saved, written, fault := db, files, None;
      ghost var placements := Placements(tracks);
      var node := ConfigNode("", [], []);
      var url := "";
      var path := "";
      var nodesCleared := false;
      var j := 0;
      while j < |tracks|
        invariant 0 <= j <= |tracks|
        invariant nodesCleared <==> j > 0
        invariant j > 0 ==> && url == tracks[0].configUrl && ConfigFilePath(url) == Ok(path) && url in db
                             && node == Rewrite(db[url], InstanceRecords(placements[..j], codec))
      {
        if !nodesCleared {
          url := tracks[j].configUrl;
          var filePath := ConfigFilePath(url);
          if filePath.Err? {
            fault := Some(filePath.fault);
            return;
          }
          path := filePath.value;
          if url !in db {
            fault := Some(MissingConfigNode(url));
            return;
          }
          node := RemoveNodes(db[url], InstancesTag);
          RewriteNothing(db[url]);
          assert placements[..0] == [];
          nodesCleared := true;
        }
        RewriteSnoc(db[url], placements, j, codec);
        node := node.(nodes := node.nodes + [InstanceRecord(tracks[j].placement, codec)]);
        j := j + 1;
      }
      if |tracks| == 0 {
        if key !in modelList {
          fault := Some(MissingModelEntry(key));
          return;
        }
        url := modelList[key];
        var filePath := ConfigFilePath(url);
        if filePath.Err? {
          fault := Some(filePath.fault);
          return;
        }
        path := filePath.value;
        if url !in db {
          fault := Some(MissingConfigNode(url));
          return;
        }
        node := RemoveNodes(db[url], InstancesTag);
        RewriteNothing(db[url]);
      } else {
        assert placements[..j] == placements;
      }
      saved := db[url := node];
      written := files + [SavedFile(root + DataDirectory + path, SaveHeader, ConfigNode(StaticTag, [], [node]))];
    }

    /**
     * WriteSessionConfigs: rewrite every registry key's definition, in
     * Dictionary order, and stop at the first exception; the database nodes
     * and the files written before it stay written. The outcome is SaveKeys'
     * over what the registry holds when the save begins: each key's objects
     * are read once, as (ConfigURL, placement) pairs.
     */
    method WriteSessionConfigs(db: map<string, ConfigNode>, codec: Codec, root: string)
      returns (saved: map<string, ConfigNode>, files: seq<SavedFile>, fault: Option<Fault>)
      requires Valid()
      ensures forall k :: k in keyOrder ==> k in instancedList
      ensures SaveState(saved, files, fault)
           == SaveKeys(SaveState(db, [], None), keyOrder, old(Tracks()), modelList, codec, root)
    {
      var lists := Tracks();
      assert forall k :: k in keyOrder ==> k in lists;
      saved, files, fault := db, [], None;
      var i := 0;
      while i < |keyOrder|
        invariant 0 <= i <= |keyOrder|
        invariant fault.None?
        invariant SaveKeys(SaveState(saved, files, None), keyOrder[i..], lists, modelList, codec, root)
               == SaveKeys(SaveState(db, [], None), keyOrder, lists, modelList, codec, root)
      {
        var key := keyOrder[i];
        SaveKeysStep(SaveState(saved, files, None), keyOrder, i, lists, modelList, codec, root);
        saved, files, fault := SaveDefinition(key, lists[key], saved, files, codec, root);
        if fault.Some? {
          return;
        }
        i := i + 1;
      }
      assert keyOrder[i..] == [];
    }

    /**
     * GetStaticObjectFromID: the first object of the selected model's list
     * with this ObjectID, or null; the selected model URL must be a registry
     * key, otherwise the dictionary lookup throws.
     */
    function GetStaticObjectFromId(objectId: string): (r: Result<StaticObject?>)
      reads this`instancedList, this`currentModelUrl
      ensures r.Err? <==> currentModelUrl !in instancedList
      ensures r.Err? ==> r.fault == RegistryKeyMissing(currentModelUrl)
      ensures r == Ok(null) <==>
        currentModelUrl in instancedList && forall o :: o in instancedList[currentModelUrl] ==> o.objectId != objectId
      ensures r.Ok? && r.value != null ==>
        exists i :: 0 <= i < |instancedList[currentModelUrl]|
          && instancedList[currentModelUrl][i] == r.value && r.value.objectId == objectId
          && forall j :: 0 <= j < i ==> instancedList[currentModelUrl][j].objectId != objectId
    {
      if currentModelUrl !in instancedList then Err(RegistryKeyMissing(currentModelUrl))
      else
        var list := instancedList[currentModelUrl];
        var i := FirstIndexWithId(list, objectId);
        if i == -1 then Ok(null) else Ok(list[i])
    }

    /**
     * GetDefaultStaticObject: a new object of the selected model at the
     * zero (observer) position, rotation 0, pointing up, visible from 1000,
     * on no body yet, with a fresh ObjectID.
     */
    method GetDefaultStaticObject(modelUrl: string, configUrl: string, surfaceOffset: real, randomId: IdText)
      returns (o: StaticObject)
      ensures fresh(o) && o.city == null
      ensures o.CurrentPlacement() == Placement(Zero, 0.0, surfaceOffset, Up, 1000.0, "")
      ensures o.modelUrl == modelUrl && o.configUrl == configUrl
      ensures o.objectId == randomId && o.nameId == NameId(modelUrl, randomId)
    {
      o := new StaticObject(Zero, 0.0, surfaceOffset, Up, 1000.0, modelUrl, configUrl, "", "", randomId);
    }

    /**
     * The placement part of InstantiateStatic: a zero position becomes the
     * observer's position on the body and a zero orientation becomes up;
     * latitude and longitude are read off the selected celestial object;
     * a new PQSCity takes the position, offset, angle, orientation and
     * visibility range and is oriented once.
     */
    method InstantiateStatic(o: StaticObject, observer: Vec3)
      modifies o
      ensures o.radPosition == DefaultPosition(old(o.radPosition), observer)
      ensures o.orientation == DefaultOrientation(old(o.orientation))
      ensures o.latitude == GetLatitude(currentCelestial, o.radPosition)
      ensures o.longitude == GetLongitude(currentCelestial, o.radPosition)
      ensures o.rotAngle == old(o.rotAngle) && o.radOffset == old(o.radOffset) && o.bodyName == old(o.bodyName)
      ensures o.city != null && fresh(o.city)
      ensures && o.city.repositionRadial == o.radPosition && o.city.repositionRadiusOffset == o.radOffset
              && o.city.reorientFinalAngle == o.rotAngle && o.city.reorientInitialUp == o.orientation
              && o.city.repositionToSphere && o.city.reorientToSphere
              && o.city.visibleRange == o.visRange && o.city.orientations == 1
    {
      if o.radPosition == Zero {
        o.radPosition := observer;
      }
      if o.orientation == Zero {
        o.orientation := Up;
      }
      o.latitude := GetLatitude(currentCelestial, o.radPosition);
      o.longitude := GetLongitude(currentCelestial, o.radPosition);
      var city := new PqsCity(o.radPosition, o.radOffset, o.rotAngle, o.orientation, o.visRange);
      city.Orientate();
      o.city := city;
    }

    /**
     * The "Create" button. With no model selected nothing happens. Otherwise
     * the current body is recorded and looked up; when no celestial object
     * of that name exists the surface offset cannot be computed and the
     * click throws. Else a default object of the selected model is appended
     * to that model's list (the list is created if absent), placed, and made
     * the selection: the old selection is unhighlighted before the new
     * object is highlighted.
     */
    method Create(mainBody: string, celestial: Option<Body>, surfaceOffset: real, observer: Vec3, randomId: IdText)
      returns (fault: Option<Fault>, created: StaticObject?)
      requires Valid()
      modifies this`instancedList, this`keyOrder, this`currentBodyName, this`currentCelestial
      modifies this`currentSelectedObject, this`currentObjectId, this`hostCalls
      ensures Valid()
      ensures old(currentModelUrl) == "" ==> fault.None? && created == null && unchanged(this)
      ensures old(currentModelUrl) != "" ==> currentBodyName == mainBody && currentCelestial == celestial
      ensures old(currentModelUrl) != "" && celestial.None? ==>
        && fault == Some(BodyNotFound) && created == null
        && instancedList == old(instancedList) && keyOrder == old(keyOrder) && hostCalls == old(hostCalls)
        && currentSelectedObject == old(currentSelectedObject) && currentObjectId == old(currentObjectId)
      ensures old(currentModelUrl) != "" && celestial.Some? ==>
        && fault.None? && created != null && fresh(created)
        && instancedList == Appended(old(instancedList), currentModelUrl, created)
        && keyOrder == OrderAfter(old(keyOrder), old(instancedList), currentModelUrl)
        && created.modelUrl == currentModelUrl && created.configUrl == currentConfigUrl && created.objectId == randomId
        && created.CurrentPlacement() == Placement(observer, 0.0, surfaceOffset, Up, 1000.0, celestial.value.name)
        && currentSelectedObject == created && currentObjectId == randomId
        && hostCalls == old(hostCalls) + Reselection(old(currentSelectedObject), created)
    {
      fault, created := None, null;
      if currentModelUrl == "" {
        return;
      }
      currentBodyName := mainBody;
      currentCelestial := celestial;
      if celestial.None? {
        fault := Some(BodyNotFound);
        return;
      }
      created := AddSelected(celestial.value.name, surfaceOffset, observer, randomId);
    }

    /** The rest of "Create" once the body is found: the default object is registered, then selected. */
    method AddSelected(bodyName: string, surfaceOffset: real, observer: Vec3, randomId: IdText)
      returns (created: StaticObject)
      requires Valid() && currentModelUrl != ""
      modifies this`instancedList, this`keyOrder, this`currentSelectedObject, this`currentObjectId, this`hostCalls
      ensures Valid() && fresh(created)
      ensures instancedList == Appended(old(instancedList), currentModelUrl, created)
      ensures keyOrder == OrderAfter(old(keyOrder), old(instancedList), currentModelUrl)
      ensures created.modelUrl == currentModelUrl && created.configUrl == currentConfigUrl && created.objectId == randomId
      ensures created.CurrentPlacement() == Placement(observer, 0.0, surfaceOffset, Up, 1000.0, bodyName)
      ensures currentSelectedObject == created && currentObjectId == randomId
      ensures hostCalls == old(hostCalls) + Reselection(old(currentSelectedObject), created)
    {
      created := AddDefaultObject(bodyName, surfaceOffset, observer, randomId);
      Reselect(created);
    }

    /**
     * The registry half of "Create": a default object of the selected model
     * and config URL is appended to the selected model's list, set on the
     * body and placed; nothing about the selection changes.
     */
    method AddDefaultObject(bodyName: string, surfaceOffset: real, observer: Vec3, randomId: IdText)
      returns (o: StaticObject)
      requires Valid() && currentModelUrl != ""
      modifies this`instancedList, this`keyOrder
      ensures Valid() && Registered(o) && fresh(o)
      ensures instancedList == Appended(old(instancedList), currentModelUrl, o)
      ensures keyOrder == OrderAfter(old(keyOrder), old(instancedList), currentModelUrl)
      ensures o.modelUrl == currentModelUrl && o.configUrl == currentConfigUrl && o.objectId == randomId
      ensures o.CurrentPlacement() == Placement(observer, 0.0, surfaceOffset, Up, 1000.0, bodyName)
    {
      o := RegisterDefaultObject(surfaceOffset, randomId);
      o.bodyName := bodyName;
      InstantiateStatic(o, observer);
    }

    /** GetDefaultStaticObject for the selected model and config URL, appended to the model's list. */
    method RegisterDefaultObject(surfaceOffset: real, randomId: IdText) returns (o: StaticObject)
      requires Valid() && currentModelUrl != ""
      modifies this`instancedList, this`keyOrder
      ensures Valid() && Registered(o) && fresh(o)
      ensures instancedList == Appended(old(instancedList), currentModelUrl, o)
      ensures keyOrder == OrderAfter(old(keyOrder), old(instancedList), currentModelUrl)
      ensures o.modelUrl == currentModelUrl && o.configUrl == currentConfigUrl && o.objectId == randomId
      ensures o.CurrentPlacement() == Placement(Zero, 0.0, surfaceOffset, Up, 1000.0, "")
    {
      o := GetDefaultStaticObject(currentModelUrl, currentConfigUrl, surfaceOffset, randomId);
      ghost var lists, order := instancedList, keyOrder;
      Register(currentModelUrl, o);
      RegistryShapeAppend(lists, order, modelList, currentModelUrl, o, instancedList, keyOrder);
      SelectionStateAppend(lists, currentSelectedObject, currentObjectId, hostCalls, currentModelUrl, o, instancedList);
    }

    /** A click in the available-assets list toggles the selected model and, on its own, the selected config URL. */
    method ToggleModel(m: string)
      requires Valid() && m in modelList
      modifies this`currentModelUrl, this`currentConfigUrl
      ensures Valid()
      ensures ModelChoice(currentModelUrl, currentConfigUrl)
           == Toggle(modelList, old(ModelChoice(currentModelUrl, currentConfigUrl)), m)
    {
      var itemMatches := m == currentModelUrl;
      currentModelUrl := if itemMatches then "" else m;
      currentConfigUrl := if currentConfigUrl == modelList[m] then "" else modelList[m];
    }

    /**
     * A click on a registry entry in the current-assets list. The entry
     * whose ObjectID is the selected ID is deselected (unhighlighting the
     * selection); any other entry becomes the selection, after the old
     * selection, if any, is unhighlighted.
     */
    method SelectEntry(o: StaticObject)
      requires Valid() && Registered(o)
      modifies this`currentSelectedObject, this`currentObjectId, this`hostCalls
      ensures Valid()
      ensures o.objectId == old(currentObjectId) ==>
        && old(currentSelectedObject) != null
        && currentSelectedObject == null && currentObjectId == ""
        && hostCalls == old(hostCalls) + [Manipulate(old(currentSelectedObject), false)]
      ensures o.objectId != old(currentObjectId) ==>
        && currentSelectedObject == o && currentObjectId == o.objectId
        && hostCalls == old(hostCalls) + Reselection(old(currentSelectedObject), o)
    {
      var itemMatches := o.objectId == currentObjectId;
      if itemMatches {
        if currentSelectedObject != null {
          HighlightedStep(hostCalls, Manipulate(currentSelectedObject, false));
          hostCalls := hostCalls + [Manipulate(currentSelectedObject, false)];
        }
        currentObjectId := "";
        currentSelectedObject := null;
      } else {
        Reselect(o);
      }
    }

    /** Unhighlight the selection, if any, then select and highlight `o`. */
    method Reselect(o: StaticObject)
      requires Valid() && Registered(o)
      modifies this`currentSelectedObject, this`currentObjectId, this`hostCalls
      ensures Valid()
      ensures currentSelectedObject == o && currentObjectId == o.objectId
      ensures hostCalls == old(hostCalls) + Reselection(old(currentSelectedObject), o)
    {
      if currentSelectedObject != null {
        HighlightedStep(hostCalls, Manipulate(currentSelectedObject, false));
        hostCalls := hostCalls + [Manipulate(currentSelectedObject, false)];
      }
      assert Highlighted(hostCalls) == {};
      currentObjectId := o.objectId;
      currentSelectedObject := o;
      HighlightedStep(hostCalls, Manipulate(o, true));
      hostCalls := hostCalls + [Manipulate(o, true)];
    }

    /**
     * RemoveCurrentStaticObject: List.Remove of the selected object from the
     * list under `modelUrl` (a missing key throws; nothing selected removes
     * nothing).
     */
    method RemoveCurrentStaticObject(modelUrl: string) returns (fault: Option<Fault>)
      modifies this`instancedList
      ensures fault.Some? <==> modelUrl !in old(instancedList)
      ensures fault.Some? ==> fault == Some(RegistryKeyMissing(modelUrl)) && instancedList == old(instancedList)
      ensures fault.None? && currentSelectedObject == null ==> instancedList == old(instancedList)
      ensures fault.None? && currentSelectedObject != null ==>
        instancedList == old(instancedList)[modelUrl := RemoveFirst<StaticObject>(old(instancedList)[modelUrl], currentSelectedObject)]
    {
      fault := None;
      if modelUrl !in instancedList {
        fault := Some(RegistryKeyMissing(modelUrl));
        return;
      }
      if currentSelectedObject != null {
        instancedList := instancedList[modelUrl := RemoveFirst<StaticObject>(instancedList[modelUrl], currentSelectedObject)];
      }
    }

    /**
     * The "Delete" button: the selected object's GameObject is destroyed and
     * its first occurrence is removed from its model's list; the selection
     * is cleared whether or not something was selected. The key stays, even
     * when its list becomes empty.
     */
    method Delete()
      requires Valid()
      modifies this`instancedList, this`currentSelectedObject, this`currentObjectId, this`hostCalls
      ensures Valid()
      ensures currentSelectedObject == null && currentObjectId == ""
      ensures old(currentSelectedObject) == null ==> instancedList == old(instancedList) && hostCalls == old(hostCalls)
      ensures old(currentSelectedObject) != null ==>
        var o := old(currentSelectedObject);
        && instancedList == old(instancedList)[o.modelUrl := RemoveFirst<StaticObject>(old(instancedList)[o.modelUrl], o)]
        && hostCalls == old(hostCalls) + [Destroy(o)]
    {
      if currentSelectedObject != null {
        var o := currentSelectedObject;
        HighlightedStep(hostCalls, Destroy(o));
        hostCalls := hostCalls + [Destroy(o)];
        RegistryShapeRemove(instancedList, keyOrder, modelList, o.modelUrl, o);
        var fault := RemoveCurrentStaticObject(o.modelUrl);
      }
      currentObjectId := "";
      currentSelectedObject := null;
    }

    /** Add an object at the end of its model's list, creating the list (and key) if absent. */
    method Register(key: string, o: StaticObject)
      modifies this`instancedList, this`keyOrder
      ensures instancedList == Appended(old(instancedList), key, o)
      ensures keyOrder == OrderAfter(old(keyOrder), old(instancedList), key)
    {
      if key in instancedList {
        instancedList := instancedList[key := instancedList[key] + [o]];
      } else {
        assert ListOf(key) + [o] == [o];
        instancedList := instancedList[key := [o]];
        keyOrder := keyOrder + [key];
      }
    }
  }
}
