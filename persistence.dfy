/**
 * What WriteSessionConfigs does to the game database, as a function: for
 * each registry key, in registry order, the definition node gets its
 * `Instances` children replaced by one record per object, and the node is
 * written, wrapped in a STATIC node, to the definition's .cfg file.
 */
module Persistence {
  import opened Outcomes
  import opened ConfigTree
  import opened Records
  import opened PathStrings
  import opened ConfigIndex

  const StaticTag := "STATIC"
  const SaveHeader := " Generated by KerbTown - Hubs' Electrical"
  const DataDirectory := "GameData/"

  /** One ConfigNode.Save call: the file path, its header comment and the node written. */
  datatype SavedFile = SavedFile(path: string, header: string, root: ConfigNode)

  function Placements(list: seq<Tracked>): (r: seq<Placement>)
    ensures |r| == |list|
    ensures forall i :: 0 <= i < |list| ==> r[i] == list[i].placement
  {
    if list == [] then [] else [list[0].placement] + Placements(list[1..])
  }

  /** The definition node with its `Instances` children removed and `recs` appended. */
  function Rewrite(n: ConfigNode, recs: seq<ConfigNode>): (r: ConfigNode)
    ensures r.name == n.name && r.values == n.values
    ensures |recs| <= |r.nodes| && r.nodes[|r.nodes| - |recs|..] == recs
  {
    var cleared := RemoveNodes(n, InstancesTag);
    cleared.(nodes := cleared.nodes + recs)
  }

  /**
   * Adding one more placement's record to a rewritten node is the rewrite
   * with one more placement: the save loop's step.
   */
  lemma RewriteSnoc(n: ConfigNode, ps: seq<Placement>, j: nat, codec: Codec)
    requires j < |ps|
    ensures var r := Rewrite(n, InstanceRecords(ps[..j], codec));
      Rewrite(n, InstanceRecords(ps[..j + 1], codec)) == r.(nodes := r.nodes + [InstanceRecord(ps[j], codec)])
  {
    assert ps[..j + 1][..j] == ps[..j];
  }

  /** A rewrite with no records only removes the `Instances` children. */
  lemma RewriteNothing(n: ConfigNode)
    ensures Rewrite(n, []) == RemoveNodes(n, InstancesTag)
  {
    assert RemoveNodes(n, InstancesTag).nodes + [] == RemoveNodes(n, InstancesTag).nodes;
  }

  /** Records built by InstanceRecords are all called `Instances`. */
  lemma InstanceRecordsNamed(ps: seq<Placement>, codec: Codec)
    ensures forall i :: 0 <= i < |ps| ==> InstanceRecords(ps, codec)[i].name == InstancesTag
  {
  }

  /**
   * The rewrite keeps the node's name, values and every other child, in
   * order, and leaves exactly `recs` as its `Instances` children.
   */
  lemma RewriteShape(n: ConfigNode, recs: seq<ConfigNode>)
    requires forall i :: 0 <= i < |recs| ==> recs[i].name == InstancesTag
    ensures var r := Rewrite(n, recs);
      && r.name == n.name && r.values == n.values
      && Unnamed(r.nodes, InstancesTag) == Unnamed(n.nodes, InstancesTag)
      && (forall other :: other != InstancesTag ==> GetNodes(r, other) == GetNodes(n, other))
      && GetNodes(r, InstancesTag) == recs
  {
    forall other | other != InstancesTag
      ensures GetNodes(Rewrite(n, recs), other) == GetNodes(n, other)
    {
      NamedAppend(Unnamed(n.nodes, InstancesTag), recs, InstancesTag);
      NamedAppend(Unnamed(n.nodes, InstancesTag), recs, other);
      UnnamedKeepsOthers(n.nodes, InstancesTag, other);
      NamedEmpty(recs, other);
      assert Named(n.nodes, other) + [] == Named(n.nodes, other);
    }
    var kept := Unnamed(n.nodes, InstancesTag);
    NamedAppend(kept, recs, InstancesTag);
    UnnamedAppend(kept, recs, InstancesTag);
    NamedEmpty(kept, InstancesTag);
    NamedAll(recs, InstancesTag);
    UnnamedIdempotent(n.nodes, InstancesTag);
    assert kept + [] == kept;
    assert [] + recs == recs;
  }

  /** Rewriting forgets the `Instances` children it found: the result depends only on the rest. */
  lemma RewriteForgets(n: ConfigNode, recs: seq<ConfigNode>)
    requires forall i :: 0 <= i < |recs| ==> recs[i].name == InstancesTag
    ensures RemoveNodes(Rewrite(n, recs), InstancesTag) == RemoveNodes(n, InstancesTag)
  {
    RewriteShape(n, recs);
  }

  /** Saving twice with the same records is saving once. */
  lemma RewriteTwice(n: ConfigNode, a: seq<ConfigNode>, b: seq<ConfigNode>)
    requires forall i :: 0 <= i < |a| ==> a[i].name == InstancesTag
    ensures Rewrite(Rewrite(n, a), b) == Rewrite(n, b)
  {
    RewriteForgets(n, a);
  }

  /**
   * The records a save writes are read back by the load as the placements
   * they were written from, in order.
   */
  lemma {:induction false} ParseInstanceRecords(ps: seq<Placement>, codec: Codec, m: string)
    requires forall p :: p in ps ==> codec.RoundTripsOn(p)
    ensures ParseRecords(InstanceRecords(ps, codec), codec, m) == Ok(ps)
  {
    if ps != [] {
      InstanceRecordsTail(ps, codec);
      RecordRoundTrip(ps[0], codec, m);
      ParseInstanceRecords(ps[1..], codec, m);
      ParseRecordsCons(InstanceRecords(ps, codec), codec, m, ps[0], ps[1..]);
      assert [ps[0]] + ps[1..] == ps;
    }
  }

  /** Reading records whose first reads as `p` and whose rest reads as `ps` gives `p` then `ps`. */
  lemma ParseRecordsCons(recs: seq<ConfigNode>, codec: Codec, m: string, p: Placement, ps: seq<Placement>)
    requires recs != [] && ParseRecord(recs[0], codec, m) == Ok(p) && ParseRecords(recs[1..], codec, m) == Ok(ps)
    ensures ParseRecords(recs, codec, m) == Ok([p] + ps)
  {
  }

  /** The records of a non-empty list are the first one's record followed by the rest's records. */
  lemma InstanceRecordsTail(ps: seq<Placement>, codec: Codec)
    requires ps != []
    ensures InstanceRecords(ps, codec)[0] == InstanceRecord(ps[0], codec)
    ensures InstanceRecords(ps, codec)[1..] == InstanceRecords(ps[1..], codec)
  {
    var recs := InstanceRecords(ps, codec);
    var tail := InstanceRecords(ps[1..], codec);
    assert |recs[1..]| == |tail|;
    forall i | 0 <= i < |tail|
      ensures recs[1..][i] == tail[i]
    {
      assert ps[1..][i] == ps[i + 1];
    }
  }

  /**
   * Save then load: a definition whose node was rewritten with the records
   * of `ps` (non-empty) loads, under the same model URL, exactly `ps`.
   */
  lemma SaveThenLoad(idx: Index, url: string, n: ConfigNode, ps: seq<Placement>, codec: Codec, m: string)
    requires forall p :: p in ps ==> codec.RoundTripsOn(p)
    requires idx.fault.None? && WellFormed(idx)
    requires GetValue(n, "mesh").Some? && GetValue(n, "mesh").value != ""
    requires ModelUrlFor(url, GetValue(n, "mesh").value) == Ok(m)
    requires m !in idx.models && ps != []
    ensures var r := IndexDefinition(idx, UrlConfig(url, Rewrite(n, InstanceRecords(ps, codec))), codec);
      && r.fault.None? && r.models == idx.models[m := url]
      && r.records == idx.records[m := ps] && r.order == idx.order + [m]
  {
    var recs := InstanceRecords(ps, codec);
    InstanceRecordsNamed(ps, codec);
    RewriteShape(n, recs);
    var d := UrlConfig(url, Rewrite(n, recs));
    ParseInstanceRecords(ps, codec, m);
    DefinitionLoaded(idx, d, codec, m, ps);
  }

  /** The state of a save pass: the database, the files written so far, the exception that stopped it. */
  datatype SaveState = SaveState(db: map<string, ConfigNode>, files: seq<SavedFile>, fault: Option<Fault>)

  /**
   * The config URL whose node a registry key is saved to: the first object's
   * ConfigURL, or for an empty list the model list's entry for the key.
   */
  function TargetUrl(key: string, list: seq<Tracked>, models: map<string, string>): (r: Result<string>)
    ensures r.Err? <==> list == [] && key !in models
    ensures r.Err? ==> r.fault == MissingModelEntry(key)
    ensures list != [] ==> r == Ok(list[0].configUrl)
    ensures list == [] && key in models ==> r == Ok(models[key])
  {
    if list != [] then Ok(list[0].configUrl)
    else if key in models then Ok(models[key])
    else Err(MissingModelEntry(key))
  }

  /**
   * One iteration of WriteSessionConfigs' loop over the registry keys. The
   * path is computed before the node is used, so a URL without '/' faults
   * before a missing node does.
   */
  function SaveKey(st: SaveState, key: string, list: seq<Tracked>, models: map<string, string>,
                   codec: Codec, root: string): (r: SaveState)
    requires st.fault.None?
    ensures r.fault.Some? ==> r.db == st.db && r.files == st.files
    ensures r.fault.Some? <==> TargetUrl(key, list, models).Err? || ConfigFilePath(TargetUrl(key, list, models).value).Err?
                               || TargetUrl(key, list, models).value !in st.db
    ensures r.fault.None? ==> r.db.Keys == st.db.Keys && |r.files| == |st.files| + 1 && r.files[..|st.files|] == st.files
  {
    match TargetUrl(key, list, models)
    case Err(f) => st.(fault := Some(f))
    case Ok(url) =>
      match ConfigFilePath(url)
      case Err(f) => st.(fault := Some(f))
      case Ok(path) =>
        if url !in st.db then st.(fault := Some(MissingConfigNode(url)))
        else
          var node := Rewrite(st.db[url], InstanceRecords(Placements(list), codec));
          SaveState(st.db[url := node],
                    st.files + [SavedFile(root + DataDirectory + path, SaveHeader, ConfigNode(StaticTag, [], [node]))],
                    None)
  }

  /** The rest of the save loop; an exception ends it. */
  function SaveKeys(st: SaveState, keys: seq<string>, lists: map<string, seq<Tracked>>,
                    models: map<string, string>, codec: Codec, root: string): (r: SaveState)
    requires forall k :: k in keys ==> k in lists
    ensures st.fault.Some? ==> r == st
    ensures r.db.Keys == st.db.Keys
    ensures |st.files| <= |r.files| <= |st.files| + |keys| && r.files[..|st.files|] == st.files
    decreases |keys|
  {
    if keys == [] || st.fault.Some? then st
    else SaveKeys(SaveKey(st, keys[0], lists[keys[0]], models, codec, root), keys[1..], lists, models, codec, root)
  }

  /** The save loop's step: the next key is saved, then the rest. */
  lemma SaveKeysStep(st: SaveState, keys: seq<string>, i: nat, lists: map<string, seq<Tracked>>,
                     models: map<string, string>, codec: Codec, root: string)
    requires i < |keys| && st.fault.None? && forall k :: k in keys ==> k in lists
    ensures SaveKeys(st, keys[i..], lists, models, codec, root)
         == SaveKeys(SaveKey(st, keys[i], lists[keys[i]], models, codec, root), keys[i + 1..], lists, models, codec, root)
  {
    assert keys[i..][1..] == keys[i + 1..];
  }

  /**
   * Saving one key whose node is found: the node at its URL keeps its name,
   * values and other children and holds one record per object, in list
   * order; no other URL changes; one file is written to the URL's .cfg path
   * under GameData/, holding the node inside a STATIC node.
   */
  lemma SavedKey(st: SaveState, key: string, list: seq<Tracked>, models: map<string, string>,
                 codec: Codec, root: string, url: string)
    requires st.fault.None? && TargetUrl(key, list, models) == Ok(url)
    requires '/' in url && url in st.db
    ensures var r := SaveKey(st, key, list, models, codec, root);
      var node := r.db[url];
      && r.fault.None? && r.db.Keys == st.db.Keys
      && (forall u :: u in st.db && u != url ==> r.db[u] == st.db[u])
      && node.name == st.db[url].name && node.values == st.db[url].values
      && Unnamed(node.nodes, InstancesTag) == Unnamed(st.db[url].nodes, InstancesTag)
      && (forall other :: other != InstancesTag ==> GetNodes(node, other) == GetNodes(st.db[url], other))
      && GetNodes(node, InstancesTag) == InstanceRecords(Placements(list), codec)
      && r.files == st.files + [SavedFile(root + DataDirectory + ConfigFilePath(url).value, SaveHeader,
                                          ConfigNode(StaticTag, [], [node]))]
  {
    var ps := Placements(list);
    InstanceRecordsNamed(ps, codec);
    RewriteShape(st.db[url], InstanceRecords(ps, codec));
  }

  /** A key whose list is empty has every `Instances` child of its model's definition removed. */
  lemma EmptyListCleared(st: SaveState, key: string, models: map<string, string>, codec: Codec, root: string)
    requires st.fault.None? && key in models
    requires '/' in models[key] && models[key] in st.db
    ensures var r := SaveKey(st, key, [], models, codec, root);
      && r.fault.None?
      && r.db[models[key]] == RemoveNodes(st.db[models[key]], InstancesTag)
  {
    assert InstanceRecords(Placements([]), codec) == [];
    assert RemoveNodes(st.db[models[key]], InstancesTag).nodes + [] == RemoveNodes(st.db[models[key]], InstancesTag).nodes;
  }

  /** A save pass without exception writes one file per registry key. */
  lemma {:induction false} SaveKeysFileCount(st: SaveState, keys: seq<string>, lists: map<string, seq<Tracked>>,
                                            models: map<string, string>, codec: Codec, root: string)
    requires forall k :: k in keys ==> k in lists
    requires st.fault.None?
    ensures var r := SaveKeys(st, keys, lists, models, codec, root);
      r.fault.None? ==> |r.files| == |st.files| + |keys|
    decreases |keys|
  {
    if keys != [] {
      var next := SaveKey(st, keys[0], lists[keys[0]], models, codec, root);
      if next.fault.None? {
        SaveKeysFileCount(next, keys[1..], lists, models, codec, root);
      }
    }
  }

  /** The URL one registry key is saved to, if it resolves. */
  function Target(key: string, list: seq<Tracked>, models: map<string, string>): set<string>
  {
    match TargetUrl(key, list, models)
    case Ok(u) => {u}
    case Err(_) => {}
  }

  /** The URLs a save of `keys` resolves to. */
  ghost function Targets(keys: seq<string>, lists: map<string, seq<Tracked>>, models: map<string, string>): set<string>
    requires forall k :: k in keys ==> k in lists
    decreases |keys|
  {
    if keys == [] then {} else Target(keys[0], lists[keys[0]], models) + Targets(keys[1..], lists, models)
  }

  /**
   * Two databases with the same URLs whose nodes differ at most in their
   * `Instances` children, and only at URLs in `touched`.
   */
  ghost predicate Agree(dbA: map<string, ConfigNode>, dbB: map<string, ConfigNode>, touched: set<string>)
  {
    && dbA.Keys == dbB.Keys
    && (forall u :: u in dbA ==> RemoveNodes(dbA[u], InstancesTag) == RemoveNodes(dbB[u], InstancesTag))
    && (forall u :: u in dbA && u !in touched ==> dbA[u] == dbB[u])
  }

  /** Agreeing databases hold, at every URL, the same values and the same children of every other name. */
  lemma AgreeKeepsOthers(dbA: map<string, ConfigNode>, dbB: map<string, ConfigNode>, touched: set<string>)
    requires Agree(dbA, dbB, touched)
    ensures forall u, other :: u in dbA && other != InstancesTag ==>
      u in dbB && dbA[u].values == dbB[u].values && GetNodes(dbA[u], other) == GetNodes(dbB[u], other)
  {
    forall u, other | u in dbA && other != InstancesTag
      ensures u in dbB && dbA[u].values == dbB[u].values && GetNodes(dbA[u], other) == GetNodes(dbB[u], other)
    {
      assert RemoveNodes(dbA[u], InstancesTag) == RemoveNodes(dbB[u], InstancesTag);
      RemoveNodesKeeps(dbA[u], InstancesTag);
      RemoveNodesKeeps(dbB[u], InstancesTag);
    }
  }

  lemma AgreeChain(a: map<string, ConfigNode>, b: map<string, ConfigNode>, c: map<string, ConfigNode>,
                   s: set<string>, t: set<string>)
    requires Agree(a, b, s) && Agree(b, c, t)
    ensures Agree(a, c, s + t)
  {
  }

  /** Saving one key changes only the `Instances` children of the node it targets. */
  lemma SaveKeyFrame(st: SaveState, key: string, list: seq<Tracked>, models: map<string, string>,
                     codec: Codec, root: string)
    requires st.fault.None?
    ensures Agree(st.db, SaveKey(st, key, list, models, codec, root).db, Target(key, list, models))
  {
    var url := TargetUrl(key, list, models);
    if url.Ok? && '/' in url.value && url.value in st.db {
      var recs := InstanceRecords(Placements(list), codec);
      InstanceRecordsNamed(Placements(list), codec);
      RewriteForgets(st.db[url.value], recs);
    }
  }

  /**
   * A save pass changes only the `Instances` children, and only of the nodes
   * it targets: every node keeps its values and its children of every other
   * name, in order.
   */
  lemma SaveKeysFrame(st: SaveState, keys: seq<string>, lists: map<string, seq<Tracked>>,
                                        models: map<string, string>, codec: Codec, root: string)
    requires forall k :: k in keys ==> k in lists
    ensures Agree(st.db, SaveKeys(st, keys, lists, models, codec, root).db, Targets(keys, lists, models))
    ensures var r := SaveKeys(st, keys, lists, models, codec, root).db;
      forall u, other :: u in st.db && other != InstancesTag ==>
        u in r && r[u].values == st.db[u].values && GetNodes(r[u], other) == GetNodes(st.db[u], other)
  {
    SaveKeysFrameAgree(st, keys, lists, models, codec, root);
    AgreeKeepsOthers(st.db, SaveKeys(st, keys, lists, models, codec, root).db, Targets(keys, lists, models));
  }

  lemma {:induction false} SaveKeysFrameAgree(st: SaveState, keys: seq<string>, lists: map<string, seq<Tracked>>,
                                             models: map<string, string>, codec: Codec, root: string)
    requires forall k :: k in keys ==> k in lists
    ensures Agree(st.db, SaveKeys(st, keys, lists, models, codec, root).db, Targets(keys, lists, models))
    decreases |keys|
  {
    if keys != [] && st.fault.None? {
      var next := SaveKey(st, keys[0], lists[keys[0]], models, codec, root);
      SaveKeyFrame(st, keys[0], lists[keys[0]], models, codec, root);
      SaveKeysFrameAgree(next, keys[1..], lists, models, codec, root);
      AgreeChain(st.db, next.db, SaveKeys(next, keys[1..], lists, models, codec, root).db,
                 Target(keys[0], lists[keys[0]], models), Targets(keys[1..], lists, models));
    }
  }

  /** Saving one key from agreeing databases gives the same outcome and agreeing databases. */
  lemma SaveKeyAgree(stA: SaveState, stB: SaveState, key: string, list: seq<Tracked>,
                     models: map<string, string>, codec: Codec, root: string, rest: set<string>)
    requires stA.fault.None? && stB.fault.None? && stA.files == stB.files
    requires Agree(stA.db, stB.db, Target(key, list, models) + rest)
    ensures var a := SaveKey(stA, key, list, models, codec, root);
      var b := SaveKey(stB, key, list, models, codec, root);
      && a.fault == b.fault && a.files == b.files && (a.fault.None? ==> Agree(a.db, b.db, rest))
  {
    var url := TargetUrl(key, list, models);
    if url.Ok? && '/' in url.value && url.value in stA.db {
      var recs := InstanceRecords(Placements(list), codec);
      var node := Rewrite(stA.db[url.value], recs);
      assert Rewrite(stB.db[url.value], recs) == node;
      AgreeUpdate(stA.db, stB.db, url.value, node, rest);
    }
  }

  /** Writing the same node at a touched URL keeps two databases in agreement elsewhere. */
  lemma AgreeUpdate(dbA: map<string, ConfigNode>, dbB: map<string, ConfigNode>, u: string, node: ConfigNode,
                    rest: set<string>)
    requires Agree(dbA, dbB, {u} + rest) && u in dbA
    ensures Agree(dbA[u := node], dbB[u := node], rest)
  {
  }

  /**
   * A save pass only looks at the rest of a targeted node: from databases
   * that agree it writes the same files, meets the same exception and, when
   * it meets none, leaves the same database.
   */
  lemma {:induction false} SaveKeysAgree(stA: SaveState, stB: SaveState, keys: seq<string>,
                                        lists: map<string, seq<Tracked>>, models: map<string, string>,
                                        codec: Codec, root: string)
    requires forall k :: k in keys ==> k in lists
    requires stA.fault.None? && stB.fault.None? && stA.files == stB.files
    requires Agree(stA.db, stB.db, Targets(keys, lists, models))
    ensures var a := SaveKeys(stA, keys, lists, models, codec, root);
      var b := SaveKeys(stB, keys, lists, models, codec, root);
      && a.fault == b.fault && a.files == b.files
      && (a.fault.None? ==> a.db == b.db)
    decreases |keys|
  {
    if keys == [] {
      assert stA.db == stB.db;
    } else {
      var nextA := SaveKey(stA, keys[0], lists[keys[0]], models, codec, root);
      var nextB := SaveKey(stB, keys[0], lists[keys[0]], models, codec, root);
      SaveKeysAgreeStep(stA, stB, keys, lists, models, codec, root);
      if nextA.fault.None? {
        SaveKeysAgree(nextA, nextB, keys[1..], lists, models, codec, root);
      }
    }
  }

  /** The first key of a save pass from agreeing databases: same outcome, and agreement on the rest's targets. */
  lemma SaveKeysAgreeStep(stA: SaveState, stB: SaveState, keys: seq<string>,
                          lists: map<string, seq<Tracked>>, models: map<string, string>,
                          codec: Codec, root: string)
    requires keys != [] && forall k :: k in keys ==> k in lists
    requires stA.fault.None? && stB.fault.None? && stA.files == stB.files
    requires Agree(stA.db, stB.db, Targets(keys, lists, models))
    ensures var nextA := SaveKey(stA, keys[0], lists[keys[0]], models, codec, root);
      var nextB := SaveKey(stB, keys[0], lists[keys[0]], models, codec, root);
      && nextA.fault == nextB.fault && nextA.files == nextB.files
      && (nextA.fault.None? ==> Agree(nextA.db, nextB.db, Targets(keys[1..], lists, models)))
      && SaveKeys(stA, keys, lists, models, codec, root) == SaveKeys(nextA, keys[1..], lists, models, codec, root)
      && SaveKeys(stB, keys, lists, models, codec, root) == SaveKeys(nextB, keys[1..], lists, models, codec, root)
  {
    var k := keys[0];
    assert Targets(keys, lists, models) == Target(k, lists[k], models) + Targets(keys[1..], lists, models);
    SaveKeyAgree(stA, stB, k, lists[k], models, codec, root, Targets(keys[1..], lists, models));
  }

  /** Saving a database that was just saved from the same registry changes nothing. */
  lemma SaveIdempotent(db: map<string, ConfigNode>, keys: seq<string>, lists: map<string, seq<Tracked>>,
                       models: map<string, string>, codec: Codec, root: string)
    requires forall k :: k in keys ==> k in lists
    requires SaveKeys(SaveState(db, [], None), keys, lists, models, codec, root).fault.None?
    ensures var once := SaveKeys(SaveState(db, [], None), keys, lists, models, codec, root);
      SaveKeys(SaveState(once.db, [], None), keys, lists, models, codec, root) == once
  {
    var once := SaveKeys(SaveState(db, [], None), keys, lists, models, codec, root);
    SaveKeysFrameAgree(SaveState(db, [], None), keys, lists, models, codec, root);
    SaveKeysAgree(SaveState(db, [], None), SaveState(once.db, [], None), keys, lists, models, codec, root);
  }
}
