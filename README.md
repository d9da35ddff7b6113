# KerbTown core, modelled in Dafny

KerbTown is a Kerbal Space Program add-on for placing static objects (buildings,
launch pads, props) on a celestial body while in flight. Every placeable model is
declared by a `STATIC` definition in the game database. The definition carries a
`mesh` value and any number of `Instances` records, each holding one placed copy.
At start-up the add-on reads every definition:

- the model list maps each model URL to the config URL of its definition;
- the instance registry maps each model URL to the ordered list of its static objects.

In flight the user can:

- pick a model;
- create a copy at the vessel's position;
- select, move and delete copies;
- save, which rewrites the `Instances` records of every definition and writes its `.cfg` file.

The model covers the parts of `KerbTown.cs` that decide identities, contents and order:

- **PathStrings** — `String.LastIndexOf`, the `SecondLastIndex` extension, and the three strings built from them: a definition's model URL, the physical `.cfg` path of a config URL, and an object's NameID.
- **ConfigTree** — the `ConfigNode` operations used on definitions: `GetValue`, `HasNode`, `GetNodes` and `RemoveNodes`.
- **Records** — a placement and its six-key `Instances` record, both how it is written and how it is read back. Number and vector text forms are a `Codec` parameter.
- **ConfigIndex** — what `GenerateModelLists` computes, as a function of the definitions: the model list, the registry keys in insertion order, the loaded placements, and the exception that stops the load.
- **Persistence** — what `WriteSessionConfigs` computes, as a function of the registry and the game database: the rewritten definition nodes, the files written, and the exception that stops the save.
- **Statics** — the `StaticObject` class (ObjectID, NameID, the `Reorientate` hand-off), the `PQSCity` component it drives, and the zero-vector sentinels that `InstantiateStatic` replaces.
- **Session** — the `KerbTown` class itself. Its fields are the registry, the model list, the selected model and config URL, and the selected object and its ID. Its methods cover:
  - the load loop;
  - the save loop;
  - the `Create` button;
  - the model toggle;
  - the selection entries;
  - the `Delete` button.

  Each method is proved against the functions above. The engine calls that change what is drawn (`Manipulate`, `Destroy`) are recorded in order in `hostCalls`. The class invariant says that exactly the selected object is left highlighted.

The main results:

- **Save then load.** A saved definition loads back exactly the placements it was saved from, in order (`SaveThenLoad`).
- **Saving twice is saving once** (`SaveIdempotent`).
- **A save only rewrites `Instances` children**, and only those of the definitions it targets (`SaveKeysFrame`).
- **Model URLs.**
  - A model URL is the definition's directory plus the mesh stem (`ModelUrlShape`).
  - Two meshes with the same stem in one directory collide (`ModelUrlCollision`).
- **Load and save loops.** Each loop computes exactly its reference function (`GenerateModelLists`, `WriteSessionConfigs`).
- **Create, select and delete** keep the registry's shape and the selection/highlight invariant.
  - `Delete` removes the first occurrence of the selected object and nothing else (`RemoveFirstCount`).
  - Deleting an object that was just created restores its list (`RemoveFirstUndoesAppend`).

## Model

| member | source | states |
|---|---|---|
| PathStrings.LastIndexOf | KerbTown.cs:970 | -1 exactly when the character is absent; otherwise the result holds the character and no later position does |
| PathStrings.SecondLastIndex | KerbTown.cs:968-979 | -1 exactly when the character occurs fewer than twice; otherwise the result holds it, lies below the last occurrence, and nothing between them holds it; callers must not reach a single occurrence at index 0, where `LastIndexOf(c, -1)` throws |
| PathStrings.ModelUrlFor | KerbTown.cs:193-202 | a model URL is produced exactly when the mesh has a '.' and the config URL has at least two '/'; otherwise the `Substring` fault names which one is missing |
| PathStrings.ModelUrlShape | KerbTown.cs:200-202 | config URL `dir/asset/file` with mesh `stem.ext` gives model URL `dir/stem` |
| PathStrings.ModelUrlCollision | KerbTown.cs:200-206 | two definitions in one directory whose meshes share a stem get the same model URL, so the second `_modelList.Add` throws |
| PathStrings.ConfigFilePath | KerbTown.cs:97 | a path exists exactly when the URL has a '/'; it is the URL cut at its last '/' followed by ".cfg" |
| PathStrings.ConfigFilePathShape | KerbTown.cs:123 | config URL `dir/file` is stored in `dir.cfg` |
| PathStrings.NameId | KerbTown.cs:928 | NameID is the model URL's last '/'-free segment (a suffix starting after a '/' or at the start) followed by " (ID)" |
| ConfigTree.GetValue | KerbTown.cs:193-219 | null exactly when no pair has the key; otherwise the value of a pair stored under that key |
| ConfigTree.FirstValueIn | KerbTown.cs:214-219 | a value GetValue finds is stored under the requested key |
| ConfigTree.FirstValueAt | KerbTown.cs:214-219 | GetValue returns the value of the first pair with the key, wherever it sits |
| ConfigTree.FirstValueNone | KerbTown.cs:193-194 | GetValue yields null exactly when no pair has the key |
| ConfigTree.Named | KerbTown.cs:212 | GetNodes returns no more children than there are, all with the requested name |
| ConfigTree.HasNode | KerbTown.cs:209-212 | HasNode holds exactly when GetNodes is non-empty |
| ConfigTree.Unnamed | KerbTown.cs:100 | the children left by a removal are no more than before and none of them has the removed name |
| ConfigTree.RemoveNodes | KerbTown.cs:100 | the node keeps its name and values and has no child of that name left |
| ConfigTree.RemoveNodesKeeps | KerbTown.cs:100 | the removal keeps every child of every other name, in order |
| ConfigTree.UnnamedKeeps | KerbTown.cs:100 | a node with no child of that name loses nothing |
| ConfigTree.UnnamedKeepsOthers | KerbTown.cs:100 | the children called any other name survive the removal, in order |
| ConfigTree.UnnamedIdempotent | KerbTown.cs:100 | removing the children of a name a second time removes nothing more |
| Records.InstanceRecord | KerbTown.cs:106-113 | a written record is an `Instances` node with six values and no children |
| Records.InstanceRecordKeys | KerbTown.cs:106-113 | GetValue on a written record finds, under each of the six keys, exactly the text written for that field: the codec's vector form of the radial position and orientation, its number form of the angle, offset and range, and the body name |
| Records.ParseRecord | KerbTown.cs:214-219 | the record fails exactly when one of the five numeric or vector fields is missing or does not parse; otherwise every field is the parsed value, and a missing CelestialBody gives "" |
| Records.RecordRoundTrip | KerbTown.cs:214-219 | a record written from a placement (lines 106-113) reads back as that placement, whenever the codec reads back that placement's five written numbers and vectors |
| Records.InstanceRecords | KerbTown.cs:106-115 | one record per placement, in the same order |
| ConfigIndex.Append | KerbTown.cs:221-235 | the placement is added to the end of that model's list (a new list if absent); a new key joins the key order; nothing else changes |
| ConfigIndex.AddRecords | KerbTown.cs:212-236 | the record loop keeps the model list; it ends with no fault or with MalformedRecord for its model; the model's list grows by at most one placement per record, and every other model's list is unchanged |
| ConfigIndex.AddRecordsStep | KerbTown.cs:212-236 | one step of the record loop: a record that does not parse stops the load with its fault, a record that parses is appended before the rest is read |
| ConfigIndex.AppendAllShape | KerbTown.cs:221-235 | appending several placements adds them, in order, to the end of the model's list; a new key joins the order once |
| ConfigIndex.AddRecordsParsed | KerbTown.cs:212-236 | when every record parses, the load appends the parsed placements one by one |
| ConfigIndex.AddRecordsOk | KerbTown.cs:212-236 | when every record parses, the model's list grows by the parsed placements in record order, with no fault |
| ConfigIndex.AddRecordsErr | KerbTown.cs:214-218 | when some record does not parse, the load ends with that record's fault |
| ConfigIndex.AddRecordsWellFormed | KerbTown.cs:212-236 | the record loop keeps the keys distinct, ordered, known to the model list and non-empty |
| ConfigIndex.IndexDefinition | KerbTown.cs:191-236 | reading one definition keeps every model-list entry and adds at most one, which maps to the definition's config URL |
| ConfigIndex.IndexDefinitionWellFormed | KerbTown.cs:191-236 | reading one definition keeps the index well formed |
| ConfigIndex.IndexConfigs | KerbTown.cs:185-238 | a load that has already faulted stays as it is; otherwise every model-list entry is kept and every new entry maps to the config URL of one of the definitions read |
| ConfigIndex.IndexConfigsWellFormed | KerbTown.cs:185-238 | the whole load keeps the index well formed |
| ConfigIndex.IndexConfigsStep | KerbTown.cs:191-237 | one step of the definition loop: the definition is read, then the rest |
| ConfigIndex.SkippedDefinition | KerbTown.cs:193-198 | a definition whose mesh is missing or empty changes nothing |
| ConfigIndex.DuplicateModelUrlFaults | KerbTown.cs:206 | a model URL already in the model list makes the load fail with DuplicateModelUrl |
| ConfigIndex.DefinitionLoaded | KerbTown.cs:193-236 | a definition that loads cleanly adds its model URL → config URL pair and its placements, in order, as a new key; with no records it creates no key |
| Persistence.Rewrite | KerbTown.cs:100-115 | the rewritten node keeps its name and values and ends with the new records |
| Persistence.RewriteSnoc | KerbTown.cs:106-115 | adding the next record to the rewritten node is the rewrite with one more placement |
| Persistence.RewriteNothing | KerbTown.cs:124 | a rewrite with no records only removes the `Instances` children |
| Persistence.InstanceRecordsNamed | KerbTown.cs:106 | every written record is called `Instances` |
| Persistence.RewriteShape | KerbTown.cs:100-115 | the rewritten node keeps its name, values and every child that is not `Instances` in order, so every other name's children are unchanged, and its `Instances` children are exactly the new records |
| Persistence.RewriteForgets | KerbTown.cs:100 | the rewrite's result does not depend on the `Instances` children that were there before |
| Persistence.RewriteTwice | KerbTown.cs:100-115 | rewriting a rewritten node is one rewrite with the second records |
| Persistence.ParseRecordsCons | KerbTown.cs:212-219 | records whose first reads as `p` and whose rest reads as `ps` read as `p` followed by `ps` |
| Persistence.ParseInstanceRecords | KerbTown.cs:212-219 | the records written from a list of placements read back as that list, in order, whenever the codec reads back each placement's written numbers and vectors |
| Persistence.SaveThenLoad | KerbTown.cs:89-116 | a definition saved with a non-empty list of placements loads exactly that list under its model URL, as a new key, whenever the codec reads back each placement's written numbers and vectors |
| Persistence.TargetUrl | KerbTown.cs:94-122 | a key saves to its first object's ConfigURL, or with no objects to its model-list entry; it fails, with MissingModelEntry, exactly when the list is empty and the key has no entry |
| Persistence.SaveKey | KerbTown.cs:85-129 | one key faults exactly when its target URL cannot be found, has no '/', or has no node in the database, and then changes neither database nor files; otherwise the database keeps its URLs and exactly one file is added after the earlier ones |
| Persistence.SaveKeys | KerbTown.cs:83-130 | a save that has already faulted stays as it is; otherwise the database keeps its URLs and the files written before are kept, followed by at most one file per key |
| Persistence.SaveKeysStep | KerbTown.cs:83-130 | one step of the save loop: the next key is saved, then the rest |
| Persistence.SavedKey | KerbTown.cs:89-129 | saving a key whose node exists changes only that node: it keeps name, values and every child of another name, in order, and its `Instances` children are one record per object in list order; one file goes to `GameData/` plus the `.cfg` path, holding the node in a STATIC node |
| Persistence.EmptyListCleared | KerbTown.cs:120-125 | a key with an empty list has every `Instances` child of its model's definition removed |
| Persistence.SaveKeysFileCount | KerbTown.cs:83-130 | a save with no exception writes one file per registry key |
| Persistence.SaveKeyFrame | KerbTown.cs:94-115 | saving one key changes only the `Instances` children of the node it targets |
| Persistence.AgreeKeepsOthers | KerbTown.cs:100 | databases that differ only in `Instances` children hold, at every URL, the same values and the same children of every other name |
| Persistence.SaveKeysFrame | KerbTown.cs:83-130 | a save changes only `Instances` children, and only those of targeted nodes; every node keeps its values and its children of every other name, in order |
| Persistence.SaveKeyAgree | KerbTown.cs:94-129 | saving one key from databases that differ only in targeted `Instances` children gives the same fault and files |
| Persistence.SaveKeysAgreeStep | KerbTown.cs:83-129 | the first key of a save from databases that differ only in targeted `Instances` children gives the same fault and files, and databases that differ only at the remaining targets |
| Persistence.SaveKeysAgree | KerbTown.cs:83-130 | a save from databases that differ only in targeted `Instances` children gives the same fault and files, and the same database when there is no fault |
| Persistence.SaveIdempotent | KerbTown.cs:83-130 | saving again from the saved database and the same registry gives exactly the same outcome |
| Statics.GetLatitude | KerbTown.cs:174-183 | 0 when no celestial object was found, otherwise the body's latitude of the position |
| Statics.GetLongitude | KerbTown.cs:163-172 | 0 when no celestial object was found, otherwise the body's longitude of the position |
| Statics.DefaultPosition | KerbTown.cs:249-255 | a zero radial position becomes the observer position; any other is kept |
| Statics.DefaultOrientation | KerbTown.cs:257-261 | the orientation is never zero afterwards; a non-zero one is kept |
| Statics.DefaultingSettles | KerbTown.cs:249-261 | the zero position and zero orientation sentinels are replaced once; values that are not sentinels are kept, and a replaced value is never zero again |
| Statics.PqsCity.constructor | KerbTown.cs:290-299 | the component takes the position, offset, angle, orientation and visibility range, with both to-sphere flags set |
| Statics.PqsCity.Orientate | KerbTown.cs:305 | orientation is requested once more; the settings are untouched |
| Statics.StaticObject.constructor | KerbTown.cs:905-929 | all placement fields are stored; a non-empty supplied ObjectID is kept, otherwise the random one is used; NameID is NameId(model URL, ObjectID) |
| Statics.StaticObject.Reorientate | KerbTown.cs:931-939 | without a PQSCity nothing happens; otherwise exactly position, offset, angle and orientation are copied into it and it is oriented once more |
| Session.RemoveFirst | KerbTown.cs:345 | `List.Remove`: an absent element leaves the list as it is; a present one shortens it by one |
| Session.RemoveFirstAt | KerbTown.cs:345 | removal cuts the list at the first occurrence and joins both sides |
| Session.RemoveFirstCount | KerbTown.cs:345 | removal takes away exactly one occurrence and nothing else (as multisets) |
| Session.RemoveFirstKeeps | KerbTown.cs:345 | removal keeps only elements that were there |
| Session.RemoveFirstUndoesAppend | KerbTown.cs:345 | removing an object just appended to a list it was not in restores the list |
| Session.FirstIndexWithId | KerbTown.cs:340 | `FirstOrDefault`: -1 exactly when no object has the ID; otherwise the first position holding it |
| Session.Toggle | KerbTown.cs:685-686 | the model half clears when the clicked model is selected and selects it otherwise; the config half is "" or the model's config URL, and is "" exactly when the model's config URL was already selected or is itself "" |
| Session.TogglePaired | KerbTown.cs:685-686 | when no two models share a config URL, a click keeps the model and its config URL paired: it selects the model with its URL or, if already selected, clears both |
| Session.SharedConfigUrlUnpairs | KerbTown.cs:686 | when two models share a config URL, switching from one to the other selects the second model with an empty config URL |
| Session.SourcedAppend | KerbTown.cs:221-235 | appending an object that carries its model URL and that model's config URL keeps every object sourced |
| Session.SourcedExtend | KerbTown.cs:206 | adding a new model URL to the model list keeps every object sourced |
| Session.PlacementsAppend | KerbTown.cs:221-235 | appending an object adds its placement to that key's placements and to no other |
| Session.RegistryShapeAppend | KerbTown.cs:704-715 | appending to a model's own list keeps keys distinct, ordered and known, and every object under its own model URL |
| Session.RegistryShapeRemove | KerbTown.cs:345 | removing an object from a list keeps the registry's shape |
| Session.SelectionStateAppend | KerbTown.cs:704-715 | appending an object keeps the selected object registered |
| Session.MirrorShape | KerbTown.cs:185-238 | a registry that mirrors a well-formed load has the registry's shape |
| Session.KerbTown.constructor | KerbTown.cs:15-22 | empty registry and model list; nothing selected; no host calls |
| Session.KerbTown.NewInstance | KerbTown.cs:224-225 | a new object with the given model URL, config URL and placement |
| Session.KerbTown.LoadInstance | KerbTown.cs:221-235 | the registry mirrors Append of the parsed placement |
| Session.KerbTown.LoadRecords | KerbTown.cs:212-236 | the record loop leaves the registry mirroring AddRecords and returns its fault |
| Session.KerbTown.AddModel | KerbTown.cs:206 | the new model URL enters the model list with its config URL; the registry and key order are untouched and stay mirrored |
| Session.KerbTown.LoadDefinition | KerbTown.cs:191-236 | one definition leaves registry and model list mirroring IndexDefinition and returns its fault |
| Session.KerbTown.GenerateModelLists | KerbTown.cs:185-238 | model list, key order, fault and each key's placements are exactly IndexConfigs' from an empty index; every object carries its definition's config URL; the class invariant holds |
| Session.KerbTown.SaveDefinition | KerbTown.cs:85-129 | the database, files and fault after one key are exactly SaveKey's |
| Session.KerbTown.WriteSessionConfigs | KerbTown.cs:78-134 | the database, files and fault are exactly SaveKeys' over the keys in dictionary order |
| Session.KerbTown.GetStaticObjectFromId | KerbTown.cs:338-341 | throws exactly when the selected model URL is not a key; null exactly when no object in that list has the ID; otherwise the first object with the ID |
| Session.KerbTown.GetDefaultStaticObject | KerbTown.cs:348-351 | a new object at the zero sentinel, rotation 0, pointing up, visible from 1000, on no body, with the selected model and config URL and a fresh ID |
| Session.KerbTown.InstantiateStatic | KerbTown.cs:240-309 | sentinels are replaced (observer position, up); latitude and longitude come from the current celestial object; a new PQSCity holds the object's placement and has been oriented once |
| Session.KerbTown.Create | KerbTown.cs:697-729 | with no model selected nothing changes; with no celestial object it throws after recording the body; otherwise a default object is appended to the selected model's list, placed at the observer on the body, and selected, the old selection unhighlighted first; the invariant holds |
| Session.KerbTown.AddSelected | KerbTown.cs:703-728 | the new object is appended, placed and becomes the highlighted selection |
| Session.KerbTown.AddDefaultObject | KerbTown.cs:703-719 | the new object is appended to the selected model's list and placed at the observer on the body; the selection is untouched |
| Session.KerbTown.RegisterDefaultObject | KerbTown.cs:703-715 | the default object is appended to the selected model's list (a new key joins the order); the invariant holds |
| Session.KerbTown.ToggleModel | KerbTown.cs:677-687 | the selected model and the selected config URL each toggle on their own |
| Session.KerbTown.SelectEntry | KerbTown.cs:752-775 | clicking the selected entry unhighlights and clears the selection; clicking another unhighlights the old selection and selects and highlights the entry |
| Session.KerbTown.Reselect | KerbTown.cs:769-774 | the old selection, if any, is unhighlighted, then the entry is selected and highlighted |
| Session.KerbTown.RemoveCurrentStaticObject | KerbTown.cs:343-346 | throws exactly when the key is missing; otherwise the first occurrence of the selection is removed from that list and nothing else changes |
| Session.KerbTown.Delete | KerbTown.cs:787-797 | the selection is cleared; if there was one, its object is destroyed and its first occurrence removed from its model's list (the key stays); the invariant holds |
| Session.KerbTown.Register | KerbTown.cs:704-715 | the object goes to the end of its key's list, creating the list and key if absent |

## Left out

- The IMGUI windows are not modelled: layout, colours, scroll views, the position and rotation nudge buttons and text fields, and the "Close" buttons. Only the button effects above are modelled.
- `Start`, `Update`, `OnGUI` and the GameEvents callbacks are not modelled; they are engine glue.
- `InstantiateStaticsFromInstanceList` (lines 63-76) is not modelled. For every loaded object, in key order, it does three things the model therefore does not capture:
  - it sets `_currentCelestialObj` (the model's `currentCelestial`) to the object's body, so after the loop that field holds the last loaded object's body;
  - it uses the result of `GetCelestialObject` without a null check, so a loaded record whose body is not in the scene throws, and `Start` ends before `_currentBodyName` and the GameEvents callbacks are set;
  - it calls `InstantiateStatic`, which replaces a loaded record's zero RadialPosition with the observer position and a zero Orientation with up (lines 249-261) and sets Latitude and Longitude. After `Start` the registry therefore differs from what `GenerateModelLists` produced for such records, and the next save writes the replaced values where the model writes zeros.
- `InstantiateStatic` models the placement part only. `GameDatabase.GetModel`, `SetLayerRecursively`, the Rigidbody, the LOD range object and `SetActive` are Unity scene operations.
- `GetCelestialObject` and `FlightGlobals.currentMainBody` are engine lookups. The body found, or none, is a parameter of `Create`.
- `GetSurfaceRadiusOffset` is a floating-point computation on the engine's PQS, and the observer position comes from the active vessel. Both are parameters.
- `GetLatitude` and `GetLongitude` are modelled by their null check. The engine's coordinate conversion is a function carried by the `Body` value.
- A generated ObjectID is a parameter as a whole. The source (lines 922-926) formats with "N2" the sum of the visibility range, rotation angle, radius offset, both vector magnitudes and `Random.Range(-1000000, 1000000)`. The only property used is that it is not the empty string.
- Character positions: Dafny strings are sequences of Unicode scalar values, while .NET counts UTF-16 code units. After a character outside the Basic Multilingual Plane, the indices that `LastIndexOf` and `SecondLastIndex` return differ from the source's. The model URL, `.cfg` path and NameID cut at those indices are still the same strings.
- The string overload of `SecondLastIndex` (lines 981-991) is not used by the core and is not modelled.
- `Manipulate` changes renderer and collider state. Only each call and its argument is recorded, in `hostCalls`. `Object.Destroy` is recorded the same way.
- Logging (`Extensions.LogError`, `LogWarning`, `LogInfo`) and the `Stopwatch` are not modelled.
- File I/O: `ConfigNode.Save` is modelled as a `SavedFile` value (path, header, node), appended to the list of files written.
- The game database is a map from config URL to node. `GetConfigs("STATIC")` is the sequence of definitions given to the load.
- Number and vector text forms (`float.ToString`/`float.Parse`, `WriteVector`/`ParseVector3`) are a `Codec` parameter. The round-trip lemmas hold for the placements whose written fields the codec reads back (`RoundTripsOn`), not for every placement.
- Culture: the save writes numbers with `ToString(CultureInfo.InvariantCulture)` (lines 109-112), but the load reads them with `float.Parse` in the current culture (lines 215-218). Under a culture whose decimal separator is ',', a saved fraction does not read back as written. The model has one codec for both directions, so this mismatch is not captured; `RoundTripsOn` is where it would fail.
- Dictionary order: enumerating `_instancedList.Keys` is modelled as insertion order (`keyOrder`). That is what .NET's `Dictionary` does when nothing has been removed, and nothing is removed here, but it is not a documented guarantee. The order decides the order of the files written and, when two keys target one node, which key's records are saved last.
- Unity `float`/`Vector3` arithmetic is modelled with reals. Vector equality with `Vector3.zero` is modelled as exact, although Unity's `==` is approximate.
- Records.ParseRecord: a missing `CelestialBody` value is read as "" rather than null. The save writes it back as "".
- Session.KerbTown.WriteSessionConfigs: each key's objects are read once, when the save begins, as (ConfigURL, placement) pairs. Nothing in the loop changes an object, so this matches the source; the contract is stated over that snapshot (`old(Tracks())`).
- Session.KerbTown.GenerateModelLists: the random ID drawn for each loaded object is taken from a parameter sequence. The contract does not say which ID each object gets.
- Session.KerbTown.InstantiateStatic: the `PQS` argument is not modelled. The observer position stands for `celestialPQS.GetRelativePosition(ActiveVessel.GetWorldPos3D())`.

Behaviour a reader of the add-on might not expect, which the model follows as the code has it:

- **Errors during the load.** A reader might expect the load to skip a bad definition, or a bad record, and carry on. The code has no exception handling, so it does not:
  - a mesh without '.' aborts the whole of `GenerateModelLists`;
  - a config URL with fewer than two '/' aborts it;
  - a duplicate model URL aborts it;
  - a record field that is missing or does not parse aborts it.

  The model stops at the first such fault (`IndexConfigs`, `GenerateModelLists`). Only a missing or empty `mesh` is skipped.
- **Errors during the save.** Any exception in the save ends the whole pass. This includes a config URL without '/', a node missing from the game database, and an empty list whose key is missing from the model list. The files written before it stay written (`SaveKeys`, `WriteSessionConfigs`).
- **Definitions without instances.** A definition with no `Instances` records creates a model-list entry but no registry key (`DefinitionLoaded`). Such a definition is only saved after an object of it has been created.
- **Deleted keys stay.** Deleting the last object of a model leaves its key with an empty list. The next save then clears that definition's `Instances` children (`EmptyListCleared`).
- **The config URL toggles on its own.** The selected config URL toggles independently of the selected model. When two models come from definitions with the same config URL, this leaves a model selected with an empty config URL (`SharedConfigUrlUnpairs`). An object created then has an empty ConfigURL. The save uses the ConfigURL of a key's first object only, so the next save fails with ConfigUrlWithoutDirectory only when that object is the first in its model's list. When the model already has loaded objects, the key is saved to the first object's node and the new object's record goes with it.
