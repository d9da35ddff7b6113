/**
 * The string index arithmetic KerbTown uses to derive identities:
 * String.LastIndexOf, Extensions.SecondLastIndex, the model URL of a STATIC
 * definition, the physical .cfg path of a config URL, and an object's NameID.
 */
module PathStrings {
  import opened Outcomes

  /** String.LastIndexOf(char): the index of the last `c` in `s`, or -1. */
  function LastIndexOf(s: string, c: char): (r: int)
    ensures -1 <= r < |s|
    ensures r == -1 <==> c !in s
    ensures 0 <= r ==> s[r] == c && c !in s[r + 1..]
  {
    if |s| == 0 then -1
    else if s[|s| - 1] == c then |s| - 1
    else
      assert s == s[..|s| - 1] + [s[|s| - 1]];
      var r := LastIndexOf(s[..|s| - 1], c);
      assert 0 <= r ==> s[r + 1..] == s[..|s| - 1][r + 1..] + [s[|s| - 1]];
      r
  }

  /** A position holding `c` with no `c` after it is the last index of `c`. */
  lemma LastIndexOfAt(s: string, c: char, p: nat)
    requires p < |s| && s[p] == c && c !in s[p + 1..]
    ensures LastIndexOf(s, c) == p
  {
  }

  /** `c` occurs exactly once in `a + [c] + b` when it occurs in neither part. */
  lemma CountAroundOne(a: string, c: char, b: string)
    requires c !in a && c !in b
    ensures multiset(a + [c] + b)[c] == 1
  {
    assert multiset(a + [c] + b) == multiset(a) + multiset{c} + multiset(b);
  }

  /** With no `c` below the last one, `c` occurs exactly once. */
  lemma OnlyOccurrence(s: string, c: char, last: nat)
    requires last < |s| && s[last] == c && c !in s[last + 1..] && c !in s[..last]
    ensures multiset(s)[c] == 1
  {
    assert s == s[..last] + [c] + s[last + 1..];
    CountAroundOne(s[..last], c, s[last + 1..]);
  }

  /** A `c` at `r` below the last `c` at `last` makes at least two. */
  lemma TwoOccurrences(s: string, c: char, r: nat, last: nat)
    requires r < last < |s| && s[r] == c && s[last] == c
    ensures multiset(s)[c] >= 2
  {
    assert s == s[..r] + [c] + s[r + 1..last] + [c] + s[last + 1..];
    assert multiset(s) == multiset(s[..r]) + multiset{c} + multiset(s[r + 1..last]) + multiset{c} + multiset(s[last + 1..]);
  }

  /**
   * Extensions.SecondLastIndex(char): the index of the second-to-last `c`, or -1.
   * When the only `c` is at index 0 the C# code calls LastIndexOf(c, -1),
   * which throws; callers must not reach that case.
   */
  function SecondLastIndex(s: string, c: char): (r: int)
    requires LastIndexOf(s, c) != 0
    ensures r == -1 <==> multiset(s)[c] < 2
    ensures 0 <= r ==> r < LastIndexOf(s, c) && s[r] == c
    ensures 0 <= r ==> forall j :: r < j < LastIndexOf(s, c) ==> s[j] != c
    ensures r == -1 && c in s ==> forall j :: 0 <= j < LastIndexOf(s, c) ==> s[j] != c
  {
    var last := LastIndexOf(s, c);
    if last == -1 then
      -1
    else
      var r := LastIndexOf(s[..last], c);
      if r == -1 then
        OnlyOccurrence(s, c, last);
        assert forall j :: 0 <= j < last ==> s[j] == s[..last][j];
        r
      else
        TwoOccurrences(s, c, r, last);
        assert forall j :: r < j < last ==> s[j] == s[..last][r + 1..][j - r - 1];
        r
  }

  /**
   * The model URL of a STATIC definition (GenerateModelLists): the config URL
   * up to its second-to-last '/', then '/', then the mesh name without its
   * extension. Substring throws when the mesh has no '.' or the URL fewer
   * than two '/'.
   */
  function ModelUrlFor(url: string, mesh: string): (r: Result<string>)
    ensures r.Ok? <==> '.' in mesh && multiset(url)['/'] >= 2
    ensures '.' !in mesh ==> r == Err(MeshWithoutExtension)
    ensures '.' in mesh && multiset(url)['/'] < 2 ==> r == Err(ConfigUrlTooShallow)
  {
    var dot := LastIndexOf(mesh, '.');
    if dot == -1 then Err(MeshWithoutExtension)
    else if LastIndexOf(url, '/') == 0 then
      OnlyOccurrence(url, '/', 0);
      Err(ConfigUrlTooShallow)
    else
      var slash := SecondLastIndex(url, '/');
      if slash == -1 then Err(ConfigUrlTooShallow)
      else Ok(url[..slash] + "/" + mesh[..dot])
  }

  /**
   * Any config URL `dir/asset/file` with a mesh `stem.ext` yields the model
   * URL `dir/stem`: the definition's path minus its last two segments, plus
   * the mesh name minus its extension.
   */
  lemma ModelUrlShape(dir: string, asset: string, file: string, stem: string, ext: string)
    requires '/' !in asset && '/' !in file && '.' !in ext
    ensures ModelUrlFor(dir + "/" + asset + "/" + file, stem + "." + ext) == Ok(dir + "/" + stem)
  {
    var url := dir + "/" + asset + "/" + file;
    var mesh := stem + "." + ext;
    var last := |dir| + 1 + |asset|;
    assert url[last + 1..] == file;
    LastIndexOfAt(url, '/', last);
    assert url[..last] == dir + "/" + asset;
    assert url[..last][|dir| + 1..] == asset;
    LastIndexOfAt(url[..last], '/', |dir|);
    assert mesh[|stem| + 1..] == ext;
    LastIndexOfAt(mesh, '.', |stem|);
    assert url[..|dir|] == dir;
    assert mesh[..|stem|] == stem;
  }

  /**
   * Two definitions in the same directory whose meshes share a stem collide
   * on one model URL (the second is then refused by Dictionary.Add).
   */
  lemma ModelUrlCollision(dir: string, asset1: string, file1: string, ext1: string,
                           asset2: string, file2: string, ext2: string, stem: string)
    requires '/' !in asset1 && '/' !in file1 && '.' !in ext1
    requires '/' !in asset2 && '/' !in file2 && '.' !in ext2
    ensures ModelUrlFor(dir + "/" + asset1 + "/" + file1, stem + "." + ext1).Ok?
    ensures ModelUrlFor(dir + "/" + asset1 + "/" + file1, stem + "." + ext1)
         == ModelUrlFor(dir + "/" + asset2 + "/" + file2, stem + "." + ext2)
  {
    ModelUrlShape(dir, asset1, file1, stem, ext1);
    ModelUrlShape(dir, asset2, file2, stem, ext2);
  }

  /**
   * The physical path of a definition's .cfg file (WriteSessionConfigs): the
   * config URL up to its last '/', plus ".cfg". Substring throws without '/'.
   */
  function ConfigFilePath(url: string): (r: Result<string>)
    ensures r.Ok? <==> '/' in url
    ensures r.Err? ==> r.fault == ConfigUrlWithoutDirectory
    ensures r.Ok? ==> var n := |r.value| - 4;
      && 0 <= n < |url| && r.value == url[..n] + ".cfg"
      && url[n] == '/' && '/' !in url[n + 1..]
  {
    var last := LastIndexOf(url, '/');
    if last == -1 then Err(ConfigUrlWithoutDirectory)
    else Ok(url[..last] + ".cfg")
  }

  /** A config URL `dir/file` is stored in `dir.cfg`. */
  lemma ConfigFilePathShape(dir: string, file: string)
    requires '/' !in file
    ensures ConfigFilePath(dir + "/" + file) == Ok(dir + ".cfg")
  {
    var url := dir + "/" + file;
    assert url[|dir| + 1..] == file;
    LastIndexOfAt(url, '/', |dir|);
    assert url[..|dir|] == dir;
  }

  /**
   * StaticObject.NameID: the model URL's last path segment followed by
   * " (ID)". The segment is the longest '/'-free suffix of the model URL.
   */
  function NameId(modelUrl: string, objectId: string): (r: string)
    ensures |r| >= |objectId| + 3
    ensures var seg := r[..|r| - |objectId| - 3];
      && r == seg + " (" + objectId + ")"
      && '/' !in seg
      && |seg| <= |modelUrl| && seg == modelUrl[|modelUrl| - |seg|..]
      && (|seg| == |modelUrl| || modelUrl[|modelUrl| - |seg| - 1] == '/')
  {
    var seg := modelUrl[LastIndexOf(modelUrl, '/') + 1..];
    var r := seg + " (" + objectId + ")";
    assert r[..|r| - |objectId| - 3] == seg;
    r
  }
}
