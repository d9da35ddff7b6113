/**
 * KSP's ConfigNode as a value: a named node with an ordered list of
 * key/value pairs and an ordered list of child nodes, and the ConfigNode
 * operations KerbTown calls (GetValue, HasNode, GetNodes, RemoveNodes).
 */
module ConfigTree {
  import opened Outcomes

  datatype KeyValue = KeyValue(name: string, value: string)

  datatype ConfigNode = ConfigNode(name: string, values: seq<KeyValue>, nodes: seq<ConfigNode>)

  /** ConfigNode.GetValue: the value of the first pair called `key`, or null. */
  function FirstValue(values: seq<KeyValue>, key: string): Option<string>
  {
    if values == [] then None
    else if values[0].name == key then Some(values[0].value)
    else FirstValue(values[1..], key)
  }

  /** GetValue finds the first pair called `key`, wherever it sits. */
  lemma {:induction false} FirstValueAt(values: seq<KeyValue>, key: string, i: nat)
    requires i < |values| && values[i].name == key
    requires forall j :: 0 <= j < i ==> values[j].name != key
    ensures FirstValue(values, key) == Some(values[i].value)
  {
    if i > 0 {
      FirstValueAt(values[1..], key, i - 1);
    }
  }

  /** GetValue yields null exactly when no pair is called `key`. */
  lemma {:induction false} FirstValueNone(values: seq<KeyValue>, key: string)
    ensures FirstValue(values, key).None? <==> forall i :: 0 <= i < |values| ==> values[i].name != key
  {
    if values != [] {
      FirstValueNone(values[1..], key);
      assert forall i :: 1 <= i < |values| ==> values[i] == values[1..][i - 1];
    }
  }

  /** A value found by GetValue is the value of a pair called `key`. */
  lemma {:induction false} FirstValueIn(values: seq<KeyValue>, key: string)
    ensures FirstValue(values, key).Some? ==> KeyValue(key, FirstValue(values, key).value) in values
  {
    if values != [] && values[0].name != key {
      FirstValueIn(values[1..], key);
    }
  }

  /** ConfigNode.GetValue: null exactly when no pair is called `key`, otherwise a value stored under `key`. */
  function GetValue(n: ConfigNode, key: string): (r: Option<string>)
    ensures r.None? <==> forall i :: 0 <= i < |n.values| ==> n.values[i].name != key
    ensures r.Some? ==> KeyValue(key, r.value) in n.values
  {
    FirstValueNone(n.values, key);
    FirstValueIn(n.values, key);
    FirstValue(n.values, key)
  }

  /** The children called `name`, in order (ConfigNode.GetNodes). */
  function Named(nodes: seq<ConfigNode>, name: string): (r: seq<ConfigNode>)
    ensures |r| <= |nodes|
    ensures forall i :: 0 <= i < |r| ==> r[i].name == name
  {
    if nodes == [] then []
    else if nodes[0].name == name then [nodes[0]] + Named(nodes[1..], name)
    else Named(nodes[1..], name)
  }

  /** The children not called `name`, in order. */
  function Unnamed(nodes: seq<ConfigNode>, name: string): (r: seq<ConfigNode>)
    ensures |r| <= |nodes|
    ensures forall i :: 0 <= i < |r| ==> r[i].name != name
  {
    if nodes == [] then []
    else if nodes[0].name == name then Unnamed(nodes[1..], name)
    else [nodes[0]] + Unnamed(nodes[1..], name)
  }

  function GetNodes(n: ConfigNode, name: string): seq<ConfigNode>
  {
    Named(n.nodes, name)
  }

  /** ConfigNode.HasNode: some child is called `name`, exactly when GetNodes finds one. */
  predicate HasNode(n: ConfigNode, name: string): (b: bool)
    ensures b <==> GetNodes(n, name) != []
  {
    NamedEmpty(n.nodes, name);
    exists i :: 0 <= i < |n.nodes| && n.nodes[i].name == name
  }

  /** GetNodes is empty exactly when no child is called `name`. */
  lemma {:induction false} NamedEmpty(nodes: seq<ConfigNode>, name: string)
    ensures Named(nodes, name) == [] <==> forall i :: 0 <= i < |nodes| ==> nodes[i].name != name
  {
    if nodes != [] {
      NamedEmpty(nodes[1..], name);
      assert forall i :: 1 <= i < |nodes| ==> nodes[i] == nodes[1..][i - 1];
    }
  }

  /** ConfigNode.RemoveNodes: drop every child called `name`, keep the rest. */
  function RemoveNodes(n: ConfigNode, name: string): (r: ConfigNode)
    ensures r.name == n.name && r.values == n.values
    ensures GetNodes(r, name) == []
  {
    var r := n.(nodes := Unnamed(n.nodes, name));
    NamedEmpty(r.nodes, name);
    r
  }

  /** RemoveNodes keeps every child of every other name, in order. */
  lemma RemoveNodesKeeps(n: ConfigNode, name: string)
    ensures forall other :: other != name ==> GetNodes(RemoveNodes(n, name), other) == GetNodes(n, other)
  {
    UnnamedKeepsAll(n.nodes, name);
  }

  /** A sequence with no child called `name` loses nothing to the removal. */
  lemma {:induction false} UnnamedKeeps(nodes: seq<ConfigNode>, name: string)
    requires forall i :: 0 <= i < |nodes| ==> nodes[i].name != name
    ensures Unnamed(nodes, name) == nodes
  {
    if nodes != [] {
      UnnamedKeeps(nodes[1..], name);
      assert [nodes[0]] + nodes[1..] == nodes;
    }
  }

  /** Removing the children called `name` keeps every child called `other`, in order. */
  lemma {:induction false} UnnamedKeepsOthers(nodes: seq<ConfigNode>, name: string, other: string)
    requires other != name
    ensures Named(Unnamed(nodes, name), other) == Named(nodes, other)
  {
    if nodes != [] {
      UnnamedKeepsOthers(nodes[1..], name, other);
      if nodes[0].name != name {
        var rest := Unnamed(nodes[1..], name);
        assert ([nodes[0]] + rest)[0] == nodes[0];
        assert ([nodes[0]] + rest)[1..] == rest;
      }
    }
  }

  lemma UnnamedKeepsAll(nodes: seq<ConfigNode>, name: string)
    ensures forall other :: other != name ==> Named(Unnamed(nodes, name), other) == Named(nodes, other)
  {
    forall other | other != name
      ensures Named(Unnamed(nodes, name), other) == Named(nodes, other)
    {
      UnnamedKeepsOthers(nodes, name, other);
    }
  }

  lemma {:induction false} NamedAppend(a: seq<ConfigNode>, b: seq<ConfigNode>, name: string)
    ensures Named(a + b, name) == Named(a, name) + Named(b, name)
  {
    if a == [] {
      assert a + b == b;
    } else {
      assert (a + b)[0] == a[0];
      assert (a + b)[1..] == a[1..] + b;
      NamedAppend(a[1..], b, name);
    }
  }

  lemma {:induction false} UnnamedAppend(a: seq<ConfigNode>, b: seq<ConfigNode>, name: string)
    ensures Unnamed(a + b, name) == Unnamed(a, name) + Unnamed(b, name)
  {
    if a == [] {
      assert a + b == b;
    } else {
      assert (a + b)[0] == a[0];
      assert (a + b)[1..] == a[1..] + b;
      UnnamedAppend(a[1..], b, name);
    }
  }

  /** Filtering on a name that every node carries keeps the whole sequence. */
  lemma {:induction false} NamedAll(nodes: seq<ConfigNode>, name: string)
    requires forall i :: 0 <= i < |nodes| ==> nodes[i].name == name
    ensures Named(nodes, name) == nodes
    ensures Unnamed(nodes, name) == []
  {
    if nodes != [] {
      NamedAll(nodes[1..], name);
    }
  }

  /** Removing nodes twice removes nothing more. */
  lemma {:induction false} UnnamedIdempotent(nodes: seq<ConfigNode>, name: string)
    ensures Unnamed(Unnamed(nodes, name), name) == Unnamed(nodes, name)
  {
    if nodes != [] {
      UnnamedIdempotent(nodes[1..], name);
    }
  }
}
