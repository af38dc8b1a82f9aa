/**
 * The part of a DOM document the transform produces: elements created with
 * `createElementNS(namespace, name)` holding, in append order, their child
 * elements and text nodes (`createTextNode`). Serialisation is not modelled.
 */
module Xml {
  import opened Wrappers

  datatype Node =
    | Element(namespace: string, name: string, children: seq<Node>)
    | Text(data: string)

  /** The first child element called `name`, as a reader of the document finds it. */
  function ChildNamed(children: seq<Node>, name: string): (r: Option<Node>)
    ensures r.Some? ==> r.value in children && r.value.Element? && r.value.name == name
    decreases |children|
  {
    if children == [] then None
    else if children[0].Element? && children[0].name == name then Some(children[0])
    else ChildNamed(children[1..], name)
  }

  /** The lookup finds the element at `i` when no earlier child element carries its name. */
  lemma {:induction false} ChildNamedAt(children: seq<Node>, i: nat, name: string)
    requires i < |children| && children[i].Element? && children[i].name == name
    requires forall j :: 0 <= j < i ==> !(children[j].Element? && children[j].name == name)
    ensures ChildNamed(children, name) == Some(children[i])
    decreases i
  {
    if i > 0 {
      ChildNamedAt(children[1..], i - 1, name);
    }
  }

  /** The lookup finds nothing exactly when no child element carries the name. */
  lemma {:induction false} ChildNamedNone(children: seq<Node>, name: string)
    ensures ChildNamed(children, name).None? <==> forall i :: 0 <= i < |children| ==> !(children[i].Element? && children[i].name == name)
    decreases |children|
  {
    if children != [] {
      ChildNamedNone(children[1..], name);
      assert forall i :: 1 <= i < |children| ==> children[1..][i - 1] == children[i];
    }
  }

  /** The text of an element whose only child is one text node. */
  function TextOf(n: Node): Option<string>
  {
    if n.Element? && |n.children| == 1 && n.children[0].Text? then Some(n.children[0].data) else None
  }

  /** The text reached from `n` by following the first child element of each name in `path`. */
  function ValueAt(n: Node, path: seq<string>): Option<string>
    decreases |path|
  {
    if path == [] then TextOf(n)
    else if n.Text? then None
    else match ChildNamed(n.children, path[0])
      case None => None
      case Some(c) => ValueAt(c, path[1..])
  }

  /** A one-step path reads the text of the first child element of that name. */
  lemma ValueAtOne(n: Node, a: string, c: Node)
    requires n.Element? && ChildNamed(n.children, a) == Some(c)
    ensures ValueAt(n, [a]) == TextOf(c)
  {
    assert [a][1..] == [];
  }

  /** A two-step path goes through the first child element called `a`. */
  lemma ValueAtTwo(n: Node, a: string, b: string, c: Node)
    requires n.Element? && ChildNamed(n.children, a) == Some(c)
    ensures ValueAt(n, [a, b]) == ValueAt(c, [b])
  {
    assert [a, b][1..] == [b];
  }

  /** A three-step path goes through the first child element called `a`. */
  lemma ValueAtThree(n: Node, a: string, b: string, d: string, c: Node)
    requires n.Element? && ChildNamed(n.children, a) == Some(c)
    ensures ValueAt(n, [a, b, d]) == ValueAt(c, [b, d])
  {
    assert [a, b, d][1..] == [b, d];
  }

  /** The number of elements called `name` in `nodes`. */
  function CountNamed(nodes: seq<Node>, name: string): nat
    decreases |nodes|
  {
    if nodes == [] then 0
    else CountNamed(nodes[..|nodes| - 1], name) + (if nodes[|nodes| - 1].Element? && nodes[|nodes| - 1].name == name then 1 else 0)
  }

  lemma {:induction false} CountNamedConcat(a: seq<Node>, b: seq<Node>, name: string)
    ensures CountNamed(a + b, name) == CountNamed(a, name) + CountNamed(b, name)
    decreases |b|
  {
    if b != [] {
      assert (a + b)[..|a + b| - 1] == a + b[..|b| - 1];
      CountNamedConcat(a, b[..|b| - 1], name);
    } else {
      assert a + b == a;
    }
  }

  /** In a sequence of elements that all carry one name, that name is counted once per element and no other name at all. */
  lemma {:induction false} CountNamedUniform(nodes: seq<Node>, name: string, other: string)
    requires forall i :: 0 <= i < |nodes| ==> nodes[i].Element? && nodes[i].name == name
    ensures CountNamed(nodes, name) == |nodes|
    ensures other != name ==> CountNamed(nodes, other) == 0
    decreases |nodes|
  {
    if nodes != [] {
      CountNamedUniform(nodes[..|nodes| - 1], name, other);
    }
  }
}
