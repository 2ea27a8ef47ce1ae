/** The parsed XML document as an abstract tree, the three ways the profile
    code navigates it (the `node[name]` indexer and `SelectSingleNode`,
    `SelectNodes`, `ChildNodes`), and the `XmlUtil` getters, each of which
    reads a node's inner text and falls back to a default when the node is
    missing (null) or its text does not parse. */
module XmlTree {
  import opened Wrappers
  import opened Numbers

  /** An element (name, attributes, children) or a non-element node such as
      text or a comment, which only contributes its text. */
  datatype XNode =
    | Element(name: string, attributes: map<string, string>, children: seq<XNode>)
    | Text(value: string)

  /** `InnerText`: the concatenated text of all descendants. */
  function InnerText(n: XNode): string
    decreases n, 1
  {
    match n
    case Text(v) => v
    case Element(_, _, kids) => InnerTexts(kids)
  }

  function InnerTexts(ns: seq<XNode>): string
    decreases ns, 0
  {
    if ns == [] then "" else InnerText(ns[0]) + InnerTexts(ns[1..])
  }

  predicate IsElementNamed(n: XNode, name: string) {
    n.Element? && n.name == name
  }

  /** The first element in `ns` with the given name. */
  function FindNamed(ns: seq<XNode>, name: string): (r: Option<XNode>)
    ensures r.Some? ==> r.value in ns && IsElementNamed(r.value, name)
    ensures r.None? ==> forall i :: 0 <= i < |ns| ==> !IsElementNamed(ns[i], name)
  {
    if ns == [] then None
    else if IsElementNamed(ns[0], name) then Some(ns[0])
    else FindNamed(ns[1..], name)
  }

  /** `node[name]` and `node.SelectSingleNode(name)`: the first child element
      with that name, or null. */
  function Child(n: XNode, name: string): Option<XNode> {
    if n.Element? then FindNamed(n.children, name) else None
  }

  /** The elements of `ns` with the given name, in document order. */
  function FilterNamed(ns: seq<XNode>, name: string): (r: seq<XNode>)
    ensures |r| <= |ns|
    ensures forall i :: 0 <= i < |r| ==> IsElementNamed(r[i], name)
  {
    if ns == [] then []
    else (if IsElementNamed(ns[0], name) then [ns[0]] else []) + FilterNamed(ns[1..], name)
  }

  /** `node.SelectNodes(name)`: the child elements with that name. */
  function Children(n: XNode, name: string): seq<XNode> {
    if n.Element? then FilterNamed(n.children, name) else []
  }

  /** `node.ChildNodes`: every child, elements or not. */
  function ChildNodes(n: XNode): seq<XNode> {
    if n.Element? then n.children else []
  }

  // ---------------------------------------------------------------------
  // XmlUtil getters; `None` stands for a null node

  function TryGetString(node: Option<XNode>): Option<string> {
    if node.Some? then Some(InnerText(node.value)) else None
  }

  function GetString(node: Option<XNode>, default: Option<string>): Option<string> {
    if node.Some? then Some(InnerText(node.value)) else default
  }

  function TryGetInt(node: Option<XNode>): Option<Int32> {
    if node.Some? then ParseInt32(InnerText(node.value)) else None
  }

  function GetInt(node: Option<XNode>, default: Int32): Int32 {
    TryGetInt(node).GetOr(default)
  }

  function GetInt64(node: Option<XNode>, default: Int64): Int64 {
    if node.Some? then ParseInt64(InnerText(node.value)).GetOr(default) else default
  }

  function TryGetBool(node: Option<XNode>): Option<bool> {
    if node.Some? then ParseBool(InnerText(node.value)) else None
  }

  function GetBool(node: Option<XNode>, default: bool): bool {
    TryGetBool(node).GetOr(default)
  }

  // ---------------------------------------------------------------------
  // What `XmlWriter.WriteElementString` produces

  function TextElement(name: string, value: string): (n: XNode)
    ensures IsElementNamed(n, name) && InnerText(n) == value
  {
    assert InnerTexts([Text(value)]) == value + InnerTexts([]);
    Element(name, map[], [Text(value)])
  }

  // ---------------------------------------------------------------------
  // Lookup facts used by the round-trip proofs

  lemma FindNamedAppend(a: seq<XNode>, b: seq<XNode>, name: string)
    ensures FindNamed(a + b, name) == if FindNamed(a, name).Some? then FindNamed(a, name) else FindNamed(b, name)
  {
    if a != [] {
      assert (a + b)[1..] == a[1..] + b;
      FindNamedAppend(a[1..], b, name);
    } else {
      assert a + b == b;
    }
  }

  lemma {:induction false} FilterNamedAppend(a: seq<XNode>, b: seq<XNode>, name: string)
    ensures FilterNamed(a + b, name) == FilterNamed(a, name) + FilterNamed(b, name)
  {
    if a != [] {
      assert (a + b)[1..] == a[1..] + b;
      FilterNamedAppend(a[1..], b, name);
    } else {
      assert a + b == b;
    }
  }

  lemma {:induction false} FilterNamedNone(ns: seq<XNode>, name: string)
    requires forall i :: 0 <= i < |ns| ==> !IsElementNamed(ns[i], name)
    ensures FilterNamed(ns, name) == []
  {
    if ns != [] {
      FilterNamedNone(ns[1..], name);
    }
  }

  lemma FilterNamedAll(ns: seq<XNode>, name: string)
    requires forall i :: 0 <= i < |ns| ==> IsElementNamed(ns[i], name)
    ensures FilterNamed(ns, name) == ns
  {
  }
}
