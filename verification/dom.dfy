/**
 * A value-semantics model of the DOM the codecs read and write, and of the
 * `Utils` helpers they call. A deep copy of an element is the element itself;
 * appending a child yields the updated parent.
 */
module Dom {
  import opened Wrappers
  import opened Php
  import opened PhpLoose

  /**
   * An element: its namespace URI (`null` when unqualified), its local name,
   * its attributes keyed by qualified name (`xml:lang`), and its children in
   * document order.
   */
  datatype Element = Element(ns: Option<string>, localName: string, attrs: map<string, string>, children: seq<Node>)

  /** A child node: an element, character data, or a comment/processing instruction. */
  datatype Node = Elem(elem: Element) | Text(text: string) | Other(data: string)

  /** The character data of one node, descending into elements. */
  function NodeText(n: Node): string
    decreases n
  {
    match n
    case Elem(e) => NodesText(e.children)
    case Text(t) => t
    case Other(_) => ""
  }

  /** The concatenated character data of a node list, in document order. */
  function NodesText(nodes: seq<Node>): (t: string)
    ensures |nodes| == 1 ==> t == NodeText(nodes[0])
    decreases nodes
  {
    if nodes == [] then "" else
      assert |nodes| == 1 ==> nodes[1..] == [];
      NodeText(nodes[0]) + NodesText(nodes[1..])
  }

  /** `DOMNode::textContent` of an element: comments and processing instructions contribute nothing. */
  function TextContent(e: Element): (t: string)
    ensures e.children == [] ==> t == ""
    ensures |e.children| == 1 && e.children[0].Text? ==> t == e.children[0].text
    ensures |e.children| == 1 && e.children[0].Other? ==> t == ""
  {
    NodesText(e.children)
  }

  /** Appending an element appends its text to the parent's text content. */
  lemma TextContentAppendChild(parent: Element, e: Element)
    ensures TextContent(AppendChild(parent, e)) == TextContent(parent) + TextContent(e)
  {
    NodesTextAppend(parent.children, [Elem(e)]);
    assert [Elem(e)][1..] == [];
    assert NodesText([Elem(e)]) == NodesText(e.children) + "";
  }

  lemma {:induction false} NodesTextAppend(a: seq<Node>, b: seq<Node>)
    ensures NodesText(a + b) == NodesText(a) + NodesText(b)
  {
    if a != [] {
      assert (a + b)[1..] == a[1..] + b;
      NodesTextAppend(a[1..], b);
    } else {
      assert a + b == b;
    }
  }

  /** `hasAttribute` and `getAttribute` together: the value when present. */
  function GetAttribute(e: Element, name: string): (v: Option<string>)
    ensures v.Some? <==> name in e.attrs
    ensures v.Some? ==> v.value == e.attrs[name]
  {
    if name in e.attrs then Some(e.attrs[name]) else None
  }

  /** `appendChild`: the element becomes the parent's new last child; nothing else changes. */
  function AppendChild(parent: Element, e: Element): (r: Element)
    ensures r.children == parent.children + [Elem(e)]
    ensures r.(children := parent.children) == parent
  {
    parent.(children := parent.children + [Elem(e)])
  }

  /** The element children of a node list, in document order. */
  function ChildElements(nodes: seq<Node>): (es: seq<Element>)
    ensures |es| <= |nodes|
    ensures forall e :: e in es <==> Elem(e) in nodes
  {
    if nodes == [] then []
    else
      var rest := ChildElements(nodes[1..]);
      assert forall n :: n in nodes <==> n == nodes[0] || n in nodes[1..];
      if nodes[0].Elem? then [nodes[0].elem] + rest else rest
  }

  /** Element children of concatenated node lists come in the same order as the lists. */
  lemma {:induction false} ChildElementsAppend(a: seq<Node>, b: seq<Node>)
    ensures ChildElements(a + b) == ChildElements(a) + ChildElements(b)
  {
    if a != [] {
      assert (a + b)[1..] == a[1..] + b;
      ChildElementsAppend(a[1..], b);
    } else {
      assert a + b == b;
    }
  }

  /** Whether an element has the given namespace URI and local name. */
  predicate Named(e: Element, ns: string, localName: string) {
    e.ns == Some(ns) && e.localName == localName
  }

  /**
   * The element children with the given namespace and local name, in document
   * order: the child-axis query `./prefix:localName` of `Utils::xpQuery`.
   */
  function Select(nodes: seq<Node>, ns: string, localName: string): (es: seq<Element>)
    ensures forall e :: e in es <==> Elem(e) in nodes && Named(e, ns, localName)
  {
    if nodes == [] then []
    else
      var rest := Select(nodes[1..], ns, localName);
      assert forall n :: n in nodes <==> n == nodes[0] || n in nodes[1..];
      if nodes[0].Elem? && Named(nodes[0].elem, ns, localName) then [nodes[0].elem] + rest else rest
  }

  lemma {:induction false} SelectAppend(a: seq<Node>, b: seq<Node>, ns: string, localName: string)
    ensures Select(a + b, ns, localName) == Select(a, ns, localName) + Select(b, ns, localName)
  {
    if a != [] {
      var c := a + b;
      assert c != [] && c[0] == a[0] && c[1..] == a[1..] + b;
      SelectAppend(a[1..], b, ns, localName);
      var head := if a[0].Elem? && Named(a[0].elem, ns, localName) then [a[0].elem] else [];
      assert Select(a, ns, localName) == head + Select(a[1..], ns, localName);
      assert Select(c, ns, localName) == head + Select(c[1..], ns, localName);
    } else {
      assert a + b == b;
    }
  }

  /** A node list with no matching element child selects nothing. */
  lemma SelectNone(nodes: seq<Node>, ns: string, localName: string)
    requires forall i :: 0 <= i < |nodes| ==> !(nodes[i].Elem? && Named(nodes[i].elem, ns, localName))
    ensures Select(nodes, ns, localName) == []
  {
  }

  /** A node list made only of matching elements selects all of them, in order. */
  lemma {:induction false} SelectAll(nodes: seq<Node>, ns: string, localName: string)
    requires forall i :: 0 <= i < |nodes| ==> nodes[i].Elem? && Named(nodes[i].elem, ns, localName)
    ensures Select(nodes, ns, localName) == seq(|nodes|, i requires 0 <= i < |nodes| => nodes[i].elem)
  {
    if nodes != [] {
      SelectAll(nodes[1..], ns, localName);
    }
  }

  /** The element `Utils::addString` creates: one text node holding the value. */
  function StringElement(ns: string, localName: string, value: string): (e: Element)
    ensures Named(e, ns, localName) && e.attrs == map[]
    ensures TextContent(e) == value
  {
    var e := Element(Some(ns), localName, map[], [Text(value)]);
    assert NodesText([Text(value)]) == value + NodesText([]);
    e
  }

  /** The children `Utils::addStrings` appends: one string element per value, in order. */
  function StringNodes(ns: string, localName: string, values: seq<string>): (nodes: seq<Node>)
    ensures |nodes| == |values|
    ensures forall i :: 0 <= i < |values| ==> nodes[i] == Elem(StringElement(ns, localName, values[i]))
  {
    if values == [] then []
    else [Elem(StringElement(ns, localName, values[0]))] + StringNodes(ns, localName, values[1..])
  }

  /** `Utils::extractStrings`: the trimmed text content of each matching child element, in order. */
  function ExtractStrings(nodes: seq<Node>, ns: string, localName: string): (values: seq<string>)
    ensures |values| == |Select(nodes, ns, localName)|
    ensures forall i :: 0 <= i < |values| ==> values[i] == Trim(TextContent(Select(nodes, ns, localName)[i]))
  {
    var es := Select(nodes, ns, localName);
    seq(|es|, i requires 0 <= i < |es| => Trim(TextContent(es[i])))
  }

  /** Selecting by the name `addStrings` used finds exactly the string elements it wrote. */
  lemma {:induction false} SelectStringNodes(ns: string, localName: string, values: seq<string>)
    ensures Select(StringNodes(ns, localName, values), ns, localName)
         == seq(|values|, i requires 0 <= i < |values| => StringElement(ns, localName, values[i]))
  {
    if values != [] {
      SelectStringNodes(ns, localName, values[1..]);
      assert StringNodes(ns, localName, values)[1..] == StringNodes(ns, localName, values[1..]);
    }
  }

  /** Extracting the strings `addStrings` wrote gives back the written list, when none has surrounding whitespace. */
  lemma ExtractStringNodes(ns: string, localName: string, values: seq<string>)
    requires forall i :: 0 <= i < |values| ==> Trimmed(values[i])
    ensures ExtractStrings(StringNodes(ns, localName, values), ns, localName) == values
  {
    SelectStringNodes(ns, localName, values);
  }

  /**
   * `Utils::parseBoolean`: an absent attribute gives the default; otherwise
   * the lower-cased value goes through a `switch` whose loose `==` matches
   * "0" and "false" to false, then "1" and "true" to true. A numeric value
   * is compared by its value, so "01" and "1.0" count as "1"; any other
   * value throws.
   */
  function ParseBoolean(e: Element, name: string, default: bool): (r: Result<bool, Throwable>)
    ensures name !in e.attrs ==> r == Success(default)
    ensures name in e.attrs && ToLower(e.attrs[name]) in {"true", "1"} ==> r == Success(true)
    ensures name in e.attrs && ToLower(e.attrs[name]) in {"false", "0"} ==> r == Success(false)
    ensures name in e.attrs && LooselyOne(ToLower(e.attrs[name])) ==> r == Success(true)
    ensures name in e.attrs && LooselyZero(ToLower(e.attrs[name])) ==> r == Success(false)
    ensures r.Failure? <==>
      && name in e.attrs
      && ToLower(e.attrs[name]) !in {"true", "false"}
      && !LooselyOne(ToLower(e.attrs[name]))
      && !LooselyZero(ToLower(e.attrs[name]))
  {
    match GetAttribute(e, name)
    case None => Success(default)
    case Some(v) =>
      var lower := ToLower(v);
      BooleanWords();
      ZeroNotOne(lower);
      if LooselyZero(lower) || lower == "false" then Success(false)
      else if LooselyOne(lower) || lower == "true" then Success(true)
      else Failure(Exception("Invalid value of boolean attribute '" + name + "': '" + v + "'"))
  }

  /** A value made of digits alone is read by its number: one is true, zero is false, anything larger throws. */
  lemma ParseBooleanDigits(e: Element, name: string, default: bool)
    requires name in e.attrs && AllDigits(e.attrs[name]) && e.attrs[name] != []
    ensures ParseBoolean(e, name, default) == Success(true) <==> DigitsValue(e.attrs[name]) == 1
    ensures ParseBoolean(e, name, default) == Success(false) <==> DigitsValue(e.attrs[name]) == 0
    ensures ParseBoolean(e, name, default).Failure? <==> DigitsValue(e.attrs[name]) > 1
  {
    var v := e.attrs[name];
    ToLowerDigits(v);
    DigitsNumeric(v);
    assert v != "true" && v != "false" by {
      assert IsDigit(v[0]);
    }
  }

  lemma ToLowerDigits(d: string)
    requires AllDigits(d)
    ensures ToLower(d) == d
  {
    assert forall i :: 0 <= i < |d| ==> IsDigit(d[i]);
  }
}
