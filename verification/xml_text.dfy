/**
 * The text form of an element, as written by `DOMDocument::saveXML` and read
 * back by `DOMDocumentFactory::fromString`. The text is modelled at the level
 * of markup tokens (start tag with its namespace and attributes, end tag,
 * character data, comment or processing instruction); the character syntax
 * beneath the tokens is not part of this model.
 */
module XmlText {
  import opened Wrappers
  import opened Php
  import opened Dom

  datatype Token =
    | StartTag(ns: Option<string>, localName: string, attrs: map<string, string>)
    | EndTag
    | CharData(text: string)
    | Misc(data: string)

  /** The markup of one node. */
  function NodeMarkup(n: Node): seq<Token>
    decreases n
  {
    match n
    case Elem(e) => [StartTag(e.ns, e.localName, e.attrs)] + NodesMarkup(e.children) + [EndTag]
    case Text(t) => [CharData(t)]
    case Other(d) => [Misc(d)]
  }

  /** The markup of a node list, in document order. */
  function NodesMarkup(nodes: seq<Node>): seq<Token>
    decreases nodes
  {
    if nodes == [] then [] else NodeMarkup(nodes[0]) + NodesMarkup(nodes[1..])
  }

  /** `saveXML` of an element: the markup of that element and its subtree only. */
  function SaveXml(e: Element): (text: seq<Token>)
    ensures |text| >= 2
    ensures text[0] == StartTag(e.ns, e.localName, e.attrs) && text[|text| - 1] == EndTag
  {
    NodeMarkup(Elem(e))
  }

  const UNCLOSED := Exception("Failed to parse XML string: unclosed element.")

  /**
   * Reads nodes up to the first unmatched end tag or the end of the text;
   * returns the nodes and the text from that end tag on.
   */
  function ParseNodes(text: seq<Token>): (r: Result<(seq<Node>, seq<Token>), Throwable>)
    ensures r.Success? ==> |r.value.1| <= |text|
    ensures r.Success? ==> r.value.1 == [] || r.value.1[0].EndTag?
    ensures r.Failure? ==> r.error == UNCLOSED
    decreases |text|
  {
    if text == [] || text[0].EndTag? then Success(([], text))
    else
      match text[0]
      case CharData(t) =>
        var (siblings, rest) :- ParseNodes(text[1..]);
        Success(([Text(t)] + siblings, rest))
      case Misc(d) =>
        var (siblings, rest) :- ParseNodes(text[1..]);
        Success(([Other(d)] + siblings, rest))
      case StartTag(ns, name, attrs) =>
        var (children, afterChildren) :- ParseNodes(text[1..]);
        if afterChildren == [] then Failure(UNCLOSED)
        else
          var (siblings, rest) :- ParseNodes(afterChildren[1..]);
          Success(([Elem(Element(ns, name, attrs, children))] + siblings, rest))
  }

  /**
   * `DOMDocumentFactory::fromString`: the document element of a text made of
   * exactly one well-nested element; any other text fails to parse.
   */
  function FromString(text: seq<Token>): (r: Result<Element, Throwable>)
    ensures r.Success? ==> text == SaveXml(r.value)
    ensures r.Failure? ==> r.error.Exception?
  {
    ParseNodesSound(text);
    var (nodes, rest) :- ParseNodes(text);
    if rest != [] then Failure(Exception("Failed to parse XML string: unmatched end tag."))
    else if |nodes| != 1 || !nodes[0].Elem? then Failure(Exception("Failed to parse XML string: expected one document element."))
    else
      assert nodes == [Elem(nodes[0].elem)];
      assert NodesMarkup(nodes) == SaveXml(nodes[0].elem) by {
        assert nodes[1..] == [];
      }
      Success(nodes[0].elem)
  }

  /** Whatever `ParseNodes` reads, the markup of the nodes it returns is exactly the text it consumed. */
  lemma {:induction false} ParseNodesSound(text: seq<Token>)
    ensures ParseNodes(text).Success? ==>
      text == NodesMarkup(ParseNodes(text).value.0) + ParseNodes(text).value.1
    decreases |text|
  {
    if text == [] || text[0].EndTag? {
    } else if ParseNodes(text).Success? {
      var (nodes, rest) := ParseNodes(text).value;
      assert text == [text[0]] + text[1..];
      match text[0]
      case CharData(t) =>
        ParseNodesSound(text[1..]);
        assert nodes[1..] == ParseNodes(text[1..]).value.0;
      case Misc(d) =>
        ParseNodesSound(text[1..]);
        assert nodes[1..] == ParseNodes(text[1..]).value.0;
      case StartTag(ns, name, attrs) =>
        var children, afterChildren, siblings, rest' := ReadElement(text);
        ParseNodesSound(text[1..]);
        ParseNodesSound(afterChildren[1..]);
        assert afterChildren == [EndTag] + (NodesMarkup(siblings) + rest');
        ElementMarkup(Element(ns, name, attrs, children), siblings, rest');
    }
  }

  /** How `ParseNodes` reads an element: its children, its end tag, then its siblings. */
  lemma ReadElement(text: seq<Token>)
    returns (children: seq<Node>, afterChildren: seq<Token>, siblings: seq<Node>, rest: seq<Token>)
    requires text != [] && text[0].StartTag? && ParseNodes(text).Success?
    ensures ParseNodes(text[1..]) == Success((children, afterChildren))
    ensures afterChildren != [] && ParseNodes(afterChildren[1..]) == Success((siblings, rest))
    ensures ParseNodes(text)
         == Success(([Elem(Element(text[0].ns, text[0].localName, text[0].attrs, children))] + siblings, rest))
  {
    children, afterChildren := ParseNodes(text[1..]).value.0, ParseNodes(text[1..]).value.1;
    siblings, rest := ParseNodes(afterChildren[1..]).value.0, ParseNodes(afterChildren[1..]).value.1;
  }

  /** The markup of an element followed by its siblings, split at the element's end tag. */
  lemma ElementMarkup(e: Element, siblings: seq<Node>, rest: seq<Token>)
    ensures NodesMarkup([Elem(e)] + siblings) + rest
         == [StartTag(e.ns, e.localName, e.attrs)] + (NodesMarkup(e.children) + ([EndTag] + (NodesMarkup(siblings) + rest)))
  {
    assert ([Elem(e)] + siblings)[1..] == siblings;
  }

  /** A text parses to an element exactly when it is that element's saved markup. */
  lemma FromStringIffSaveXml(text: seq<Token>, e: Element)
    ensures FromString(text) == Success(e) <==> text == SaveXml(e)
  {
    if text == SaveXml(e) {
      FromStringSaveXml(e);
    }
  }

  /** Reading a leaf token in front of a parsable text. */
  lemma ParseLeaf(tok: Token, leaf: Node, tail: seq<Token>, siblings: seq<Node>, rest: seq<Token>)
    requires (tok.CharData? && leaf == Text(tok.text)) || (tok.Misc? && leaf == Other(tok.data))
    requires ParseNodes(tail) == Success((siblings, rest))
    ensures ParseNodes([tok] + tail) == Success(([leaf] + siblings, rest))
  {
    assert ([tok] + tail)[1..] == tail;
  }

  /** Reading a start tag whose children and end tag are followed by a parsable text. */
  lemma ParseStart(e: Element, inner: seq<Token>, tail: seq<Token>, siblings: seq<Node>, rest: seq<Token>)
    requires ParseNodes(inner + [EndTag] + tail) == Success((e.children, [EndTag] + tail))
    requires ParseNodes(tail) == Success((siblings, rest))
    ensures ParseNodes([StartTag(e.ns, e.localName, e.attrs)] + inner + [EndTag] + tail)
         == Success(([Elem(e)] + siblings, rest))
  {
    var text := [StartTag(e.ns, e.localName, e.attrs)] + inner + [EndTag] + tail;
    assert text[1..] == inner + [EndTag] + tail;
    assert ([EndTag] + tail)[1..] == tail;
  }

  /** Parsing the markup of a node list, followed by an end tag or nothing, reads back exactly that list. */
  lemma {:induction false} ParseNodesMarkup(nodes: seq<Node>, rest: seq<Token>)
    requires rest == [] || rest[0].EndTag?
    ensures ParseNodes(NodesMarkup(nodes) + rest) == Success((nodes, rest))
    decreases nodes
  {
    if nodes == [] {
      assert NodesMarkup(nodes) + rest == rest;
    } else {
      var tail := NodesMarkup(nodes[1..]) + rest;
      ParseNodesMarkup(nodes[1..], rest);
      assert NodesMarkup(nodes) + rest == NodeMarkup(nodes[0]) + tail;
      assert nodes == [nodes[0]] + nodes[1..];
      match nodes[0]
      case Text(t) =>
        ParseLeaf(CharData(t), nodes[0], tail, nodes[1..], rest);
      case Other(d) =>
        ParseLeaf(Misc(d), nodes[0], tail, nodes[1..], rest);
      case Elem(e) =>
        var inner := NodesMarkup(e.children);
        ParseChildrenMarkup(nodes[0], [EndTag] + tail);
        assert inner + ([EndTag] + tail) == inner + [EndTag] + tail;
        ParseStart(e, inner, tail, nodes[1..], rest);
    }
  }

  /** The children of an element are read back before its end tag. */
  lemma {:induction false} ParseChildrenMarkup(n: Node, rest: seq<Token>)
    requires n.Elem?
    requires rest == [] || rest[0].EndTag?
    ensures ParseNodes(NodesMarkup(n.elem.children) + rest) == Success((n.elem.children, rest))
    decreases n
  {
    ParseNodesMarkup(n.elem.children, rest);
  }

  /** Parsing what `saveXML` wrote gives back the same element. */
  lemma FromStringSaveXml(e: Element)
    ensures FromString(SaveXml(e)) == Success(e)
  {
    assert NodesMarkup([Elem(e)]) == SaveXml(e) by {
      assert [Elem(e)][1..] == [];
      assert SaveXml(e) + [] == SaveXml(e);
    }
    ParseNodesMarkup([Elem(e)], []);
    assert SaveXml(e) + [] == SaveXml(e);
  }
}
