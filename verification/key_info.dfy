/**
 * `SAML2\XML\ds\KeyInfo`: the `ds:KeyInfo` element of XML Signature,
 * sections 4.4 to 4.4.4. Its element children are kept in document order,
 * each as a `KeyName`, an `X509Data` or an opaque `Chunk`.
 */
module DsKeyInfo {
  import opened Wrappers
  import opened Dom
  import opened XmlChunk
  import opened DsKeyName
  import Namespaces

  /**
   * `SAML2\XML\ds\X509Data` is not part of this model: an `X509Data` holds
   * the element it was read from and renders that element back unchanged.
   */
  datatype X509Data = X509Data(xml: Element)

  /** An `X509Data` is read from, and renders as, a `ds:X509Data` element. */
  predicate X509DataValid(x: X509Data) {
    Named(x.xml, Namespaces.XMLDSIG, "X509Data")
  }

  /** One entry of the `info` list. */
  datatype Info = KeyNameInfo(keyName: KeyName) | X509DataInfo(x509Data: X509Data) | ChunkInfo(chunk: Chunk)

  datatype KeyInfo = KeyInfo(id: Option<string>, info: seq<Info>)

  /** The constructor called without an element: no `Id` and no entries. */
  function New(): (k: KeyInfo)
    ensures k.id.None? && |k.info| == 0
  {
    KeyInfo(None, [])
  }

  /**
   * The constructor's dispatch on one element child: outside the XML
   * Signature namespace everything is a chunk, even an element named
   * `KeyName`; inside it `KeyName` and `X509Data` get their own class and any
   * other name is a chunk.
   */
  function Classify(e: Element): (item: Info)
    ensures item.KeyNameInfo? <==> Named(e, Namespaces.XMLDSIG, "KeyName")
    ensures item.X509DataInfo? <==> Named(e, Namespaces.XMLDSIG, "X509Data")
    ensures item.ChunkInfo? <==> e.ns != Some(Namespaces.XMLDSIG) || e.localName !in {"KeyName", "X509Data"}
    ensures item.KeyNameInfo? ==> item.keyName.name == Some(TextContent(e))
    ensures item.X509DataInfo? ==> item.x509Data.xml == e
    ensures item.ChunkInfo? ==> item.chunk.xml == e && Valid(item.chunk)
  {
    if e.ns != Some(Namespaces.XMLDSIG) then ChunkInfo(FromElement(e))
    else if e.localName == "KeyName" then KeyNameInfo(DsKeyName.Parse(e))
    else if e.localName == "X509Data" then X509DataInfo(X509Data(e))
    else ChunkInfo(FromElement(e))
  }

  /** The constructor's loop over the children: non-element nodes are skipped, every element gives one entry. */
  function ParseChildren(nodes: seq<Node>): (items: seq<Info>)
    ensures |items| == |ChildElements(nodes)|
    ensures forall i :: 0 <= i < |items| ==> items[i] == Classify(ChildElements(nodes)[i])
  {
    if nodes == [] then []
    else
      var rest := ParseChildren(nodes[1..]);
      if nodes[0].Elem? then [Classify(nodes[0].elem)] + rest else rest
  }

  /**
   * The constructor called with an element: `Id` is copied only when the
   * attribute is present, and the entries follow the element children in
   * document order.
   */
  function Parse(xml: Element): (k: KeyInfo)
    ensures k.id == GetAttribute(xml, "Id")
    ensures |k.info| == |ChildElements(xml.children)|
    ensures forall i :: 0 <= i < |k.info| ==> k.info[i] == Classify(ChildElements(xml.children)[i])
  {
    KeyInfo(GetAttribute(xml, "Id"), ParseChildren(xml.children))
  }

  /** `addInfo`: the entry is appended; the existing entries and `Id` are unchanged. */
  function AddInfo(k: KeyInfo, item: Info): (r: KeyInfo)
    ensures r.id == k.id
    ensures |r.info| == |k.info| + 1 && r.info[..|k.info|] == k.info && r.info[|k.info|] == item
  {
    k.(info := k.info + [item])
  }

  /** Whether an entry's `toXML` may be called: a key name must be set. */
  predicate InfoRenderable(item: Info) {
    item.KeyNameInfo? ==> DsKeyName.Renderable(item.keyName)
  }

  predicate Renderable(k: KeyInfo) {
    forall i :: 0 <= i < |k.info| ==> InfoRenderable(k.info[i])
  }

  /** The element one entry's `toXML` appends. */
  function RenderInfo(item: Info): (e: Element)
    requires InfoRenderable(item)
    ensures item.KeyNameInfo? ==>
      Named(e, Namespaces.XMLDSIG, "KeyName") && DsKeyName.Parse(e) == item.keyName
    ensures item.X509DataInfo? ==> e == item.x509Data.xml
    ensures item.ChunkInfo? ==> e == item.chunk.xml
  {
    match item
    case KeyNameInfo(n) =>
      DsKeyName.ParseRender(n);
      DsKeyName.Render(n)
    case X509DataInfo(x) => x.xml
    case ChunkInfo(c) => c.xml
  }

  /** The attributes of the rendered element: `Id` only when it is set. */
  function IdAttrs(id: Option<string>): (attrs: map<string, string>)
    ensures "Id" in attrs <==> id.Some?
    ensures id.Some? ==> attrs["Id"] == id.value
    ensures attrs.Keys <= {"Id"}
  {
    if id.Some? then map["Id" := id.value] else map[]
  }

  /**
   * `toXML`: a `ds:KeyInfo` element in the XML Signature namespace with `Id`
   * only when set, holding each entry's element in order.
   */
  function Render(k: KeyInfo): (e: Element)
    requires Renderable(k)
    ensures Named(e, Namespaces.XMLDSIG, "KeyInfo")
    ensures GetAttribute(e, "Id") == k.id
    ensures e.attrs.Keys <= {"Id"}
    ensures |e.children| == |k.info|
    ensures forall i :: 0 <= i < |k.info| ==> e.children[i] == Elem(RenderInfo(k.info[i]))
  {
    var e := Element(Some(Namespaces.XMLDSIG), "KeyInfo", IdAttrs(k.id), []);
    e.(children := seq(|k.info|, i requires 0 <= i < |k.info| => Elem(RenderInfo(k.info[i]))))
  }

  /**
   * The entries the constructor can produce: a chunk never stands for an
   * element the dispatch would give its own class.
   */
  predicate InfoValid(item: Info) {
    match item
    case KeyNameInfo(n) => n.name.Some?
    case X509DataInfo(x) => X509DataValid(x)
    case ChunkInfo(c) =>
      Valid(c) && !Named(c.xml, Namespaces.XMLDSIG, "KeyName") && !Named(c.xml, Namespaces.XMLDSIG, "X509Data")
  }

  predicate WellFormed(k: KeyInfo) {
    forall i :: 0 <= i < |k.info| ==> InfoValid(k.info[i])
  }

  /** Every parsed `KeyInfo` is well formed. */
  lemma ParseWellFormed(xml: Element)
    ensures WellFormed(Parse(xml))
  {
  }

  /** Classifying the element of a valid entry gives back that entry. */
  lemma ClassifyRenderInfo(item: Info)
    requires InfoValid(item)
    ensures Classify(RenderInfo(item)) == item
  {
    match item
    case KeyNameInfo(n) => DsKeyName.ParseRender(n);
    case X509DataInfo(x) =>
    case ChunkInfo(c) =>
  }

  lemma {:induction false} ChildElementsOfElems(nodes: seq<Node>)
    requires forall i :: 0 <= i < |nodes| ==> nodes[i].Elem?
    ensures ChildElements(nodes) == seq(|nodes|, i requires 0 <= i < |nodes| => nodes[i].elem)
  {
    if nodes != [] {
      ChildElementsOfElems(nodes[1..]);
    }
  }

  /** Parsing the rendered element of a well-formed `KeyInfo` gives it back. */
  lemma ParseRender(k: KeyInfo)
    requires WellFormed(k)
    ensures Parse(Render(k)) == k
  {
    var e := Render(k);
    ChildElementsOfElems(e.children);
    forall i | 0 <= i < |k.info|
      ensures Parse(e).info[i] == k.info[i]
    {
      ClassifyRenderInfo(k.info[i]);
    }
  }

  /** Rendering after `addInfo` appends exactly the new entry's element. */
  lemma RenderAddInfo(k: KeyInfo, item: Info)
    requires Renderable(k) && InfoRenderable(item)
    ensures Render(AddInfo(k, item)) == AppendChild(Render(k), RenderInfo(item))
  {
  }
}
