/**
 * `SAML2\XML\Chunk`: an opaque copy of an XML element the typed model does
 * not understand, with its local name and namespace cached beside it.
 */
module XmlChunk {
  import opened Wrappers
  import opened Php
  import opened Dom
  import opened XmlText

  datatype Chunk = Chunk(localName: string, namespaceURI: Option<string>, xml: Element)

  /** The cached name and namespace are those of the stored element. */
  predicate Valid(c: Chunk) {
    c.localName == c.xml.localName && c.namespaceURI == c.xml.ns
  }

  /** The constructor: records the element's name and namespace and keeps a deep copy of it. */
  function FromElement(e: Element): (c: Chunk)
    ensures c.localName == e.localName && c.namespaceURI == e.ns
    ensures c.xml == e
    ensures Valid(c)
  {
    Chunk(e.localName, e.ns, e)
  }

  /**
   * `toXML`: a copy of the stored element becomes the parent's new last
   * child; the copy is returned with the updated parent.
   */
  function ToXml(c: Chunk, parent: Element): (r: (Element, Element))
    ensures r.1 == c.xml
    ensures r.0.children == parent.children + [Elem(c.xml)]
    ensures r.0.(children := parent.children) == parent
  {
    (AppendChild(parent, c.xml), c.xml)
  }

  /** `setLocalName`: replaces the cached name only. */
  function SetLocalName(c: Chunk, localName: string): (r: Chunk)
    ensures r.localName == localName && r.namespaceURI == c.namespaceURI && r.xml == c.xml
    ensures Valid(c) ==> (Valid(r) <==> localName == c.xml.localName)
  {
    c.(localName := localName)
  }

  /** `setNamespaceURI`: replaces the cached namespace only. */
  function SetNamespaceURI(c: Chunk, namespaceURI: Option<string>): (r: Chunk)
    ensures r.namespaceURI == namespaceURI && r.localName == c.localName && r.xml == c.xml
    ensures Valid(c) ==> (Valid(r) <==> namespaceURI == c.xml.ns)
  {
    c.(namespaceURI := namespaceURI)
  }

  /** `serialize`: the text of the stored element alone; the cached fields are not written. */
  function Serialize(c: Chunk): (text: seq<Token>)
    ensures FromString(text) == Success(c.xml)
  {
    FromStringSaveXml(c.xml);
    SaveXml(c.xml)
  }

  /** Only the stored element is written: chunks storing the same element serialize alike. */
  lemma SerializeStoredElementOnly(c: Chunk, d: Chunk)
    requires c.xml == d.xml
    ensures Serialize(c) == Serialize(d)
  {
  }

  /**
   * `unserialize`: parses the text and re-derives the cached name and
   * namespace from the parsed document element; text that does not parse
   * is an error.
   */
  function Unserialize(text: seq<Token>): (r: Result<Chunk, Throwable>)
    ensures r.Success? <==> FromString(text).Success?
    ensures r.Success? ==> r.value.xml == FromString(text).value && Valid(r.value)
  {
    var root :- FromString(text);
    Success(Chunk(root.localName, root.ns, root))
  }

  /**
   * Unserializing what was serialized gives back the stored element with the
   * cached fields re-derived from it, hence the chunk itself whenever it is valid.
   */
  lemma UnserializeSerialize(c: Chunk)
    ensures Unserialize(Serialize(c)) == Success(FromElement(c.xml))
    ensures Valid(c) ==> Unserialize(Serialize(c)) == Success(c)
  {
  }
}
