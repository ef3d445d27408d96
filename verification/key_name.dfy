/** `SAML2\XML\ds\KeyName`: the `ds:KeyName` element of XML Signature, section 4.4.1. */
module DsKeyName {
  import opened Wrappers
  import opened Dom
  import Namespaces

  /** The key name; `None` until one is set or parsed. */
  datatype KeyName = KeyName(name: Option<string>)

  /** The constructor called without an element. */
  function New(): (k: KeyName)
    ensures k.name.None?
  {
    KeyName(None)
  }

  /** The constructor called with an element: the name is the element's text content. */
  function Parse(xml: Element): (k: KeyName)
    ensures k.name == Some(TextContent(xml))
  {
    KeyName(Some(TextContent(xml)))
  }

  /** Whether `toXML` may be called: its assertion demands a name. */
  predicate Renderable(k: KeyName) {
    k.name.Some?
  }

  /** `toXML`: a `ds:KeyName` element in the XML Signature namespace whose text is the name. */
  function Render(k: KeyName): (e: Element)
    requires Renderable(k)
    ensures Named(e, Namespaces.XMLDSIG, "KeyName")
    ensures TextContent(e) == k.name.value
  {
    StringElement(Namespaces.XMLDSIG, "KeyName", k.name.value)
  }

  /** Parsing the rendered element gives back the same name. */
  lemma ParseRender(k: KeyName)
    requires Renderable(k)
    ensures Parse(Render(k)) == k
  {
  }
}
