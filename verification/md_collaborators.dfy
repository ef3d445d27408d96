/**
 * The metadata classes `SSODescriptorType` builds on. `RoleDescriptor.php`,
 * `EndpointType.php` and `IndexedEndpointType.php` are not part of this
 * model: each is an opaque holder of what it read, rendered back unchanged.
 */
module MdCollaborators {
  import opened Wrappers
  import opened Dom
  import Namespaces

  /** An `md:EndpointType` value: its attributes and children, uninterpreted. */
  datatype EndpointType = EndpointType(attrs: map<string, string>, children: seq<Node>)

  /** An `md:IndexedEndpointType` value: its attributes and children, uninterpreted. */
  datatype IndexedEndpointType = IndexedEndpointType(attrs: map<string, string>, children: seq<Node>)

  function ParseEndpoint(xml: Element): (ep: EndpointType)
    ensures ep.attrs == xml.attrs && ep.children == xml.children
  {
    EndpointType(xml.attrs, xml.children)
  }

  /** `EndpointType::toXML($parent, $name)`: an element of the metadata namespace with the given name. */
  function RenderEndpoint(ep: EndpointType, localName: string): (e: Element)
    ensures Named(e, Namespaces.MD, localName)
    ensures ParseEndpoint(e) == ep
  {
    Element(Some(Namespaces.MD), localName, ep.attrs, ep.children)
  }

  function ParseIndexedEndpoint(xml: Element): (ep: IndexedEndpointType)
    ensures ep.attrs == xml.attrs && ep.children == xml.children
  {
    IndexedEndpointType(xml.attrs, xml.children)
  }

  /** `IndexedEndpointType::toXML($parent, $name)`: an element of the metadata namespace with the given name. */
  function RenderIndexedEndpoint(ep: IndexedEndpointType, localName: string): (e: Element)
    ensures Named(e, Namespaces.MD, localName)
    ensures ParseIndexedEndpoint(e) == ep
  {
    Element(Some(Namespaces.MD), localName, ep.attrs, ep.children)
  }

  /**
   * The children `RoleDescriptor` reads and writes itself, per the
   * `md:RoleDescriptorType` schema of saml-metadata-2.0-os section 2.4.1.
   */
  predicate RoleContent(n: Node) {
    n.Elem? && n.elem.ns == Some(Namespaces.MD)
    && n.elem.localName in {"Extensions", "KeyDescriptor", "Organization", "ContactPerson"}
  }

  /** A `RoleDescriptor`: the element name its subclass passes in, its attributes and its own children. */
  datatype RoleDescriptor = RoleDescriptor(elementName: string, attrs: map<string, string>, content: seq<Node>)

  predicate RoleValid(r: RoleDescriptor) {
    forall i :: 0 <= i < |r.content| ==> RoleContent(r.content[i])
  }

  /** The children of a node list that belong to `RoleDescriptor`, in document order. */
  function RoleContentOf(nodes: seq<Node>): (content: seq<Node>)
    ensures forall i :: 0 <= i < |content| ==> RoleContent(content[i])
    ensures forall n :: n in content <==> n in nodes && RoleContent(n)
  {
    if nodes == [] then []
    else
      var rest := RoleContentOf(nodes[1..]);
      assert forall n :: n in nodes <==> n == nodes[0] || n in nodes[1..];
      if RoleContent(nodes[0]) then [nodes[0]] + rest else rest
  }

  lemma RoleContentOfAppend(a: seq<Node>, b: seq<Node>)
    ensures RoleContentOf(a + b) == RoleContentOf(a) + RoleContentOf(b)
  {
    if a != [] {
      assert (a + b)[1..] == a[1..] + b;
      RoleContentOfAppend(a[1..], b);
    } else {
      assert a + b == b;
    }
  }

  lemma {:induction false} RoleContentOfAll(nodes: seq<Node>)
    requires forall i :: 0 <= i < |nodes| ==> RoleContent(nodes[i])
    ensures RoleContentOf(nodes) == nodes
  {
    if nodes != [] {
      RoleContentOfAll(nodes[1..]);
      assert nodes == [nodes[0]] + nodes[1..];
    }
  }

  lemma {:induction false} RoleContentOfNone(nodes: seq<Node>)
    requires forall i :: 0 <= i < |nodes| ==> !RoleContent(nodes[i])
    ensures RoleContentOf(nodes) == []
  {
    if nodes != [] {
      RoleContentOfNone(nodes[1..]);
    }
  }

  /** `RoleDescriptor::__construct($elementName, null)`. */
  function NewRole(elementName: string): (r: RoleDescriptor)
    ensures r.elementName == elementName && r.attrs == map[] && r.content == []
  {
    RoleDescriptor(elementName, map[], [])
  }

  /** `RoleDescriptor::__construct($elementName, $xml)`: the attributes and the role's own children. */
  function ParseRole(elementName: string, xml: Element): (r: RoleDescriptor)
    ensures r.elementName == elementName && r.attrs == xml.attrs
    ensures r.content == RoleContentOf(xml.children)
    ensures RoleValid(r)
  {
    RoleDescriptor(elementName, xml.attrs, RoleContentOf(xml.children))
  }

  /** `RoleDescriptor::toXML`: the metadata element named by the subclass, holding the role's own children. */
  function RenderRole(r: RoleDescriptor): (e: Element)
    ensures Named(e, Namespaces.MD, r.elementName) && e.attrs == r.attrs
    ensures e.children == r.content
  {
    Element(Some(Namespaces.MD), r.elementName, r.attrs, r.content)
  }
}
