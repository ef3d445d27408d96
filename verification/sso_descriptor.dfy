/**
 * `SAML2\XML\md\SSODescriptorType`: the endpoint lists and name-identifier
 * formats shared by identity- and service-provider descriptors
 * (saml-metadata-2.0-os section 2.4.2).
 */
module MdSsoDescriptor {
  import opened Wrappers
  import opened Dom
  import opened MdCollaborators
  import Php
  import Namespaces

  const ARS: string := "ArtifactResolutionService"
  const SLO: string := "SingleLogoutService"
  const MNID: string := "ManageNameIDService"
  const NAMEID_FORMAT: string := "NameIDFormat"

  datatype SsoDescriptor = SsoDescriptor(
    role: RoleDescriptor,
    artifactResolutionService: seq<IndexedEndpointType>,
    singleLogoutService: seq<EndpointType>,
    manageNameIDService: seq<EndpointType>,
    nameIDFormat: seq<string>)

  /** The constructor called without an element: all four lists are empty. */
  function New(elementName: string): (s: SsoDescriptor)
    ensures s.role == NewRole(elementName)
    ensures s.artifactResolutionService == [] && s.singleLogoutService == []
    ensures s.manageNameIDService == [] && s.nameIDFormat == []
  {
    SsoDescriptor(NewRole(elementName), [], [], [], [])
  }

  /**
   * The constructor called with an element: each endpoint list holds the
   * matching `md:` children in document order, and the name-identifier
   * formats are the text of the `md:NameIDFormat` children.
   */
  function Parse(elementName: string, xml: Element): (s: SsoDescriptor)
    ensures s.role == ParseRole(elementName, xml)
    ensures var es := Select(xml.children, Namespaces.MD, ARS);
      |s.artifactResolutionService| == |es|
      && forall i :: 0 <= i < |es| ==> s.artifactResolutionService[i] == ParseIndexedEndpoint(es[i])
    ensures var es := Select(xml.children, Namespaces.MD, SLO);
      |s.singleLogoutService| == |es|
      && forall i :: 0 <= i < |es| ==> s.singleLogoutService[i] == ParseEndpoint(es[i])
    ensures var es := Select(xml.children, Namespaces.MD, MNID);
      |s.manageNameIDService| == |es|
      && forall i :: 0 <= i < |es| ==> s.manageNameIDService[i] == ParseEndpoint(es[i])
    ensures s.nameIDFormat == ExtractStrings(xml.children, Namespaces.MD, NAMEID_FORMAT)
  {
    var ars := Select(xml.children, Namespaces.MD, ARS);
    var slo := Select(xml.children, Namespaces.MD, SLO);
    var mnid := Select(xml.children, Namespaces.MD, MNID);
    SsoDescriptor(
      ParseRole(elementName, xml),
      seq(|ars|, i requires 0 <= i < |ars| => ParseIndexedEndpoint(ars[i])),
      seq(|slo|, i requires 0 <= i < |slo| => ParseEndpoint(slo[i])),
      seq(|mnid|, i requires 0 <= i < |mnid| => ParseEndpoint(mnid[i])),
      ExtractStrings(xml.children, Namespaces.MD, NAMEID_FORMAT))
  }

  /** `addArtifactResolutionService`: one endpoint at the end of its list; nothing else changes. */
  function AddArtifactResolutionService(s: SsoDescriptor, ep: IndexedEndpointType): (r: SsoDescriptor)
    ensures |r.artifactResolutionService| == |s.artifactResolutionService| + 1
    ensures r.artifactResolutionService[..|s.artifactResolutionService|] == s.artifactResolutionService
    ensures r.artifactResolutionService[|s.artifactResolutionService|] == ep
    ensures r.(artifactResolutionService := s.artifactResolutionService) == s
  {
    s.(artifactResolutionService := s.artifactResolutionService + [ep])
  }

  /** `addSingleLogoutService`: one endpoint at the end of its list; nothing else changes. */
  function AddSingleLogoutService(s: SsoDescriptor, ep: EndpointType): (r: SsoDescriptor)
    ensures |r.singleLogoutService| == |s.singleLogoutService| + 1
    ensures r.singleLogoutService[..|s.singleLogoutService|] == s.singleLogoutService
    ensures r.singleLogoutService[|s.singleLogoutService|] == ep
    ensures r.(singleLogoutService := s.singleLogoutService) == s
  {
    s.(singleLogoutService := s.singleLogoutService + [ep])
  }

  /** `addManageNameIDService`: one endpoint at the end of its list; nothing else changes. */
  function AddManageNameIDService(s: SsoDescriptor, ep: EndpointType): (r: SsoDescriptor)
    ensures |r.manageNameIDService| == |s.manageNameIDService| + 1
    ensures r.manageNameIDService[..|s.manageNameIDService|] == s.manageNameIDService
    ensures r.manageNameIDService[|s.manageNameIDService|] == ep
    ensures r.(manageNameIDService := s.manageNameIDService) == s
  {
    s.(manageNameIDService := s.manageNameIDService + [ep])
  }

  /** `setArtifactResolutionService`: replaces exactly its own list. */
  function SetArtifactResolutionService(s: SsoDescriptor, eps: seq<IndexedEndpointType>): (r: SsoDescriptor)
    ensures r.artifactResolutionService == eps
    ensures r.(artifactResolutionService := s.artifactResolutionService) == s
  {
    s.(artifactResolutionService := eps)
  }

  /** `setSingleLogoutService`: replaces exactly its own list. */
  function SetSingleLogoutService(s: SsoDescriptor, eps: seq<EndpointType>): (r: SsoDescriptor)
    ensures r.singleLogoutService == eps
    ensures r.(singleLogoutService := s.singleLogoutService) == s
  {
    s.(singleLogoutService := eps)
  }

  /** `setManageNameIDService`: replaces exactly its own list. */
  function SetManageNameIDService(s: SsoDescriptor, eps: seq<EndpointType>): (r: SsoDescriptor)
    ensures r.manageNameIDService == eps
    ensures r.(manageNameIDService := s.manageNameIDService) == s
  {
    s.(manageNameIDService := eps)
  }

  /** `setNameIDFormat`: replaces exactly its own list. */
  function SetNameIDFormat(s: SsoDescriptor, formats: seq<string>): (r: SsoDescriptor)
    ensures r.nameIDFormat == formats
    ensures r.(nameIDFormat := s.nameIDFormat) == s
  {
    s.(nameIDFormat := formats)
  }

  function IndexedEndpointNodes(eps: seq<IndexedEndpointType>, localName: string): (nodes: seq<Node>)
    ensures |nodes| == |eps|
    ensures forall i :: 0 <= i < |eps| ==> nodes[i] == Elem(RenderIndexedEndpoint(eps[i], localName))
  {
    seq(|eps|, i requires 0 <= i < |eps| => Elem(RenderIndexedEndpoint(eps[i], localName)))
  }

  function EndpointNodes(eps: seq<EndpointType>, localName: string): (nodes: seq<Node>)
    ensures |nodes| == |eps|
    ensures forall i :: 0 <= i < |eps| ==> nodes[i] == Elem(RenderEndpoint(eps[i], localName))
  {
    seq(|eps|, i requires 0 <= i < |eps| => Elem(RenderEndpoint(eps[i], localName)))
  }

  /**
   * `toXML`: the role's element and children first, then one child per
   * ArtifactResolutionService, SingleLogoutService and ManageNameIDService
   * endpoint and per NameIDFormat string, list by list in that order.
   */
  function Render(s: SsoDescriptor): (e: Element)
    ensures Named(e, Namespaces.MD, s.role.elementName) && e.attrs == s.role.attrs
    ensures e.children
         == s.role.content
          + IndexedEndpointNodes(s.artifactResolutionService, ARS)
          + EndpointNodes(s.singleLogoutService, SLO)
          + EndpointNodes(s.manageNameIDService, MNID)
          + StringNodes(Namespaces.MD, NAMEID_FORMAT, s.nameIDFormat)
  {
    var e := RenderRole(s.role);
    e.(children := e.children
      + IndexedEndpointNodes(s.artifactResolutionService, ARS)
      + EndpointNodes(s.singleLogoutService, SLO)
      + EndpointNodes(s.manageNameIDService, MNID)
      + StringNodes(Namespaces.MD, NAMEID_FORMAT, s.nameIDFormat))
  }

  /** Where a child sits in the schema's sequence: role content, then the four lists in order. */
  function Rank(n: Node): nat {
    if n.Elem? && Named(n.elem, Namespaces.MD, ARS) then 1
    else if n.Elem? && Named(n.elem, Namespaces.MD, SLO) then 2
    else if n.Elem? && Named(n.elem, Namespaces.MD, MNID) then 3
    else if n.Elem? && Named(n.elem, Namespaces.MD, NAMEID_FORMAT) then 4
    else 0
  }

  predicate RankOrdered(nodes: seq<Node>) {
    forall i, j :: 0 <= i < j < |nodes| ==> Rank(nodes[i]) <= Rank(nodes[j])
  }

  predicate RanksAtMost(nodes: seq<Node>, k: nat) {
    forall i :: 0 <= i < |nodes| ==> Rank(nodes[i]) <= k
  }

  predicate RanksEqual(nodes: seq<Node>, k: nat) {
    forall i :: 0 <= i < |nodes| ==> Rank(nodes[i]) == k
  }

  /** Appending a block of rank `k` to an ordered list whose ranks are at most `k` keeps it ordered. */
  lemma AppendBlock(a: seq<Node>, b: seq<Node>, k: nat)
    requires RankOrdered(a) && RanksAtMost(a, k) && RanksEqual(b, k)
    ensures RankOrdered(a + b) && RanksAtMost(a + b, k)
  {
    var c := a + b;
    forall i, j | 0 <= i < j < |c|
      ensures Rank(c[i]) <= Rank(c[j])
    {
      if j < |a| {
        assert c[i] == a[i] && c[j] == a[j];
      } else if i < |a| {
        assert c[i] == a[i] && c[j] == b[j - |a|];
      } else {
        assert c[i] == b[i - |a|] && c[j] == b[j - |a|];
      }
    }
  }

  /**
   * What the constructor can produce: the role's own children are none of the
   * four lists' elements, and no name-identifier format has surrounding whitespace.
   */
  predicate WellFormed(s: SsoDescriptor) {
    && RoleValid(s.role)
    && forall i :: 0 <= i < |s.nameIDFormat| ==> Php.Trimmed(s.nameIDFormat[i])
  }

  /**
   * When the role holds only its own children, the rendered children follow the schema's
   * order: role content, ArtifactResolutionService, SingleLogoutService,
   * ManageNameIDService, NameIDFormat.
   */
  lemma RenderFollowsSchemaOrder(s: SsoDescriptor)
    requires RoleValid(s.role)
    ensures RankOrdered(Render(s).children)
  {
    var c := s.role.content;
    var a := IndexedEndpointNodes(s.artifactResolutionService, ARS);
    var l := EndpointNodes(s.singleLogoutService, SLO);
    var m := EndpointNodes(s.manageNameIDService, MNID);
    var f := StringNodes(Namespaces.MD, NAMEID_FORMAT, s.nameIDFormat);
    assert RanksEqual(c, 0);
    AppendBlock(c, a, 1);
    AppendBlock(c + a, l, 2);
    AppendBlock(c + a + l, m, 3);
    AppendBlock(c + a + l + m, f, 4);
  }

  /** A query over the rendered children is the concatenation of the query over each block. */
  lemma SelectBlocks(c: seq<Node>, a: seq<Node>, l: seq<Node>, m: seq<Node>, f: seq<Node>, name: string)
    ensures Select(c + a + l + m + f, Namespaces.MD, name)
         == Select(c, Namespaces.MD, name) + Select(a, Namespaces.MD, name) + Select(l, Namespaces.MD, name)
          + Select(m, Namespaces.MD, name) + Select(f, Namespaces.MD, name)
  {
    SelectAppend(c + a + l + m, f, Namespaces.MD, name);
    SelectAppend(c + a + l, m, Namespaces.MD, name);
    SelectAppend(c + a, l, Namespaces.MD, name);
    SelectAppend(c, a, Namespaces.MD, name);
  }

  /** Each list's query over the rendered children finds exactly that list's own block. */
  lemma SelectRendered(s: SsoDescriptor, name: string)
    requires RoleValid(s.role)
    requires name in {ARS, SLO, MNID, NAMEID_FORMAT}
    ensures name == ARS ==>
      Select(Render(s).children, Namespaces.MD, name)
      == Select(IndexedEndpointNodes(s.artifactResolutionService, ARS), Namespaces.MD, name)
    ensures name == SLO ==>
      Select(Render(s).children, Namespaces.MD, name)
      == Select(EndpointNodes(s.singleLogoutService, SLO), Namespaces.MD, name)
    ensures name == MNID ==>
      Select(Render(s).children, Namespaces.MD, name)
      == Select(EndpointNodes(s.manageNameIDService, MNID), Namespaces.MD, name)
    ensures name == NAMEID_FORMAT ==>
      Select(Render(s).children, Namespaces.MD, name)
      == Select(StringNodes(Namespaces.MD, NAMEID_FORMAT, s.nameIDFormat), Namespaces.MD, name)
  {
    if name == ARS {
      SelectRenderedArs(s);
    } else if name == SLO {
      SelectRenderedSlo(s);
    } else if name == MNID {
      SelectRenderedMnid(s);
    } else {
      SelectRenderedNameIDFormat(s);
    }
  }

  /** One case of `SelectRendered`: the role's children and the other three lists select nothing. */
  lemma SelectRenderedArs(s: SsoDescriptor)
    requires RoleValid(s.role)
    ensures Select(Render(s).children, Namespaces.MD, ARS)
         == Select(IndexedEndpointNodes(s.artifactResolutionService, ARS), Namespaces.MD, ARS)
  {
    var c := s.role.content;
    var a := IndexedEndpointNodes(s.artifactResolutionService, ARS);
    var l := EndpointNodes(s.singleLogoutService, SLO);
    var m := EndpointNodes(s.manageNameIDService, MNID);
    var f := StringNodes(Namespaces.MD, NAMEID_FORMAT, s.nameIDFormat);
    SelectBlocks(c, a, l, m, f, ARS);
    SelectNone(c, Namespaces.MD, ARS);
    SelectNone(l, Namespaces.MD, ARS);
    SelectNone(m, Namespaces.MD, ARS);
    SelectNone(f, Namespaces.MD, ARS);
  }

  lemma SelectRenderedSlo(s: SsoDescriptor)
    requires RoleValid(s.role)
    ensures Select(Render(s).children, Namespaces.MD, SLO)
         == Select(EndpointNodes(s.singleLogoutService, SLO), Namespaces.MD, SLO)
  {
    var c := s.role.content;
    var a := IndexedEndpointNodes(s.artifactResolutionService, ARS);
    var l := EndpointNodes(s.singleLogoutService, SLO);
    var m := EndpointNodes(s.manageNameIDService, MNID);
    var f := StringNodes(Namespaces.MD, NAMEID_FORMAT, s.nameIDFormat);
    SelectBlocks(c, a, l, m, f, SLO);
    SelectNone(c, Namespaces.MD, SLO);
    SelectNone(a, Namespaces.MD, SLO);
    SelectNone(m, Namespaces.MD, SLO);
    SelectNone(f, Namespaces.MD, SLO);
  }

  lemma SelectRenderedMnid(s: SsoDescriptor)
    requires RoleValid(s.role)
    ensures Select(Render(s).children, Namespaces.MD, MNID)
         == Select(EndpointNodes(s.manageNameIDService, MNID), Namespaces.MD, MNID)
  {
    var c := s.role.content;
    var a := IndexedEndpointNodes(s.artifactResolutionService, ARS);
    var l := EndpointNodes(s.singleLogoutService, SLO);
    var m := EndpointNodes(s.manageNameIDService, MNID);
    var f := StringNodes(Namespaces.MD, NAMEID_FORMAT, s.nameIDFormat);
    SelectBlocks(c, a, l, m, f, MNID);
    SelectNone(c, Namespaces.MD, MNID);
    SelectNone(a, Namespaces.MD, MNID);
    SelectNone(l, Namespaces.MD, MNID);
    SelectNone(f, Namespaces.MD, MNID);
  }

  lemma SelectRenderedNameIDFormat(s: SsoDescriptor)
    requires RoleValid(s.role)
    ensures Select(Render(s).children, Namespaces.MD, NAMEID_FORMAT)
         == Select(StringNodes(Namespaces.MD, NAMEID_FORMAT, s.nameIDFormat), Namespaces.MD, NAMEID_FORMAT)
  {
    var c := s.role.content;
    var a := IndexedEndpointNodes(s.artifactResolutionService, ARS);
    var l := EndpointNodes(s.singleLogoutService, SLO);
    var m := EndpointNodes(s.manageNameIDService, MNID);
    var f := StringNodes(Namespaces.MD, NAMEID_FORMAT, s.nameIDFormat);
    SelectBlocks(c, a, l, m, f, NAMEID_FORMAT);
    SelectNone(c, Namespaces.MD, NAMEID_FORMAT);
    SelectNone(a, Namespaces.MD, NAMEID_FORMAT);
    SelectNone(l, Namespaces.MD, NAMEID_FORMAT);
    SelectNone(m, Namespaces.MD, NAMEID_FORMAT);
  }

  /** `RoleDescriptor` reads back only its own children from the rendered element. */
  lemma RoleContentRendered(s: SsoDescriptor)
    requires RoleValid(s.role)
    ensures RoleContentOf(Render(s).children) == s.role.content
  {
    var c := s.role.content;
    var a := IndexedEndpointNodes(s.artifactResolutionService, ARS);
    var l := EndpointNodes(s.singleLogoutService, SLO);
    var m := EndpointNodes(s.manageNameIDService, MNID);
    var f := StringNodes(Namespaces.MD, NAMEID_FORMAT, s.nameIDFormat);
    RoleContentOfAppend(c + a + l + m, f);
    RoleContentOfAppend(c + a + l, m);
    RoleContentOfAppend(c + a, l);
    RoleContentOfAppend(c, a);
    RoleContentOfAll(c);
    RoleContentOfNone(a);
    RoleContentOfNone(l);
    RoleContentOfNone(m);
    RoleContentOfNone(f);
  }

  lemma ParseRenderArtifactResolutionService(s: SsoDescriptor)
    requires RoleValid(s.role)
    ensures Parse(s.role.elementName, Render(s)).artifactResolutionService == s.artifactResolutionService
  {
    SelectRendered(s, ARS);
    SelectAll(IndexedEndpointNodes(s.artifactResolutionService, ARS), Namespaces.MD, ARS);
  }

  lemma ParseRenderSingleLogoutService(s: SsoDescriptor)
    requires RoleValid(s.role)
    ensures Parse(s.role.elementName, Render(s)).singleLogoutService == s.singleLogoutService
  {
    SelectRendered(s, SLO);
    SelectAll(EndpointNodes(s.singleLogoutService, SLO), Namespaces.MD, SLO);
  }

  lemma ParseRenderManageNameIDService(s: SsoDescriptor)
    requires RoleValid(s.role)
    ensures Parse(s.role.elementName, Render(s)).manageNameIDService == s.manageNameIDService
  {
    SelectRendered(s, MNID);
    SelectAll(EndpointNodes(s.manageNameIDService, MNID), Namespaces.MD, MNID);
  }

  lemma ParseRenderNameIDFormat(s: SsoDescriptor)
    requires WellFormed(s)
    ensures Parse(s.role.elementName, Render(s)).nameIDFormat == s.nameIDFormat
  {
    SelectRendered(s, NAMEID_FORMAT);
    ExtractStringNodes(Namespaces.MD, NAMEID_FORMAT, s.nameIDFormat);
  }

  /** Parsing the rendered element of a well-formed descriptor gives it back. */
  lemma ParseRender(s: SsoDescriptor)
    requires WellFormed(s)
    ensures Parse(s.role.elementName, Render(s)) == s
  {
    ParseRenderArtifactResolutionService(s);
    ParseRenderSingleLogoutService(s);
    ParseRenderManageNameIDService(s);
    ParseRenderNameIDFormat(s);
    RoleContentRendered(s);
  }

  lemma IndexedEndpointNodesAppend(eps: seq<IndexedEndpointType>, ep: IndexedEndpointType, localName: string)
    ensures IndexedEndpointNodes(eps + [ep], localName)
         == IndexedEndpointNodes(eps, localName) + [Elem(RenderIndexedEndpoint(ep, localName))]
  {
  }

  lemma EndpointNodesAppend(eps: seq<EndpointType>, ep: EndpointType, localName: string)
    ensures EndpointNodes(eps + [ep], localName)
         == EndpointNodes(eps, localName) + [Elem(RenderEndpoint(ep, localName))]
  {
  }

  /** After `addArtifactResolutionService` the rendered list gains exactly the new endpoint's element at its end. */
  lemma RenderAddArtifactResolutionService(s: SsoDescriptor, ep: IndexedEndpointType)
    requires RoleValid(s.role)
    ensures Select(Render(AddArtifactResolutionService(s, ep)).children, Namespaces.MD, ARS)
         == Select(Render(s).children, Namespaces.MD, ARS) + [RenderIndexedEndpoint(ep, ARS)]
  {
    var r := AddArtifactResolutionService(s, ep);
    var a := IndexedEndpointNodes(s.artifactResolutionService, ARS);
    var x := [Elem(RenderIndexedEndpoint(ep, ARS))];
    assert r.role == s.role;
    calc {
      Select(Render(r).children, Namespaces.MD, ARS);
      { SelectRendered(r, ARS); }
      Select(IndexedEndpointNodes(r.artifactResolutionService, ARS), Namespaces.MD, ARS);
      { IndexedEndpointNodesAppend(s.artifactResolutionService, ep, ARS); }
      Select(a + x, Namespaces.MD, ARS);
      { SelectAppend(a, x, Namespaces.MD, ARS); SelectAll(x, Namespaces.MD, ARS); }
      Select(a, Namespaces.MD, ARS) + [RenderIndexedEndpoint(ep, ARS)];
      { SelectRendered(s, ARS); }
      Select(Render(s).children, Namespaces.MD, ARS) + [RenderIndexedEndpoint(ep, ARS)];
    }
  }

  /** After `addSingleLogoutService` the rendered list gains exactly the new endpoint's element at its end. */
  lemma RenderAddSingleLogoutService(s: SsoDescriptor, ep: EndpointType)
    requires RoleValid(s.role)
    ensures Select(Render(AddSingleLogoutService(s, ep)).children, Namespaces.MD, SLO)
         == Select(Render(s).children, Namespaces.MD, SLO) + [RenderEndpoint(ep, SLO)]
  {
    var r := AddSingleLogoutService(s, ep);
    var a := EndpointNodes(s.singleLogoutService, SLO);
    var x := [Elem(RenderEndpoint(ep, SLO))];
    assert r.role == s.role;
    calc {
      Select(Render(r).children, Namespaces.MD, SLO);
      { SelectRendered(r, SLO); }
      Select(EndpointNodes(r.singleLogoutService, SLO), Namespaces.MD, SLO);
      { EndpointNodesAppend(s.singleLogoutService, ep, SLO); }
      Select(a + x, Namespaces.MD, SLO);
      { SelectAppend(a, x, Namespaces.MD, SLO); SelectAll(x, Namespaces.MD, SLO); }
      Select(a, Namespaces.MD, SLO) + [RenderEndpoint(ep, SLO)];
      { SelectRendered(s, SLO); }
      Select(Render(s).children, Namespaces.MD, SLO) + [RenderEndpoint(ep, SLO)];
    }
  }

  /** After `addManageNameIDService` the rendered list gains exactly the new endpoint's element at its end. */
  lemma RenderAddManageNameIDService(s: SsoDescriptor, ep: EndpointType)
    requires RoleValid(s.role)
    ensures Select(Render(AddManageNameIDService(s, ep)).children, Namespaces.MD, MNID)
         == Select(Render(s).children, Namespaces.MD, MNID) + [RenderEndpoint(ep, MNID)]
  {
    var r := AddManageNameIDService(s, ep);
    var a := EndpointNodes(s.manageNameIDService, MNID);
    var x := [Elem(RenderEndpoint(ep, MNID))];
    assert r.role == s.role;
    calc {
      Select(Render(r).children, Namespaces.MD, MNID);
      { SelectRendered(r, MNID); }
      Select(EndpointNodes(r.manageNameIDService, MNID), Namespaces.MD, MNID);
      { EndpointNodesAppend(s.manageNameIDService, ep, MNID); }
      Select(a + x, Namespaces.MD, MNID);
      { SelectAppend(a, x, Namespaces.MD, MNID); SelectAll(x, Namespaces.MD, MNID); }
      Select(a, Namespaces.MD, MNID) + [RenderEndpoint(ep, MNID)];
      { SelectRendered(s, MNID); }
      Select(Render(s).children, Namespaces.MD, MNID) + [RenderEndpoint(ep, MNID)];
    }
  }
}
