/**
 * `SAML2\XML\alg\SigningMethod`: the `alg:SigningMethod` element of the SAML
 * V2.0 Metadata Profile for Algorithm Support.
 */
module AlgSigningMethod {
  import opened Wrappers
  import opened Php
  import opened Dom
  import Namespaces

  /** The algorithm URI and the optional key-size bounds, in bits. */
  datatype SigningMethod = SigningMethod(algorithm: Option<string>, minKeySize: Option<Int64>, maxKeySize: Option<Int64>)

  const MISSING_ALGORITHM: Throwable := Exception("Missing required attribute \"Algorithm\" in alg:SigningMethod element.")

  /** The constructor called without an element: nothing is set. */
  function New(): (m: SigningMethod)
    ensures m.algorithm.None? && m.minKeySize.None? && m.maxKeySize.None?
  {
    SigningMethod(None, None, None)
  }

  /** A key size attribute read with `intval`, or `None` when the attribute is absent. */
  function KeySize(xml: Element, name: string): (size: Option<Int64>)
    ensures size.Some? <==> name in xml.attrs
    ensures size.Some? ==> size.value == Intval(xml.attrs[name])
  {
    match GetAttribute(xml, name)
    case None => None
    case Some(v) => Some(Intval(v))
  }

  /**
   * The constructor called with an element: `Algorithm` is required and
   * copied verbatim; each key size is set only when its attribute is present.
   */
  function Parse(xml: Element): (r: Result<SigningMethod, Throwable>)
    ensures r.Failure? <==> "Algorithm" !in xml.attrs
    ensures r.Failure? ==> r.error == MISSING_ALGORITHM
    ensures r.Success? ==> r.value.algorithm == Some(xml.attrs["Algorithm"])
    ensures r.Success? ==> r.value.minKeySize == KeySize(xml, "MinKeySize")
    ensures r.Success? ==> r.value.maxKeySize == KeySize(xml, "MaxKeySize")
  {
    match GetAttribute(xml, "Algorithm")
    case None => Failure(MISSING_ALGORITHM)
    case Some(algorithm) =>
      Success(SigningMethod(Some(algorithm), KeySize(xml, "MinKeySize"), KeySize(xml, "MaxKeySize")))
  }

  /** Whether `toXML` may be called: its assertion demands an algorithm. */
  predicate Renderable(m: SigningMethod) {
    m.algorithm.Some?
  }

  /** The key size attributes `toXML` writes: each one only when it is set. */
  function KeySizeAttrs(m: SigningMethod): (attrs: map<string, string>)
    ensures "MinKeySize" in attrs <==> m.minKeySize.Some?
    ensures "MaxKeySize" in attrs <==> m.maxKeySize.Some?
    ensures m.minKeySize.Some? ==> attrs["MinKeySize"] == Strval(m.minKeySize.value)
    ensures m.maxKeySize.Some? ==> attrs["MaxKeySize"] == Strval(m.maxKeySize.value)
    ensures attrs.Keys <= {"MinKeySize", "MaxKeySize"}
  {
    var withMin := if m.minKeySize.Some? then map["MinKeySize" := Strval(m.minKeySize.value)] else map[];
    if m.maxKeySize.Some? then withMin["MaxKeySize" := Strval(m.maxKeySize.value)] else withMin
  }

  /**
   * `toXML`: an empty `alg:SigningMethod` element that always carries
   * `Algorithm` and carries each key size only when it is set.
   */
  function Render(m: SigningMethod): (e: Element)
    requires Renderable(m)
    ensures Named(e, Namespaces.ALG, "SigningMethod") && e.children == []
    ensures GetAttribute(e, "Algorithm") == m.algorithm
    ensures ("MinKeySize" in e.attrs <==> m.minKeySize.Some?) && ("MaxKeySize" in e.attrs <==> m.maxKeySize.Some?)
    ensures m.minKeySize.Some? ==> e.attrs["MinKeySize"] == Strval(m.minKeySize.value)
    ensures m.maxKeySize.Some? ==> e.attrs["MaxKeySize"] == Strval(m.maxKeySize.value)
    ensures e.attrs.Keys <= {"Algorithm", "MinKeySize", "MaxKeySize"}
  {
    Element(Some(Namespaces.ALG), "SigningMethod", KeySizeAttrs(m)["Algorithm" := m.algorithm.value], [])
  }

  /** Parsing the rendered element gives back the same signing method. */
  lemma ParseRender(m: SigningMethod)
    requires Renderable(m)
    ensures Parse(Render(m)) == Success(m)
  {
    if m.minKeySize.Some? {
      IntvalOfStrval(m.minKeySize.value);
    }
    if m.maxKeySize.Some? {
      IntvalOfStrval(m.maxKeySize.value);
    }
  }
}
