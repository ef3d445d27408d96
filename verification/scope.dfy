/** `SAML2\XML\shibmd\Scope`: the `shibmd:Scope` element of the Shibboleth metadata profile. */
module ShibmdScope {
  import opened Wrappers
  import opened Php
  import opened Dom
  import Namespaces

  /** The scope text and whether it is a regular expression. */
  datatype Scope = Scope(scope: Option<string>, regexp: bool)

  /** The constructor called without an element: no scope, and not a regular expression. */
  function New(): (s: Scope)
    ensures s.scope.None? && !s.regexp
  {
    Scope(None, false)
  }

  /**
   * The constructor called with an element: the scope is the text content;
   * the `regexp` flag defaults to false and an unreadable flag throws.
   */
  function Parse(xml: Element): (r: Result<Scope, Throwable>)
    ensures r.Failure? <==> ParseBoolean(xml, "regexp", false).Failure?
    ensures r.Success? ==> r.value.scope == Some(TextContent(xml))
    ensures r.Success? ==> r.value.regexp == ParseBoolean(xml, "regexp", false).value
    ensures "regexp" !in xml.attrs ==> r == Success(Scope(Some(TextContent(xml)), false))
  {
    var regexp :- ParseBoolean(xml, "regexp", false);
    Success(Scope(Some(TextContent(xml)), regexp))
  }

  /** Whether `toXML` may be called: its assertion demands a scope. */
  predicate Renderable(s: Scope) {
    s.scope.Some?
  }

  /**
   * `toXML`: a `shibmd:Scope` element whose text is the scope and whose
   * `regexp` attribute is always written, "true" exactly when the flag is set.
   */
  function Render(s: Scope): (e: Element)
    requires Renderable(s)
    ensures Named(e, Namespaces.SHIBMD, "Scope")
    ensures TextContent(e) == s.scope.value
    ensures e.attrs.Keys == {"regexp"}
    ensures e.attrs["regexp"] == "true" <==> s.regexp
    ensures e.attrs["regexp"] in {"true", "false"}
  {
    var e := StringElement(Namespaces.SHIBMD, "Scope", s.scope.value);
    e.(attrs := map["regexp" := if s.regexp then "true" else "false"])
  }

  /** Parsing the rendered element gives back the same scope. */
  lemma ParseRender(s: Scope)
    requires Renderable(s)
    ensures Parse(Render(s)) == Success(s)
  {
    var e := Render(s);
    LowerBooleans();
    assert ParseBoolean(e, "regexp", false) == Success(s.regexp);
  }

  /** The two words `toXML` writes are already in lower case. */
  lemma LowerBooleans()
    ensures ToLower("true") == "true" && ToLower("false") == "false"
  {
    assert ToLower("true") == "true";
    assert ToLower("false") == "false";
  }
}
