/**
 * `SAML2\XML\mdui\Logo`: the `mdui:Logo` element of the SAML V2.0 Metadata
 * Extensions for Login and Discovery User Interface. The URL check of
 * `setUrl` (`filter_var` with `FILTER_VALIDATE_URL`) is passed in as
 * `isValidUrl`.
 */
module MduiLogo {
  import opened Wrappers
  import opened Php
  import opened Dom
  import Namespaces

  datatype Logo = Logo(url: Option<string>, width: Option<Int64>, height: Option<Int64>, lang: Option<string>)

  const MISSING_WIDTH: Throwable := Exception("Missing width of Logo.")
  const MISSING_HEIGHT: Throwable := Exception("Missing height of Logo.")
  const MISSING_URL: Throwable := Exception("Missing url value for Logo.")
  const INVALID_URL: Throwable := InvalidArgumentException("Provided argument is not a valid URL.")
  const NULL_LANGUAGE: Throwable := TypeError("Argument 1 passed to SAML2\\XML\\mdui\\Logo::setLanguage() must be of the type string, null given")

  /** The constructor called without an element: nothing is set. */
  function New(): (l: Logo)
    ensures l.url.None? && l.width.None? && l.height.None? && l.lang.None?
  {
    Logo(None, None, None, None)
  }

  /** `setUrl`: a URL the validator rejects throws and leaves the logo unchanged. */
  function SetUrl(l: Logo, url: string, isValidUrl: string -> bool): (r: Result<Logo, Throwable>)
    ensures r.Failure? <==> !isValidUrl(url)
    ensures r.Failure? ==> r.error == INVALID_URL
    ensures r.Success? ==> r.value.url == Some(url)
    ensures r.Success? ==> r.value.width == l.width && r.value.height == l.height && r.value.lang == l.lang
  {
    if !isValidUrl(url) then Failure(INVALID_URL) else Success(l.(url := Some(url)))
  }

  /**
   * The constructor's checks and conversions up to the language: width,
   * height and a non-empty text are required, in that order; the text goes
   * through `setUrl`; width and height are read with `intval`.
   */
  function ParseDimensions(xml: Element, isValidUrl: string -> bool): (r: Result<Logo, Throwable>)
    ensures "width" !in xml.attrs ==> r == Failure(MISSING_WIDTH)
    ensures "width" in xml.attrs && "height" !in xml.attrs ==> r == Failure(MISSING_HEIGHT)
    ensures "width" in xml.attrs && "height" in xml.attrs && TextContent(xml) == "" ==> r == Failure(MISSING_URL)
    ensures "width" in xml.attrs && "height" in xml.attrs && TextContent(xml) != "" ==>
              (r.Failure? <==> !isValidUrl(TextContent(xml)))
    ensures r.Failure? ==> r.error in {MISSING_WIDTH, MISSING_HEIGHT, MISSING_URL, INVALID_URL}
    ensures r.Success? ==> r.value.url == Some(TextContent(xml)) && isValidUrl(TextContent(xml))
    ensures r.Success? ==> r.value.width == Some(Intval(xml.attrs["width"]))
    ensures r.Success? ==> r.value.height == Some(Intval(xml.attrs["height"]))
    ensures r.Success? ==> r.value.lang.None?
  {
    if "width" !in xml.attrs then Failure(MISSING_WIDTH)
    else if "height" !in xml.attrs then Failure(MISSING_HEIGHT)
    else if TextContent(xml) == "" then Failure(MISSING_URL)
    else
      var l :- SetUrl(New(), TextContent(xml), isValidUrl);
      Success(l.(width := Some(Intval(xml.attrs["width"])), height := Some(Intval(xml.attrs["height"]))))
  }

  /**
   * The constructor as written: the language is passed to
   * `setLanguage(string)`, which under strict types throws a `TypeError`
   * when `xml:lang` is absent and the argument is null.
   */
  function ParseAsWritten(xml: Element, isValidUrl: string -> bool): (r: Result<Logo, Throwable>)
    ensures ParseDimensions(xml, isValidUrl).Failure? ==> r == ParseDimensions(xml, isValidUrl)
    ensures ParseDimensions(xml, isValidUrl).Success? && "xml:lang" !in xml.attrs ==> r == Failure(NULL_LANGUAGE)
    ensures r.Success? ==> "xml:lang" in xml.attrs
    ensures ParseDimensions(xml, isValidUrl).Success? && "xml:lang" in xml.attrs ==>
      r == Success(ParseDimensions(xml, isValidUrl).value.(lang := Some(xml.attrs["xml:lang"])))
  {
    var l :- ParseDimensions(xml, isValidUrl);
    match GetAttribute(xml, "xml:lang")
    case None => Failure(NULL_LANGUAGE)
    case Some(lang) => Success(l.(lang := Some(lang)))
  }

  /**
   * The constructor as evidently intended: the same checks, with the
   * language left unset when `xml:lang` is absent.
   */
  function Parse(xml: Element, isValidUrl: string -> bool): (r: Result<Logo, Throwable>)
    ensures r.Failure? <==> ParseDimensions(xml, isValidUrl).Failure?
    ensures r.Failure? ==> r == ParseDimensions(xml, isValidUrl)
    ensures r.Success? ==> r.value.lang == GetAttribute(xml, "xml:lang")
    ensures r.Success? ==> r.value.(lang := None) == ParseDimensions(xml, isValidUrl).value
  {
    var l :- ParseDimensions(xml, isValidUrl);
    Success(l.(lang := GetAttribute(xml, "xml:lang")))
  }

  /** Whether `toXML` may be called: its assertions demand a URL, a width and a height. */
  predicate Renderable(l: Logo) {
    l.url.Some? && l.width.Some? && l.height.Some?
  }

  /**
   * `toXML`: an `mdui:Logo` element whose text is the URL, with `width` and
   * `height` always and `xml:lang` only when the language is set.
   */
  function Render(l: Logo): (e: Element)
    requires Renderable(l)
    ensures Named(e, Namespaces.MDUI, "Logo")
    ensures TextContent(e) == l.url.value
    ensures GetAttribute(e, "width") == Some(Strval(l.width.value))
    ensures GetAttribute(e, "height") == Some(Strval(l.height.value))
    ensures GetAttribute(e, "xml:lang") == l.lang
    ensures e.attrs.Keys <= {"width", "height", "xml:lang"}
  {
    var sizes := map["width" := Strval(l.width.value), "height" := Strval(l.height.value)];
    var e := StringElement(Namespaces.MDUI, "Logo", l.url.value);
    e.(attrs := if l.lang.Some? then sizes["xml:lang" := l.lang.value] else sizes)
  }

  /** The corrected constructor reads back every logo `toXML` can write, with or without a language. */
  lemma ParseRender(l: Logo, isValidUrl: string -> bool)
    requires Renderable(l) && l.url.value != "" && isValidUrl(l.url.value)
    ensures Parse(Render(l), isValidUrl) == Success(l)
  {
    IntvalOfStrval(l.width.value);
    IntvalOfStrval(l.height.value);
  }

  /** The constructor as written reads back a rendered logo only when it has a language. */
  lemma ParseAsWrittenRender(l: Logo, isValidUrl: string -> bool)
    requires Renderable(l) && l.url.value != "" && isValidUrl(l.url.value)
    ensures l.lang.Some? ==> ParseAsWritten(Render(l), isValidUrl) == Success(l)
    ensures l.lang.None? ==> ParseAsWritten(Render(l), isValidUrl) == Failure(NULL_LANGUAGE)
  {
    IntvalOfStrval(l.width.value);
    IntvalOfStrval(l.height.value);
  }

  /**
   * A logo without a language, `<mdui:Logo width="16" height="16">https://example.org/logo.png</mdui:Logo>`,
   * is rejected by the constructor as written and accepted by the corrected one.
   */
  lemma AsWrittenRejectsLogoWithoutLanguage(isValidUrl: string -> bool)
    requires isValidUrl("https://example.org/logo.png")
    ensures ParseAsWritten(Render(Logo(Some("https://example.org/logo.png"), Some(16), Some(16), None)), isValidUrl)
         == Failure(NULL_LANGUAGE)
    ensures Parse(Render(Logo(Some("https://example.org/logo.png"), Some(16), Some(16), None)), isValidUrl)
         == Success(Logo(Some("https://example.org/logo.png"), Some(16), Some(16), None))
  {
    var l := Logo(Some("https://example.org/logo.png"), Some(16), Some(16), None);
    ParseAsWrittenRender(l, isValidUrl);
    ParseRender(l, isValidUrl);
  }
}
