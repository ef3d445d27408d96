/**
 * The XML namespace URIs of the elements the codecs read and write, each as
 * fixed by the specification that defines the element: XML Signature, SAML
 * 2.0 metadata and its user-interface and algorithm-support extensions, and
 * the Shibboleth metadata extension.
 */
module Namespaces {

  /** XML Signature Syntax and Processing, section 4 (the `ds:` prefix). */
  const XMLDSIG: string := "http://www.w3.org/2000/09/xmldsig#"

  /** SAML 2.0 metadata, saml-metadata-2.0-os section 2 (the `md:` prefix). */
  const MD: string := "urn:oasis:names:tc:SAML:2.0:metadata"

  /** SAML V2.0 Metadata Extensions for Login and Discovery User Interface (the `mdui:` prefix). */
  const MDUI: string := "urn:oasis:names:tc:SAML:metadata:ui"

  /** SAML V2.0 Metadata Profile for Algorithm Support (the `alg:` prefix). */
  const ALG: string := "urn:oasis:names:tc:SAML:metadata:algsupport"

  /** Shibboleth metadata extension namespace (the `shibmd:` prefix). */
  const SHIBMD: string := "urn:mace:shibboleth:metadata:1.0"
}
