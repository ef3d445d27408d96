# SAML2 XML element codecs and the recipient-match rule, in Dafny

This project models a slice of a PHP SAML 2.0 library (`SAML2\XML\…`). It covers these codecs, each a mapping between a typed record and one XML element:

- `Chunk`, the opaque copy of an element that the typed model does not understand;
- `ds:KeyInfo` and `ds:KeyName` (XML Signature Syntax and Processing, Second Edition, sections 4.4, 4.4.1 and 4.4.4);
- `alg:SigningMethod` (SAML V2.0 Metadata Profile for Algorithm Support);
- `shibmd:Scope` (Shibboleth metadata extension);
- `mdui:Logo` (SAML V2.0 Metadata Extensions for Login and Discovery User Interface);
- the list part of `md:SSODescriptorType` (saml-metadata-2.0-os, section 2.4.2).

It also models the assertion-validation `Result` and the `SubjectConfirmationRecipientMatches` rule as the rule's tests fix them.

The DOM is modelled as an immutable tree:

- `Dom.Element(ns, localName, attrs, children)` is an element. Its children are `Elem`, `Text` or `Other` nodes, where `Other` covers comments and processing instructions.
- `Dom.TextContent` is `textContent`.
- A deep copy of an element is the element itself.
- Every `toXML($parent)` appends the element modelled by the codec's `Render` to the parent. `Dom.AppendChild` models that append.
- A PHP `assert()` in `toXML` becomes a `Renderable` precondition.
- A thrown exception becomes a `Failure` of `Wrappers.Result` that carries a `Php.Throwable`.
- PHP integers are `Php.Int64`. `strval` and `intval` are written out in `Php.Strval` and `Php.Intval`. `intval` follows PHP 7.1 and later: it skips leading whitespace, then reads an optional sign, digits, an optional fraction after `.` and an optional exponent after `e`. The value is truncated toward zero and saturates at the 64-bit bounds.
- The text form that `saveXML` writes and `DOMDocumentFactory::fromString` reads is a stream of markup tokens (`XmlText.Token`). `XmlText.FromString` parses that stream, and `XmlText.FromStringSaveXml` proves that it reads back what `XmlText.SaveXml` wrote.

Files: `wrappers.dfy`, `php.dfy`, `dom.dfy`, `namespaces.dfy`, `xml_text.dfy`, `chunk.dfy`, `key_name.dfy`, `key_info.dfy`, `signing_method.dfy`, `scope.dfy`, `logo.dfy`, `md_collaborators.dfy`, `sso_descriptor.dfy`, `recipient_validation.dfy`.

## Model

| member | source | states |
|---|---|---|
| `XmlChunk.FromElement` | src/SAML2/XML/Chunk.php:43-49 | the chunk caches the element's local name and namespace URI and stores a copy equal to the element, so the cache matches the stored element |
| `XmlChunk.ToXml` | src/SAML2/XML/Chunk.php:57-60 | a copy of the stored element becomes the parent's new last child and is returned; the rest of the parent is unchanged |
| `XmlChunk.SetLocalName` | src/SAML2/XML/Chunk.php:75-78 | only the cached name changes; a valid chunk stays valid exactly when the new name is the stored element's name |
| `XmlChunk.SetNamespaceURI` | src/SAML2/XML/Chunk.php:93-96 | only the cached namespace changes; a valid chunk stays valid exactly when the new namespace is the stored element's namespace |
| `XmlChunk.Serialize` | src/SAML2/XML/Chunk.php:112-115 | the text written is that of the stored element, and parsing it gives back that element |
| `XmlChunk.SerializeStoredElementOnly` | src/SAML2/XML/Chunk.php:112-115 | the cached fields play no part in the serialized text |
| `XmlChunk.Unserialize` | src/SAML2/XML/Chunk.php:123-130 | fails exactly when the text does not parse; otherwise it stores the parsed document element and derives the cached name and namespace from it |
| `XmlChunk.UnserializeSerialize` | src/SAML2/XML/Chunk.php:112-130 | unserializing a serialized chunk gives the chunk of its stored element, which is the chunk itself when it is valid |
| `XmlText.SaveXml` | src/SAML2/XML/Chunk.php:114 | the text of an element opens with that element's start tag and closes with an end tag |
| `XmlText.ParseNodes` | src/SAML2/XML/Chunk.php:126 | parsing stops at an unmatched end tag or at the end of the text, and never returns more text than it was given |
| `XmlText.FromString` | src/SAML2/XML/Chunk.php:126 | a text that parses is exactly the saved markup of the element returned; any failure is an `Exception` |
| `XmlText.ParseNodesSound` | src/SAML2/XML/Chunk.php:126 | the markup of whatever the parser returns is exactly the text it consumed |
| `XmlText.FromStringIffSaveXml` | src/SAML2/XML/Chunk.php:114-126 | a text parses to an element exactly when it is that element's saved markup |
| `XmlText.FromStringSaveXml` | src/SAML2/XML/Chunk.php:114-126 | parsing what was saved gives back the same element |
| `XmlText.ParseNodesMarkup` | src/SAML2/XML/Chunk.php:114-126 | the markup of any node list, followed by an end tag or by nothing, parses back to exactly that list |
| `Php.Strval` | src/SAML2/XML/alg/SigningMethod.php:143 | the decimal text of an integer is non-empty and starts with a digit exactly when the integer is non-negative |
| `Php.Intval` | src/SAML2/XML/alg/SigningMethod.php:116 | a string of digits alone reads as its decimal value, saturated to the 64-bit range |
| `Php.IntvalNegative` | src/SAML2/XML/alg/SigningMethod.php:116 | a minus sign before digits negates their value, saturating at the lower bound |
| `Php.IntvalFraction` | src/SAML2/XML/mdui/Logo.php:65-66 | the digits after a decimal point are cut off, so `d.f` reads as `d` |
| `Php.IntvalExponent` | src/SAML2/XML/mdui/Logo.php:65-66 | `dex` reads as `d` times ten to the power `x`, saturated |
| `Php.IntvalScientificExample` | src/SAML2/XML/alg/SigningMethod.php:116 | `"1e3"` reads as 1000 |
| `Php.IntvalFractionExample` | src/SAML2/XML/mdui/Logo.php:65 | `"2.5"` reads as 2 |
| `Php.IntvalOfStrval` | src/SAML2/XML/alg/SigningMethod.php:116-143 | reading back what `strval` wrote gives the original 64-bit integer |
| `Php.LeadingDigits` | src/SAML2/XML/mdui/Logo.php:65 | the digits `intval` reads: the longest all-digit prefix, so the next character is not a digit |
| `Php.Saturate` | src/SAML2/XML/mdui/Logo.php:65 | values inside the 64-bit range are kept, and values outside it are clamped to the nearer bound |
| `Php.Trim` | src/SAML2/XML/md/SSODescriptorType.php:79 | the longest infix without surrounding whitespace or NUL, with only such characters cut off on either side; a string without them is kept as it is |
| `Php.ToLower` | src/SAML2/XML/shibmd/Scope.php:48 | ASCII upper-case letters become lower-case and every other character is kept, position by position |
| `Dom.GetAttribute` | src/SAML2/XML/alg/SigningMethod.php:110-113 | a value is returned exactly when the attribute is present, and it is that attribute's value |
| `Dom.TextContent` | src/SAML2/XML/ds/KeyName.php:35 | an element without children has empty text, one with a single text node has that node's text, and one with a single comment has empty text |
| `Dom.TextContentAppendChild` | src/SAML2/XML/ds/KeyName.php:35-66 | appending an element appends its text to the parent's text content |
| `Dom.AppendChild` | src/SAML2/XML/shibmd/Scope.php:100-101 | the new element becomes the parent's last child, and nothing else about the parent changes |
| `Dom.ChildElements` | src/SAML2/XML/ds/KeyInfo.php:49-52 | exactly the element children, skipping text and comments; `Dom.ChildElementsAppend` fixes their document order |
| `Dom.ChildElementsAppend` | src/SAML2/XML/ds/KeyInfo.php:49-52 | the element children of two node lists in a row are those of the first list followed by those of the second |
| `Dom.Select` | src/SAML2/XML/md/SSODescriptorType.php:67 | the child-axis query returns exactly the element children with that namespace and local name |
| `Dom.StringElement` | src/SAML2/XML/ds/KeyName.php:66 | the element `addString` creates has the given namespace and name, no attributes, and the value as its text content |
| `Dom.StringNodes` | src/SAML2/XML/md/SSODescriptorType.php:211 | `addStrings` appends one string element per value, in order |
| `Dom.ExtractStrings` | src/SAML2/XML/md/SSODescriptorType.php:79 | one string per matching child element, in order, each its text content with surrounding whitespace and NUL stripped |
| `Dom.SelectStringNodes` | src/SAML2/XML/md/SSODescriptorType.php:79-211 | selecting by the name `addStrings` used finds exactly the elements it wrote, one per string, in order |
| `Dom.ExtractStringNodes` | src/SAML2/XML/md/SSODescriptorType.php:79-211 | extracting the strings that `addStrings` wrote gives back the written list, when no string has surrounding whitespace |
| `Dom.ParseBoolean` | src/SAML2/XML/shibmd/Scope.php:48 | an absent attribute gives the default; "true" and "false" in any letter case give the flag; a numeric value loosely equal to 1 gives true and one loosely equal to 0 gives false, so "01" and "1.0" count as "1"; every other value fails |
| `Dom.ParseBooleanDigits` | src/SAML2/XML/shibmd/Scope.php:48 | a value of digits alone gives true exactly when its number is 1, false exactly when it is 0, and fails exactly when it is larger |
| `PhpLoose.ZeroNotOne` | src/SAML2/XML/shibmd/Scope.php:48 | no string loosely equals both "0" and "1", so the two branches of the boolean `switch` never overlap |
| `PhpLoose.BooleanWords` | src/SAML2/XML/shibmd/Scope.php:48 | "true" and "false" are not numeric; "0" loosely equals only "0" and "1" only "1" |
| `PhpLoose.DigitsNumeric` | src/SAML2/XML/shibmd/Scope.php:48 | a run of digits is numeric and loosely equals "0" or "1" exactly when its value is 0 or 1 |
| `PhpLoose.FractionNumeric` | src/SAML2/XML/shibmd/Scope.php:48 | `d.f` is numeric; it equals "0" exactly when all its digits are zero, and "1" exactly when its digits make ten to the length of `f` |
| `PhpLoose.NegativeNumeric` | src/SAML2/XML/shibmd/Scope.php:48 | `-d` is numeric; it equals "0" exactly when `d` is zero and never equals "1" |
| `PhpLoose.ScientificNumeric` | src/SAML2/XML/shibmd/Scope.php:48 | `dex` is numeric and equals "1" exactly when `d` times ten to the `x` is one |
| `PhpLoose.NotNumeric` | src/SAML2/XML/shibmd/Scope.php:48 | a string starting with a letter or other non-numeral character is not numeric |
| `PhpLoose.LooseDigitsExamples` | src/SAML2/XML/shibmd/Scope.php:48 | "01" equals "1", and "2" equals neither "0" nor "1" |
| `PhpLoose.LooseFractionExamples` | src/SAML2/XML/shibmd/Scope.php:48 | "1.0" and "1e0" equal "1"; "0.0" and "-0" equal "0" |
| `DsKeyName.New` | src/SAML2/XML/ds/KeyName.php:29-33 | without an element, the name stays null |
| `DsKeyName.Parse` | src/SAML2/XML/ds/KeyName.php:29-36 | the name is the element's text content |
| `DsKeyName.Render` | src/SAML2/XML/ds/KeyName.php:62-67 | requires a name; renders `ds:KeyName` in the XML Signature namespace, with the name as its text |
| `DsKeyName.ParseRender` | src/SAML2/XML/ds/KeyName.php:35-66 | parsing the rendered element gives back the same name |
| `DsKeyInfo.New` | src/SAML2/XML/ds/KeyInfo.php:22-43 | without an element, `Id` is null and there are no entries |
| `DsKeyInfo.Classify` | src/SAML2/XML/ds/KeyInfo.php:54-68 | outside the XML Signature namespace every element becomes a chunk, even one named `KeyName`; inside it, `KeyName` and `X509Data` get their own class and any other name becomes a chunk |
| `DsKeyInfo.ParseChildren` | src/SAML2/XML/ds/KeyInfo.php:49-69 | one entry per element child, in document order, each the classification of that child |
| `DsKeyInfo.Parse` | src/SAML2/XML/ds/KeyInfo.php:39-70 | `Id` is set exactly when the attribute is present; the entries follow the element children in document order |
| `DsKeyInfo.AddInfo` | src/SAML2/XML/ds/KeyInfo.php:113-117 | the entry is appended at the end; existing entries and `Id` are unchanged |
| `DsKeyInfo.IdAttrs` | src/SAML2/XML/ds/KeyInfo.php:135-137 | `Id` is the only attribute written; it is written exactly when an `Id` is set, with that value |
| `DsKeyInfo.RenderInfo` | src/SAML2/XML/ds/KeyInfo.php:140-142 | a key name renders as a `ds:KeyName` element that parses back to it; an `X509Data` or a chunk renders as the element it holds |
| `DsKeyInfo.Render` | src/SAML2/XML/ds/KeyInfo.php:125-145 | renders `ds:KeyInfo` in the XML Signature namespace, with `Id` only when set and no other attribute, and one child per entry in order |
| `DsKeyInfo.ParseWellFormed` | src/SAML2/XML/ds/KeyInfo.php:49-69 | a parsed chunk never stands for a `KeyName` or `X509Data` element of the XML Signature namespace |
| `DsKeyInfo.ClassifyRenderInfo` | src/SAML2/XML/ds/KeyInfo.php:58-68 | classifying the element of a well-formed entry gives back that entry |
| `DsKeyInfo.ParseRender` | src/SAML2/XML/ds/KeyInfo.php:39-145 | parsing the rendered element of a well-formed `KeyInfo` gives it back |
| `DsKeyInfo.RenderAddInfo` | src/SAML2/XML/ds/KeyInfo.php:113-142 | after `addInfo`, rendering appends exactly the new entry's element |
| `AlgSigningMethod.New` | src/SAML2/XML/alg/SigningMethod.php:104-108 | without an element, the algorithm and both key sizes are null |
| `AlgSigningMethod.KeySize` | src/SAML2/XML/alg/SigningMethod.php:115-121 | a key size is set exactly when its attribute is present, and it is the `intval` of that attribute |
| `AlgSigningMethod.Parse` | src/SAML2/XML/alg/SigningMethod.php:104-122 | fails exactly when `Algorithm` is missing; otherwise the algorithm is the attribute taken verbatim and the key sizes are read as above |
| `AlgSigningMethod.KeySizeAttrs` | src/SAML2/XML/alg/SigningMethod.php:142-148 | `MinKeySize` and `MaxKeySize` are written exactly when set, each as its `strval` |
| `AlgSigningMethod.Render` | src/SAML2/XML/alg/SigningMethod.php:131-151 | requires an algorithm; renders an empty `alg:SigningMethod` that always carries `Algorithm`, carries each key size only when it is set, and carries no other attribute |
| `AlgSigningMethod.ParseRender` | src/SAML2/XML/alg/SigningMethod.php:110-148 | parsing the rendered element gives back the same signing method |
| `ShibmdScope.New` | src/SAML2/XML/shibmd/Scope.php:34-45 | without an element, the scope is null and the regexp flag is false |
| `ShibmdScope.Parse` | src/SAML2/XML/shibmd/Scope.php:41-49 | the scope is the text content; the flag defaults to false when absent; an unreadable flag fails |
| `ShibmdScope.Render` | src/SAML2/XML/shibmd/Scope.php:93-112 | renders `shibmd:Scope` in `urn:mace:shibboleth:metadata:1.0` with the scope as its text; `regexp` is always written, "true" exactly when the flag is set and "false" otherwise |
| `ShibmdScope.ParseRender` | src/SAML2/XML/shibmd/Scope.php:47-109 | parsing the rendered element gives back the same scope |
| `MduiLogo.New` | src/SAML2/XML/mdui/Logo.php:49-53 | without an element, nothing is set |
| `MduiLogo.SetUrl` | src/SAML2/XML/mdui/Logo.php:83-89 | a URL the validator rejects throws `InvalidArgumentException`; otherwise only the URL changes |
| `MduiLogo.ParseDimensions` | src/SAML2/XML/mdui/Logo.php:55-66 | a missing width, then a missing height, then empty text each fail with their own message, checked in that order; the text then goes through the URL check; width and height are the `intval` of their attributes |
| `MduiLogo.ParseAsWritten` | src/SAML2/XML/mdui/Logo.php:49-68 | as written, dimension and URL failures pass through; without `xml:lang`, `setLanguage(null)` throws `TypeError`; with it, the result is the checked logo with that language |
| `MduiLogo.Parse` | src/SAML2/XML/mdui/Logo.php:49-68 | the corrected constructor runs the same checks and leaves the language null when `xml:lang` is absent |
| `MduiLogo.Render` | src/SAML2/XML/mdui/Logo.php:151-169 | renders `mdui:Logo` with the URL as its text, always `width` and `height`, `xml:lang` only when a language is set, and no other attribute |
| `MduiLogo.ParseRender` | src/SAML2/XML/mdui/Logo.php:55-166 | the corrected constructor reads back every logo with a valid URL, with or without a language |
| `MduiLogo.ParseAsWrittenRender` | src/SAML2/XML/mdui/Logo.php:55-166 | the constructor as written reads back a rendered logo when it has a language, and throws `TypeError` when it has none |
| `MduiLogo.AsWrittenRejectsLogoWithoutLanguage` | src/SAML2/XML/mdui/Logo.php:67-107 | a concrete logo without `xml:lang` is rejected as written and accepted by the correction |
| `MdCollaborators.ParseEndpoint` | src/SAML2/XML/md/SSODescriptorType.php:71-77 | an endpoint keeps the attributes and children of its element |
| `MdCollaborators.RenderEndpoint` | src/SAML2/XML/md/SSODescriptorType.php:203-209 | an endpoint renders as a metadata element with the given name, and parsing it gives back the endpoint |
| `MdCollaborators.ParseIndexedEndpoint` | src/SAML2/XML/md/SSODescriptorType.php:67-69 | an indexed endpoint keeps the attributes and children of its element |
| `MdCollaborators.RenderIndexedEndpoint` | src/SAML2/XML/md/SSODescriptorType.php:199-201 | an indexed endpoint renders as a metadata element with the given name, and parsing it gives back the endpoint |
| `MdCollaborators.NewRole` | src/SAML2/XML/md/SSODescriptorType.php:61 | the parent part built without an element has the given name and no attributes or content |
| `MdCollaborators.ParseRole` | src/SAML2/XML/md/SSODescriptorType.php:61 | the parent part keeps the element name it is given, the attributes, and exactly the role's own children in document order |
| `MdCollaborators.RenderRole` | src/SAML2/XML/md/SSODescriptorType.php:197 | the parent renders the named metadata element with its attributes and its own children |
| `MdCollaborators.RoleContentOf` | src/SAML2/XML/md/SSODescriptorType.php:61 | exactly the role's own children, in document order |
| `MdSsoDescriptor.New` | src/SAML2/XML/md/SSODescriptorType.php:57-65 | without an element, all four lists are empty |
| `MdSsoDescriptor.Parse` | src/SAML2/XML/md/SSODescriptorType.php:57-80 | each endpoint list holds its matching `md:` children in document order; `NameIDFormat` is the list of their texts |
| `MdSsoDescriptor.AddArtifactResolutionService` | src/SAML2/XML/md/SSODescriptorType.php:104-108 | one endpoint is added at the end of its list, and nothing else changes |
| `MdSsoDescriptor.AddSingleLogoutService` | src/SAML2/XML/md/SSODescriptorType.php:132-136 | one endpoint is added at the end of its list, and nothing else changes |
| `MdSsoDescriptor.AddManageNameIDService` | src/SAML2/XML/md/SSODescriptorType.php:160-164 | one endpoint is added at the end of its list, and nothing else changes |
| `MdSsoDescriptor.SetArtifactResolutionService` | src/SAML2/XML/md/SSODescriptorType.php:95-98 | replaces exactly its own list |
| `MdSsoDescriptor.SetSingleLogoutService` | src/SAML2/XML/md/SSODescriptorType.php:123-126 | replaces exactly its own list |
| `MdSsoDescriptor.SetManageNameIDService` | src/SAML2/XML/md/SSODescriptorType.php:151-154 | replaces exactly its own list |
| `MdSsoDescriptor.SetNameIDFormat` | src/SAML2/XML/md/SSODescriptorType.php:179-182 | replaces exactly its own list |
| `MdSsoDescriptor.IndexedEndpointNodes` | src/SAML2/XML/md/SSODescriptorType.php:199-201 | one `md:ArtifactResolutionService` child per endpoint, in list order |
| `MdSsoDescriptor.EndpointNodes` | src/SAML2/XML/md/SSODescriptorType.php:203-209 | one child per endpoint with the given name, in list order |
| `MdSsoDescriptor.Render` | src/SAML2/XML/md/SSODescriptorType.php:190-214 | the parent's content first, then the ArtifactResolutionService, SingleLogoutService and ManageNameIDService elements, then NameIDFormat, one child per list entry |
| `MdSsoDescriptor.RenderFollowsSchemaOrder` | src/SAML2/XML/md/SSODescriptorType.php:197-211 | whenever the role holds only its own children, the rendered children follow the schema's order: role content, ArtifactResolutionService, SingleLogoutService, ManageNameIDService, NameIDFormat |
| `MdSsoDescriptor.SelectRendered` | src/SAML2/XML/md/SSODescriptorType.php:67-211 | each list's query over the rendered children finds exactly that list's own elements |
| `MdSsoDescriptor.ParseRender` | src/SAML2/XML/md/SSODescriptorType.php:57-214 | parsing the rendered element gives the descriptor back, when the role holds only its own children and no name-identifier format has surrounding whitespace |
| `MdSsoDescriptor.RenderAddArtifactResolutionService` | src/SAML2/XML/md/SSODescriptorType.php:104-202 | after an add, the rendered list gains exactly the new endpoint's element, at its end |
| `MdSsoDescriptor.RenderAddSingleLogoutService` | src/SAML2/XML/md/SSODescriptorType.php:132-205 | after an add, the rendered `md:SingleLogoutService` children gain exactly the new endpoint's element, at their end |
| `MdSsoDescriptor.RenderAddManageNameIDService` | src/SAML2/XML/md/SSODescriptorType.php:160-209 | after an add, the rendered `md:ManageNameIDService` children gain exactly the new endpoint's element, at their end |
| `RecipientValidation.NewResult` | tests/SAML2/Assertion/Validation/ConstraintValidator/SubjectConfirmationRecipientMathchesTest.php:59-63 | a new result has no errors and is valid |
| `RecipientValidation.AddError` | tests/SAML2/Assertion/Validation/ConstraintValidator/SubjectConfirmationRecipientMathchesTest.php:42-45 | the message is appended verbatim after the earlier errors, and the result is no longer valid |
| `RecipientValidation.Validate` | tests/SAML2/Assertion/Validation/ConstraintValidator/SubjectConfirmationRecipientMathchesTest.php:35-63 | a recipient equal to the destination, or an absent, `""` or `"0"` one, leaves the result unchanged; any other recipient adds exactly one error and makes the result invalid |
| `RecipientValidation.FreshResultValidIffRecipientMatches` | tests/SAML2/Assertion/Validation/ConstraintValidator/SubjectConfirmationRecipientMathchesTest.php:33-64 | on a fresh result, validity after the check holds exactly when no truthy recipient is named or it equals the destination; the error count is 0 or 1 accordingly |
| `RecipientValidation.ValidateKeepsErrors` | tests/SAML2/Assertion/Validation/ConstraintValidator/SubjectConfirmationRecipientMathchesTest.php:42-45 | the check never removes an error, so an invalid result stays invalid |
| `RecipientValidation.DifferentRecipientScenario` | tests/SAML2/Assertion/Validation/ConstraintValidator/SubjectConfirmationRecipientMathchesTest.php:33-46 | "someDestination" checked against "anotherDestination" gives an invalid result with one error |
| `RecipientValidation.SameRecipientScenario` | tests/SAML2/Assertion/Validation/ConstraintValidator/SubjectConfirmationRecipientMathchesTest.php:52-64 | "theSameDestination" checked against itself stays valid |
| `RecipientValidation.FalsyRecipientSkipped` | tests/SAML2/Assertion/Validation/ConstraintValidator/SubjectConfirmationRecipientMathchesTest.php:35-45 | an absent, `""` or `"0"` recipient adds no error, whatever the destination |

## Left out

- The character syntax of XML text is not modelled: escaping, namespace declarations, prefixes, whitespace and attribute order. `saveXML` and `fromString` work on markup tokens instead. `fromString` accepts only a single element with nothing around it, so top-level comments and its DOCTYPE rejection are not modelled.
- `XmlText.FromStringSaveXml`: the token model keeps every text-node boundary. A real parser merges adjacent text nodes and drops empty ones, so the round trip is exact only for elements without adjacent or empty text nodes. The same holds for `XmlChunk.UnserializeSerialize`. For example, the empty text node that `Utils::addString` writes for `""` is dropped by a real `fromString`; the text content is `""` either way.
- `Php.Intval`: the decimal value of a numeric prefix is taken exactly. PHP first rounds a prefix with a fraction, an exponent or more than nineteen digits to a binary64 double. The two can differ when the double cannot hold the value exactly. A value beyond the double range, such as `"1e400"`, gives 0 in PHP, but it saturates here.
- Namespace prefixes (`ds:`, `md:`, `mdui:`, …) are not modelled. An element is identified by its namespace URI and local name. Attributes are keyed by qualified name, as in `xml:lang`.
- PHP's own `serialize()`/`unserialize()` framing around the chunk's XML text is not modelled; it is taken as the identity.
- `Dom.ParseBoolean`: the loose `==` of the `switch` follows PHP 7, whose numeric strings may not end in whitespace; PHP 8 also accepts `"1 "`. Numeric values are compared exactly, while PHP compares them as binary64 doubles, so a value such as `"1.00000000000000000001"` equals `"1"` in PHP but fails here.
- `Utils.php` and `DOMDocumentFactory.php` are not part of this model. `Dom.Select`, `Dom.ExtractStrings`, `Dom.StringNodes`, `Dom.StringElement` and `Dom.ParseBoolean` state what the codecs rely on from those helpers.
- `Dom.ExtractStrings` applies PHP's `trim` with its default character list to each text content, as the library's `Utils::extractStrings` does. Because that file is not part of this model, this behaviour is taken from the library rather than from a cited line. `Php.Trim` models `trim`.
- `MdSsoDescriptor.ParseRender`: a `NameIDFormat` string with leading or trailing whitespace does not survive a round trip, because reading it back trims it.
- `X509Data.php`, `EndpointType.php`, `IndexedEndpointType.php` and `RoleDescriptor.php` are not part of this model. Each one is an opaque holder of what it read, and it renders that back unchanged. So their own parse errors, for example a missing `Binding` or `Location` on an endpoint, are not modelled. `RoleDescriptor` keeps the attributes and the `md:Extensions`, `md:KeyDescriptor`, `md:Organization` and `md:ContactPerson` children.
- `MduiLogo.SetUrl`: `filter_var(…, FILTER_VALIDATE_URL)` is a foreign validator, so it is passed in as the `isValidUrl` parameter.
- Plain getters and setters without logic (`getId`/`setId`/`setInfo`, `setAlgorithm`, `setScope`, `setIsRegexpScope`, `setWidth`, `setHeight`, `setLanguage`, `setName`) are record fields and record updates. They have no members of their own.
- `RecipientValidation.Validate`: the validator's own source is not part of this model. Its tests fix the two string cases. The guard that skips an absent or falsy (`""`, `"0"`) recipient follows the library's `if ($recipient && …)` check. The error message text is illustrative. An absent `SubjectConfirmationData` is not modelled.
- The key collection (`KeyCollection`) is left out. Its one tested behaviour, rejecting a value that is not a key, is enforced by the types in a typed model.
- The validation pipeline, the time-window, audience and signature-trust validators, and signature verification are left out: no source for them is part of this model.

## Findings

| source | as written | input that shows it | evidently intended | confidence | as-written member | corrected member |
|---|---|---|---|---|---|---|
| src/SAML2/XML/mdui/Logo.php:67 | when `xml:lang` is absent the constructor passes `null` to `setLanguage(string $lang)`; under `declare(strict_types=1)` this throws `TypeError`, so no logo without a language can be parsed | `<mdui:Logo width="16" height="16">https://example.org/logo.png</mdui:Logo>` | the language stays null, as the `getLanguage() !== null` check in `toXML` (line 163) expects | high; not executed | `MduiLogo.ParseAsWritten` (shown by `MduiLogo.AsWrittenRejectsLogoWithoutLanguage` and `MduiLogo.ParseAsWrittenRender`) | `MduiLogo.Parse` (round trip proved by `MduiLogo.ParseRender`) |
