/** What the Libraries section prints for one package, given its license
    name and the text of the license file found for it (if any). */
module Rendering {
  import opened Wrappers
  import opened JsValues
  import opened Indentation

  const UnknownLicense: string := "UNKNOWN LICENSE"
  const UnknownLicenseText: string := "UNKNOWN LICENSE TEXT"

  /** The package is skipped; a collapsible block with a summary and the
      indented text; or the plain license name. The heading linking the
      package precedes both printed forms. */
  datatype Block =
    | Omitted
    | Details(summary: string, body: string)
    | Plain(text: string)

  /** The decision as the program writes it, fallbacks included. */
  function Render(licenseName: Option<string>, licenseText: Option<string>): (b: Block)
    ensures b.Omitted? <==> !Truthy(licenseName) && !Truthy(licenseText)
    ensures b.Details? <==> Truthy(licenseText)
    ensures b.Plain? <==> !Truthy(licenseText) && Truthy(licenseName)
  {
    if !Truthy(licenseName) && !Truthy(licenseText) then Omitted
    else if Truthy(licenseText) then
      Details(Or(licenseName, UnknownLicense), Indent(Or(licenseText, UnknownLicenseText)))
    else Plain(Or(licenseName, UnknownLicense))
  }

  /** The block's summary is the license name, or "UNKNOWN LICENSE" when
      the name is falsy; the "UNKNOWN LICENSE TEXT" fallback is never used,
      since the block is only produced for a truthy text. */
  lemma DetailsContents(licenseName: Option<string>, licenseText: Option<string>)
    requires Truthy(licenseText)
    ensures Render(licenseName, licenseText).body == Indent(licenseText.value)
    ensures Truthy(licenseName) ==> Render(licenseName, licenseText).summary == licenseName.value
    ensures !Truthy(licenseName) ==> Render(licenseName, licenseText).summary == UnknownLicense
  {
  }

  /** Without text the plain line is always the real license name: the
      "UNKNOWN LICENSE" fallback of that branch is never reached. */
  lemma PlainIsLicenseName(licenseName: Option<string>, licenseText: Option<string>)
    requires Render(licenseName, licenseText).Plain?
    ensures Truthy(licenseName)
    ensures Render(licenseName, licenseText).text == licenseName.value
  {
  }
}
