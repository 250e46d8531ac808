/** The data the dependency scan works on: each `package.json` found under
    `node_modules`, already read and run through `JSON.parse`. */
module Manifests {
  import opened Wrappers
  import opened JsValues

  /** One element of the legacy `licenses` array; `type` may be missing. */
  datatype LicenseEntry = LicenseEntry(licenseType: Option<string>)

  /** The fields of a parsed manifest that the program reads. */
  datatype Manifest = Manifest(
    name: string,
    version: Option<string>,
    license: Option<string>,
    licenses: Option<seq<LicenseEntry>>)

  /** Outcome of `JSON.parse` on the file's bytes. */
  datatype ParseOutcome = Parsed(manifest: Manifest) | Malformed

  /** One manifest file found by the directory walk. */
  datatype ManifestFile = ManifestFile(fullPath: string, content: ParseOutcome)

  /** A stored package: the parsed manifest with `fullPath` attached. */
  datatype Record = Record(manifest: Manifest, fullPath: string)

  /** The file parsed and declares a truthy version, so the scan uses it. */
  predicate Usable(f: ManifestFile) {
    f.content.Parsed? && Truthy(f.content.manifest.version)
  }

  function NameOf(f: ManifestFile): string
    requires f.content.Parsed?
  {
    f.content.manifest.name
  }

  function VersionOf(f: ManifestFile): string
    requires Usable(f)
  {
    f.content.manifest.version.value
  }

  function RecordOf(f: ManifestFile): Record
    requires f.content.Parsed?
  {
    Record(f.content.manifest, f.fullPath)
  }

  /** The version of a stored record; empty if it has none, which a record
      stored by the scan never lacks. */
  function StoredVersion(r: Record): string {
    r.manifest.version.GetOr("")
  }
}
