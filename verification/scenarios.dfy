/** Worked instances of the Libraries section, using the major.minor.patch
    stand-in comparison. */
module Scenarios {
  import opened Wrappers
  import opened Semver
  import opened Manifests
  import opened Dedup
  import opened LicenseNames
  import opened Rendering

  function Foo(version: string): Manifest {
    Manifest("foo", Some(version), Some("MIT"), None)
  }

  const NestedFoo: string := "node_modules/a/node_modules/foo/package.json"

  /** `foo@1.0.0` then a nested `foo@2.0.0`, with a truncated manifest and
      an unversioned one in between. */
  function Walk(): seq<ManifestFile> {
    [ ManifestFile("node_modules/foo/package.json", Parsed(Foo("1.0.0"))),
      ManifestFile("node_modules/bad/package.json", Malformed),
      ManifestFile("node_modules/x/package.json", Parsed(Manifest("x", None, Some("MIT"), None))),
      ManifestFile(NestedFoo, Parsed(Foo("2.0.0"))) ]
  }

  /** Only the 2.0.0 record remains; the malformed and unversioned
      manifests leave no trace. */
  lemma HigherNestedVersionWins()
    ensures Fold(StandInLt, Walk()) == map["foo" := Record(Foo("2.0.0"), NestedFoo)]
  {
    var w := Walk();
    var first := map["foo" := Record(Foo("1.0.0"), "node_modules/foo/package.json")];
    assert w[..0] == [];
    assert w[..1][..0] == [];
    assert Fold(StandInLt, w[..1]) == first;
    assert w[..2][..1] == w[..1];
    assert Fold(StandInLt, w[..2]) == first;
    assert w[..3][..2] == w[..2];
    assert Fold(StandInLt, w[..3]) == first;
    assert w[..3] == w[..|w| - 1];
    assert ParseCore("1.0.0") == Some(Version(1, 0, 0));
    assert ParseCore("2.0.0") == Some(Version(2, 0, 0));
    assert StandInLt("1.0.0", "2.0.0");
  }

  /** `license: "MIT"` with a license file: a block titled MIT. */
  lemma LicenseWithText()
    ensures Render(LicenseName(Foo("1.0.0")), Some("Copyright")) == Details("MIT", "    Copyright")
  {
  }

  /** No license field, no `licenses`, no license file: nothing printed. */
  lemma NoLicenseOmitted()
    ensures Render(LicenseName(Manifest("foo", Some("1.0.0"), None, None)), None) == Omitted
  {
  }
}
