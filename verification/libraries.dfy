/** The Libraries section: deduplicate the scanned manifests, then visit
    the kept packages in ascending name order and print each one's block,
    skipping packages with neither a license name nor license text. */
module Libraries {
  import opened Wrappers
  import opened Semver
  import opened Manifests
  import opened Dedup
  import opened LicenseNames
  import opened Rendering
  import opened LexOrder

  /** One printed package: the heading names it, the block follows. */
  datatype Section = Section(name: string, block: Block)

  /** The text of the first license-like file found under the directory of
      the record's manifest, keyed by the manifest's path; a missing key
      means no such file. */
  function LicenseTextOf(texts: map<string, string>, r: Record): Option<string> {
    if r.fullPath in texts then Some(texts[r.fullPath]) else None
  }

  function BlockFor(texts: map<string, string>, r: Record): Block {
    Render(LicenseName(r.manifest), LicenseTextOf(texts, r))
  }

  function Names(sections: seq<Section>): (names: seq<string>)
    ensures |names| == |sections|
    ensures forall i :: 0 <= i < |sections| ==> names[i] == sections[i].name
  {
    seq(|sections|, i requires 0 <= i < |sections| => sections[i].name)
  }

  /** The package is printed (it has a license name or a license text). */
  predicate Shown(texts: map<string, string>, r: Record) {
    !BlockFor(texts, r).Omitted?
  }

  lemma AppendAscending(names: seq<string>, x: string)
    requires Ascending(names)
    requires forall j :: 0 <= j < |names| ==> LexLess(names[j], x)
    ensures Ascending(names + [x])
  {
  }

  /** Visits `keys` in order and keeps the section of every key whose
      block is not skipped. */
  method EmitInOrder(keys: seq<string>, blocks: map<string, Block>) returns (sections: seq<Section>)
    requires Ascending(keys)
    requires forall k :: k in keys ==> k in blocks
    ensures Ascending(Names(sections))
    ensures forall n :: n in Names(sections) <==> n in keys && !blocks[n].Omitted?
    ensures forall j :: 0 <= j < |sections| ==>
              sections[j].name in blocks && sections[j].block == blocks[sections[j].name]
  {
    sections := [];
    var i := 0;
    while i < |keys|
      invariant 0 <= i <= |keys|
      invariant forall j :: 0 <= j < |sections| ==>
                  sections[j].name in blocks && sections[j].block == blocks[sections[j].name]
      invariant forall n :: n in Names(sections) <==> n in keys[..i] && !blocks[n].Omitted?
      invariant Ascending(Names(sections))
    {
      var name := keys[i];
      var block := blocks[name];
      if !block.Omitted? {
        var names := Names(sections);
        forall j | 0 <= j < |names| ensures LexLess(names[j], name) {
          assert names[j] in keys[..i];
          var k :| 0 <= k < i && keys[k] == names[j];
        }
        AppendAscending(names, name);
        assert Names(sections + [Section(name, block)]) == names + [name];
        sections := sections + [Section(name, block)];
      }
      assert keys[..i + 1] == keys[..i] + [name];
      i := i + 1;
    }
    assert keys[..i] == keys;
  }

  method LibrarySections(lt: VersionLt, files: seq<ManifestFile>, texts: map<string, string>)
    returns (sections: seq<Section>)
    ensures Ascending(Names(sections))
    ensures forall n :: n in Names(sections) <==> n in Fold(lt, files) && Shown(texts, Fold(lt, files)[n])
    ensures forall i :: 0 <= i < |sections| ==>
              sections[i].name in Fold(lt, files)
              && sections[i].block == BlockFor(texts, Fold(lt, files)[sections[i].name])
  {
    var pkgs := Fold(lt, files);
    var blocks := map n | n in pkgs :: BlockFor(texts, pkgs[n]);
    var keys := SortedKeys(pkgs);
    sections := EmitInOrder(keys, blocks);
  }
}
