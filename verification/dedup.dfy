/** The deduplication loop of the dependency scan: manifests are folded,
    in walk order, into a map from package name to the record kept for it.
    The version comparison `lt` is a parameter. */
module Dedup {
  import opened Wrappers
  import opened JsValues
  import opened Semver
  import opened Manifests

  /** One iteration of the loop body. */
  function Step(lt: VersionLt, pkgs: map<string, Record>, f: ManifestFile): (r: map<string, Record>)
    ensures !Usable(f) ==> r == pkgs
    ensures Usable(f) ==> r == pkgs || r == pkgs[NameOf(f) := RecordOf(f)]
    ensures (Usable(f) && (NameOf(f) !in pkgs || lt(StoredVersion(pkgs[NameOf(f)]), VersionOf(f))))
              ==> r == pkgs[NameOf(f) := RecordOf(f)]
    ensures (Usable(f) && NameOf(f) in pkgs && !lt(StoredVersion(pkgs[NameOf(f)]), VersionOf(f)))
              ==> r == pkgs
  {
    match f.content
    case Malformed => pkgs
    case Parsed(m) =>
      if !Truthy(m.version) then pkgs
      else if m.name !in pkgs || lt(StoredVersion(pkgs[m.name]), m.version.value) then
        pkgs[m.name := Record(m, f.fullPath)]
      else pkgs
  }

  /** The whole loop, starting from the empty object. */
  function Fold(lt: VersionLt, files: seq<ManifestFile>): map<string, Record>
    decreases |files|
  {
    if |files| == 0 then map[]
    else Step(lt, Fold(lt, files[..|files| - 1]), files[|files| - 1])
  }

  /** Index `i` holds a usable manifest for package `n`. */
  predicate UsableFor(files: seq<ManifestFile>, i: int, n: string) {
    0 <= i < |files| && Usable(files[i]) && NameOf(files[i]) == n
  }

  /** No usable manifest for the same name has a strictly greater version. */
  ghost predicate Maximal(lt: VersionLt, files: seq<ManifestFile>, i: int)
    requires 0 <= i < |files| && Usable(files[i])
  {
    forall j :: UsableFor(files, j, NameOf(files[i])) ==> !lt(VersionOf(files[i]), VersionOf(files[j]))
  }

  /** Index `i` is the first maximal usable manifest for its name. */
  ghost predicate FirstMaximal(lt: VersionLt, files: seq<ManifestFile>, i: int)
    requires 0 <= i < |files| && Usable(files[i])
  {
    && Maximal(lt, files, i)
    && forall k :: 0 <= k < i && UsableFor(files, k, NameOf(files[i])) ==> !Maximal(lt, files, k)
  }

  /** A name is a key exactly when some usable manifest declares it, and
      every stored record is the record of such a manifest. */
  lemma {:induction false} FoldKeys(lt: VersionLt, files: seq<ManifestFile>, n: string)
    ensures n in Fold(lt, files) <==> exists i :: UsableFor(files, i, n)
    ensures n in Fold(lt, files) ==>
      exists i :: UsableFor(files, i, n) && Fold(lt, files)[n] == RecordOf(files[i])
    decreases |files|
  {
    if |files| > 0 {
      var m := |files| - 1;
      var pre := files[..m];
      FoldKeys(lt, pre, n);
      assert forall j :: 0 <= j < m ==> pre[j] == files[j];
      if Usable(files[m]) && NameOf(files[m]) == n {
        assert UsableFor(files, m, n);
        if Fold(lt, files)[n] != RecordOf(files[m]) {
          var i :| UsableFor(pre, i, n) && Fold(lt, pre)[n] == RecordOf(pre[i]);
          assert UsableFor(files, i, n);
        }
      } else {
        assert Fold(lt, files) == Fold(lt, pre) || !Usable(files[m]) || NameOf(files[m]) != n;
        if exists i :: UsableFor(files, i, n) {
          var i :| UsableFor(files, i, n);
          assert UsableFor(pre, i, n);
        }
        if n in Fold(lt, files) {
          var i :| UsableFor(pre, i, n) && Fold(lt, pre)[n] == RecordOf(pre[i]);
          assert UsableFor(files, i, n);
        }
      }
    }
  }

  /** Under a strict partial order the record kept for a name comes from a
      usable manifest for that name whose version no other usable manifest
      for that name exceeds. */
  lemma {:induction false} FoldKeepsMaximal(lt: VersionLt, files: seq<ManifestFile>, n: string)
    requires StrictPartialOrder(lt)
    requires n in Fold(lt, files)
    ensures exists i :: UsableFor(files, i, n) && Fold(lt, files)[n] == RecordOf(files[i])
                        && Maximal(lt, files, i)
    decreases |files|
  {
    var m := |files| - 1;
    var pre := files[..m];
    var last := files[m];
    assert forall j :: 0 <= j < m ==> pre[j] == files[j];
    FoldKeys(lt, pre, n);
    if n !in Fold(lt, pre) {
      // First usable manifest for n: it is the last one and nothing precedes it.
      assert UsableFor(files, m, n);
      forall j | 0 <= j < m ensures !UsableFor(files, j, n) {
        assert !UsableFor(pre, j, n);
      }
    } else {
      FoldKeepsMaximal(lt, pre, n);
      var i :| UsableFor(pre, i, n) && Fold(lt, pre)[n] == RecordOf(pre[i]) && Maximal(lt, pre, i);
      var kept := files[i];
      assert StoredVersion(Fold(lt, pre)[n]) == VersionOf(kept);
      if Usable(last) && NameOf(last) == n && lt(VersionOf(kept), VersionOf(last)) {
        // The last manifest replaced the stored one.
        forall j | UsableFor(files, j, n) ensures !lt(VersionOf(last), VersionOf(files[j])) {
          if j < m {
            assert UsableFor(pre, j, n);
            assert !lt(VersionOf(kept), VersionOf(files[j]));
          }
        }
        assert UsableFor(files, m, n);
      } else {
        // The entry for n is the one the prefix already held.
        assert Fold(lt, files)[n] == RecordOf(kept);
        forall j | UsableFor(files, j, n) ensures !lt(VersionOf(kept), VersionOf(files[j])) {
          if j < m {
            assert UsableFor(pre, j, n);
          }
        }
        assert UsableFor(files, i, n);
      }
    }
  }

  /** Under a strict weak order the record kept for a name is exactly the
      one from the FIRST usable manifest, in walk order, whose version is
      maximal among that name's usable manifests: a later manifest replaces
      the stored one only when strictly greater. */
  lemma {:induction false} FoldKeepsFirstMaximal(lt: VersionLt, files: seq<ManifestFile>, n: string)
    requires StrictWeakOrder(lt)
    requires n in Fold(lt, files)
    ensures exists i :: UsableFor(files, i, n) && Fold(lt, files)[n] == RecordOf(files[i])
                        && FirstMaximal(lt, files, i)
    decreases |files|
  {
    var m := |files| - 1;
    var pre := files[..m];
    var last := files[m];
    assert forall j :: 0 <= j < m ==> pre[j] == files[j];
    FoldKeys(lt, pre, n);
    if n !in Fold(lt, pre) {
      assert UsableFor(files, m, n);
      forall j | 0 <= j < m ensures !UsableFor(files, j, n) {
        assert !UsableFor(pre, j, n);
      }
      assert FirstMaximal(lt, files, m);
    } else {
      FoldKeepsFirstMaximal(lt, pre, n);
      var i :| UsableFor(pre, i, n) && Fold(lt, pre)[n] == RecordOf(pre[i]) && FirstMaximal(lt, pre, i);
      var kept := files[i];
      assert StoredVersion(Fold(lt, pre)[n]) == VersionOf(kept);
      if Usable(last) && NameOf(last) == n && lt(VersionOf(kept), VersionOf(last)) {
        // The last manifest replaced the stored one; nothing before it is maximal.
        forall j | UsableFor(files, j, n) ensures !lt(VersionOf(last), VersionOf(files[j])) {
          if j < m {
            assert UsableFor(pre, j, n);
            assert !lt(VersionOf(kept), VersionOf(files[j]));
          }
        }
        assert UsableFor(files, m, n);
        assert Maximal(lt, files, m);
        forall k | 0 <= k < m && UsableFor(files, k, n) ensures !Maximal(lt, files, k) {
          assert UsableFor(pre, k, n);
          assert !lt(VersionOf(kept), VersionOf(files[k]));
          assert lt(VersionOf(files[k]), VersionOf(last));
        }
        assert FirstMaximal(lt, files, m);
      } else {
        // The prefix's choice stands; a manifest before it was already beaten in the prefix.
        assert Fold(lt, files)[n] == RecordOf(kept);
        forall j | UsableFor(files, j, n) ensures !lt(VersionOf(kept), VersionOf(files[j])) {
          if j < m {
            assert UsableFor(pre, j, n);
          }
        }
        assert UsableFor(files, i, n);
        forall k | 0 <= k < i && UsableFor(files, k, n) ensures !Maximal(lt, files, k) {
          assert UsableFor(pre, k, n);
          assert !Maximal(lt, pre, k);
          var j :| UsableFor(pre, j, n) && lt(VersionOf(pre[k]), VersionOf(pre[j]));
          assert UsableFor(files, j, n);
        }
        assert FirstMaximal(lt, files, i);
      }
    }
  }

  /** Equal versions keep the first record: no usable manifest for the name
      earlier than the kept one carries the same version string. */
  lemma FoldKeepsFirstOnTie(lt: VersionLt, files: seq<ManifestFile>, n: string)
    requires StrictWeakOrder(lt)
    requires n in Fold(lt, files)
    ensures exists i :: UsableFor(files, i, n) && Fold(lt, files)[n] == RecordOf(files[i])
                        && forall k :: 0 <= k < i && UsableFor(files, k, n) ==> VersionOf(files[k]) != VersionOf(files[i])
  {
    FoldKeepsFirstMaximal(lt, files, n);
    var i :| UsableFor(files, i, n) && Fold(lt, files)[n] == RecordOf(files[i]) && FirstMaximal(lt, files, i);
  }
}
