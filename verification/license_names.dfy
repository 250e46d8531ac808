/** The license name shown for a package: the `license` field when it is
    truthy, otherwise the `type`s of the legacy `licenses` array joined
    with ", ", otherwise absent. */
module LicenseNames {
  import opened Wrappers
  import opened JsValues
  import opened Manifests

  const Separator: string := ", "

  /** `Array.prototype.join(", ")` over strings. */
  function Join(parts: seq<string>): string
    decreases |parts|
  {
    if |parts| == 0 then ""
    else if |parts| == 1 then parts[0]
    else parts[0] + Separator + Join(parts[1..])
  }

  /** The element the `map(({ type }) => type)` callback yields, as `join`
      renders it: a missing `type` becomes the empty string. */
  function TypeName(e: LicenseEntry): string {
    e.licenseType.GetOr("")
  }

  function TypeNames(es: seq<LicenseEntry>): (names: seq<string>)
    ensures |names| == |es|
    ensures forall i :: 0 <= i < |es| ==> names[i] == TypeName(es[i])
  {
    seq(|es|, i requires 0 <= i < |es| => TypeName(es[i]))
  }

  /** Splits at every ", ": the inverse of `Join` on comma-free parts. */
  function SplitNames(s: string): (parts: seq<string>)
    ensures |parts| >= 1
    decreases |s|
  {
    if |s| == 0 then [""]
    else if |s| >= 2 && s[..2] == Separator then [""] + SplitNames(s[2..])
    else
      var rest := SplitNames(s[1..]);
      [[s[0]] + rest[0]] + rest[1..]
  }

  predicate CommaFree(s: string) {
    forall i :: 0 <= i < |s| ==> s[i] != ','
  }

  lemma {:induction false} SplitCommaFree(s: string)
    requires CommaFree(s)
    ensures SplitNames(s) == [s]
    decreases |s|
  {
    if |s| > 0 {
      assert CommaFree(s[1..]) by {
        forall i | 0 <= i < |s[1..]| ensures s[1..][i] != ',' {
          assert s[1..][i] == s[i + 1];
        }
      }
      SplitCommaFree(s[1..]);
      assert [s[0]] + s[1..] == s;
    }
  }

  lemma {:induction false} SplitAfterPart(p: string, t: string)
    requires CommaFree(p)
    ensures SplitNames(p + Separator + t) == [p] + SplitNames(t)
    decreases |p|
  {
    var s := p + Separator + t;
    if |p| == 0 {
      assert s[..2] == Separator;
      assert s[2..] == t;
    } else {
      assert s[0] == p[0] && s[0] != ',';
      assert s[1..] == p[1..] + Separator + t;
      assert CommaFree(p[1..]) by {
        forall i | 0 <= i < |p[1..]| ensures p[1..][i] != ',' {
          assert p[1..][i] == p[i + 1];
        }
      }
      SplitAfterPart(p[1..], t);
      assert [p[0]] + p[1..] == p;
    }
  }

  /** Joining comma-free names loses nothing: splitting the joined text at
      ", " gives the names back, in order. */
  lemma {:induction false} SplitJoin(parts: seq<string>)
    requires |parts| >= 1
    requires forall i :: 0 <= i < |parts| ==> CommaFree(parts[i])
    ensures SplitNames(Join(parts)) == parts
    decreases |parts|
  {
    if |parts| == 1 {
      SplitCommaFree(parts[0]);
    } else {
      SplitAfterPart(parts[0], Join(parts[1..]));
      SplitJoin(parts[1..]);
      assert [parts[0]] + parts[1..] == parts;
    }
  }

  /** The license name of a manifest: its truthy `license`, else the joined
      types of a present `licenses` array, else nothing. None stands for the
      falsy `undefined`/`null`; Some("") is possible
      (an empty array, or entries without `type`) and is falsy too. */
  function LicenseName(m: Manifest): (r: Option<string>)
    ensures Truthy(m.license) ==> r == m.license
    ensures !Truthy(m.license) && m.licenses.None? ==> r == None
    ensures !Truthy(m.license) && m.licenses.Some? ==> r.Some?
  {
    if Truthy(m.license) then m.license
    else if m.licenses.Some? then Some(Join(TypeNames(m.licenses.value)))
    else None
  }

  /** Without a truthy `license`, the name lists every `type` of a non-empty
      `licenses` array in order: when no type contains a comma, splitting
      the name at ", " recovers them exactly. */
  lemma LicenseNameListsTypes(m: Manifest)
    requires !Truthy(m.license) && m.licenses.Some? && |m.licenses.value| >= 1
    requires forall i :: 0 <= i < |m.licenses.value| ==> CommaFree(TypeName(m.licenses.value[i]))
    ensures LicenseName(m).Some? && SplitNames(LicenseName(m).value) == TypeNames(m.licenses.value)
  {
    SplitJoin(TypeNames(m.licenses.value));
  }

  /** The name is truthy exactly when `license` is, or when the joined
      `licenses` types are non-empty text. */
  lemma LicenseNameTruthy(m: Manifest)
    ensures Truthy(LicenseName(m)) <==>
      Truthy(m.license) || (m.licenses.Some? && Join(TypeNames(m.licenses.value)) != "")
  {
  }

  /** An entry without `type` renders as nothing: `[{}]` yields "". */
  lemma MissingTypeJoinsEmpty()
    ensures LicenseName(Manifest("p", Some("1.0.0"), None, Some([LicenseEntry(None)]))) == Some("")
  {
  }
}
