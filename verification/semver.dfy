/** Version precedence. The program compares versions with an external
    library (`semver.lt`), so the deduplication is proved for ANY comparison
    satisfying the order laws below. A plain major.minor.patch order is
    given as a stand-in that satisfies them; it does not reproduce the
    library: a version with a pre-release or build suffix does not parse,
    and like every unparseable string it is ordered below all plain
    major.minor.patch versions instead of raising an error or following
    the suffix rules. */
module Semver {
  import opened Wrappers

  /** `lt(a, b)`: version string `a` has strictly lower precedence than `b`. */
  type VersionLt = (string, string) -> bool

  ghost predicate Irreflexive(lt: VersionLt) {
    forall a :: !lt(a, a)
  }

  ghost predicate Transitive(lt: VersionLt) {
    forall a, b, c :: lt(a, b) && lt(b, c) ==> lt(a, c)
  }

  /** Laws enough for "the stored version is never below a seen one". */
  ghost predicate StrictPartialOrder(lt: VersionLt) {
    Irreflexive(lt) && Transitive(lt)
  }

  /** A strict partial order whose incomparability is transitive: versions
      of equal precedence (for instance differing only in build metadata)
      form classes that are totally ordered. Enough for "the first
      maximal version wins". */
  ghost predicate StrictWeakOrder(lt: VersionLt) {
    && StrictPartialOrder(lt)
    && forall a, b, c :: lt(a, c) ==> lt(a, b) || lt(b, c)
  }

  /** The numeric core of a semantic version. */
  datatype Version = Version(major: nat, minor: nat, patch: nat)

  /** Precedence of the numeric core: major, then minor, then patch,
      compared numerically (section 11 of Semantic Versioning 2.0.0,
      without pre-release identifiers). */
  predicate CoreLt(a: Version, b: Version) {
    || a.major < b.major
    || (a.major == b.major && a.minor < b.minor)
    || (a.major == b.major && a.minor == b.minor && a.patch < b.patch)
  }

  lemma CoreLtIsStrictTotalOrder(a: Version, b: Version, c: Version)
    ensures !CoreLt(a, a)
    ensures CoreLt(a, b) && CoreLt(b, c) ==> CoreLt(a, c)
    ensures a != b ==> CoreLt(a, b) || CoreLt(b, a)
    ensures CoreLt(a, b) ==> !CoreLt(b, a)
  {
  }

  predicate IsDigit(c: char) {
    '0' <= c <= '9'
  }

  /** Decimal value of a non-empty digit string. */
  function ParseNat(s: string): (r: Option<nat>)
    ensures r.Some? <==> |s| > 0 && forall i :: 0 <= i < |s| ==> IsDigit(s[i])
    decreases |s|
  {
    if |s| == 0 || !IsDigit(s[|s| - 1]) then None
    else if |s| == 1 then Some(s[0] as int - '0' as int)
    else match ParseNat(s[..|s| - 1])
      case None => None
      case Some(n) => Some(10 * n + (s[|s| - 1] as int - '0' as int))
  }

  /** Splits at every '.'; always at least one part. */
  function SplitDots(s: string): (parts: seq<string>)
    ensures |parts| >= 1
    decreases |s|
  {
    if |s| == 0 then [""]
    else if s[0] == '.' then [""] + SplitDots(s[1..])
    else
      var rest := SplitDots(s[1..]);
      [[s[0]] + rest[0]] + rest[1..]
  }

  /** Reads "MAJOR.MINOR.PATCH"; anything else is None. */
  function ParseCore(s: string): Option<Version> {
    var parts := SplitDots(s);
    if |parts| != 3 then None
    else match (ParseNat(parts[0]), ParseNat(parts[1]), ParseNat(parts[2]))
      case (Some(x), Some(y), Some(z)) => Some(Version(x, y, z))
      case _ => None
  }

  /** Order on parse outcomes: an unparseable string below every version. */
  predicate ParsedLt(a: Option<Version>, b: Option<Version>) {
    match (a, b)
    case (None, Some(_)) => true
    case (Some(x), Some(y)) => CoreLt(x, y)
    case _ => false
  }

  /** The stand-in comparison on version strings. */
  predicate StandInLt(a: string, b: string) {
    ParsedLt(ParseCore(a), ParseCore(b))
  }

  /** The stand-in is a strict weak order on strings (strings that parse to
      the same core, or both fail to parse, are of equal precedence), so
      every result proved about the deduplication applies to it. */
  lemma StandInIsStrictWeakOrder()
    ensures StrictWeakOrder(StandInLt)
  {
    forall a, b, c
      ensures !StandInLt(a, a)
      ensures StandInLt(a, b) && StandInLt(b, c) ==> StandInLt(a, c)
      ensures StandInLt(a, c) ==> StandInLt(a, b) || StandInLt(b, c)
    {
      var pa, pb, pc := ParseCore(a), ParseCore(b), ParseCore(c);
      if pa.Some? && pb.Some? && pc.Some? {
        CoreLtIsStrictTotalOrder(pa.value, pb.value, pc.value);
        CoreLtIsStrictTotalOrder(pb.value, pa.value, pc.value);
        CoreLtIsStrictTotalOrder(pa.value, pc.value, pb.value);
      }
    }
  }
}
