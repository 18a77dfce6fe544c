/** The name a downloaded app is saved under, shared by the F-Droid and
    APKPure downloaders: the app id, then the version asked for, then the
    architecture, joined by '@', and an extension. */
module AppNaming {
  import opened Wrappers
  import opened Text

  /** The pieces of an app string, in order. */
  function Parts(id: string, version: Option<string>, arch: Option<string>): (ps: seq<string>)
    ensures |ps| >= 1 && ps[0] == id
  {
    [id] + (if version.Some? then [version.value] else []) + (if arch.Some? then [arch.value] else [])
  }

  /** `id`, `id@arch`, `id@version` or `id@version@arch`. */
  function AppString(id: string, version: Option<string>, arch: Option<string>): (s: string)
    ensures |s| >= |id| && s[..|id|] == id
    ensures version.None? && arch.None? <==> s == id
  {
    match (version, arch)
    case (None, None) => id
    case (None, Some(a)) => id + "@" + a
    case (Some(v), None) => id + "@" + v
    case (Some(v), Some(a)) => id + "@" + v + "@" + a
  }

  /** The file an `.apk` is saved as. */
  function ApkName(appString: string): (f: string)
    ensures |f| == |appString| + 4 && f[..|appString|] == appString && f[|appString|..] == ".apk"
  {
    appString + ".apk"
  }

  /** None of the pieces holds '@'. */
  predicate PlainParts(id: string, version: Option<string>, arch: Option<string>) {
    && '@' !in id
    && (version.Some? ==> '@' !in version.value)
    && (arch.Some? ==> '@' !in arch.value)
  }

  lemma AppStringIsJoin(id: string, version: Option<string>, arch: Option<string>)
    ensures AppString(id, version, arch) == Join(Parts(id, version, arch), '@')
  {
    var ps := Parts(id, version, arch);
    if |ps| == 2 {
      assert ps[1..] == [ps[1]];
    } else if |ps| == 3 {
      assert ps[1..][1..] == [ps[2]];
      assert Join(ps[1..], '@') == ps[1] + "@" + ps[2];
      assert Join(ps, '@') == ps[0] + "@" + (ps[1] + "@" + ps[2]);
    }
  }

  /** Splitting an app string at '@' gives back its pieces when none of
      them holds an '@'. */
  lemma AppStringSplits(id: string, version: Option<string>, arch: Option<string>)
    requires PlainParts(id, version, arch)
    ensures Split(AppString(id, version, arch), '@') == Parts(id, version, arch)
  {
    AppStringIsJoin(id, version, arch);
    SplitJoin(Parts(id, version, arch), '@');
  }

  /** With plain pieces, equal app strings have the same id and the same
      pieces after it. */
  lemma AppStringInjective(id1: string, version1: Option<string>, arch1: Option<string>,
                           id2: string, version2: Option<string>, arch2: Option<string>)
    requires PlainParts(id1, version1, arch1) && PlainParts(id2, version2, arch2)
    requires AppString(id1, version1, arch1) == AppString(id2, version2, arch2)
    ensures id1 == id2 && Parts(id1, version1, arch1) == Parts(id2, version2, arch2)
  {
    AppStringSplits(id1, version1, arch1);
    AppStringSplits(id2, version2, arch2);
  }

  /** An app string with one piece after the id does not say which piece
      it is: a version and an architecture of the same text collide. */
  lemma VersionAndArchCollide(id: string, x: string)
    ensures AppString(id, Some(x), None) == AppString(id, None, Some(x))
    ensures ApkName(AppString(id, Some(x), None)) == ApkName(AppString(id, None, Some(x)))
  {
  }
}
