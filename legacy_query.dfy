/** The older index reader, for the `index-v1` layout only: a package is
    an array of releases. Without a version only the first release is
    looked at; nothing here aborts. */
module LegacyQuery {
  import opened Wrappers
  import opened Bytes
  import opened Text
  import opened Hex
  import opened Json
  import opened PackageQuery

  /** The first release taken without a version: string `apkName` and a
      hex `hash`; its version name is not looked at. */
  function FirstRelease(release: Json): (r: Option<(string, Bytes)>)
    ensures r.Some? <==>
      && GetStr(release, "apkName").Some?
      && GetStr(release, "hash").Some? && IsHex(GetStr(release, "hash").value)
    ensures r.Some? ==> r.value.0 == GetStr(release, "apkName").value && DecodesTo(GetStr(release, "hash").value, r.value.1)
  {
    var file, hash := GetStr(release, "apkName"), GetStr(release, "hash");
    if file.None? || hash.None? then None
    else match Decode(hash.value)
      case None => None
      case Some(digest) => Some((file.value, digest))
  }

  /** A release taken for a version: it names that version, with string
      `apkName` and a hex `hash`. */
  function VersionRelease(release: Json, version: string): (r: Option<(string, Bytes)>)
    ensures r.Some? <==> GetStr(release, "versionName") == Some(version) && FirstRelease(release).Some?
    ensures r.Some? ==> r == FirstRelease(release)
  {
    if GetStr(release, "versionName") != Some(version) then None else FirstRelease(release)
  }

  function VersionPick(version: string): Json -> Option<(string, Bytes)> {
    (r: Json) => VersionRelease(r, version)
  }

  /** What the older reader makes of one app. A package that is not an
      array is passed over without a word. */
  function LegacyResolveApp(packages: seq<(string, Json)>, app: AppRequest): Resolution {
    match Lookup(packages, app.0)
    case Some(Array(releases)) =>
      if app.1.None? then
        if releases != [] && FirstRelease(releases[0]).Some? then Found(FirstRelease(releases[0]).value.0, FirstRelease(releases[0]).value.1)
        else NotFound
      else
        (match FirstPick(releases, VersionPick(app.1.value))
         case Some((file, digest)) => Found(file, digest)
         case None => NotFound)
    case _ => NotFound
  }

  function LegacyResolver(packages: seq<(string, Json)>): AppRequest -> Resolution {
    (app: AppRequest) => LegacyResolveApp(packages, app)
  }

  /** The older `parse_json_for_download_information`. */
  function LegacyDownloadInformation(index: Json, apps: seq<AppRequest>): Result<(seq<Download>, string), QueryError> {
    var (address, packages) :- IndexParts(index);
    var downloads :- ResolveAll(LegacyResolver(packages), apps);
    Ok((downloads, address))
  }

  /** A resolver that never aborts gives a list of downloads. */
  lemma {:induction false} ResolveAllNoPanic(resolve: AppRequest -> Resolution, apps: seq<AppRequest>)
    requires forall k :: 0 <= k < |apps| ==> resolve(apps[k]) != Panic
    ensures ResolveAll(resolve, apps).Ok?
    decreases |apps|
  {
    if apps != [] {
      var n := |apps| - 1;
      assert forall k :: 0 <= k < n ==> apps[..n][k] == apps[k];
      ResolveAllNoPanic(resolve, apps[..n]);
    }
  }

  /** The older reader fails only on a malformed index. */
  lemma LegacyFailsOnlyOnIndex(index: Json, apps: seq<AppRequest>)
    ensures LegacyDownloadInformation(index, apps).Err? <==> IndexParts(index).Err?
  {
    if IndexParts(index).Ok? {
      var packages := IndexParts(index).value.1;
      forall k | 0 <= k < |apps| ensures LegacyResolver(packages)(apps[k]) != Panic {
      }
      ResolveAllNoPanic(LegacyResolver(packages), apps);
    }
  }

  /** Without a version only the first release counts: releases after it
      change nothing. */
  lemma OnlyFirstReleaseCounts(packages1: seq<(string, Json)>, packages2: seq<(string, Json)>, id: string,
                               releases1: seq<Json>, releases2: seq<Json>)
    requires Lookup(packages1, id) == Some(Array(releases1)) && Lookup(packages2, id) == Some(Array(releases2))
    requires releases1 != [] && releases2 != [] && releases1[0] == releases2[0]
    ensures LegacyResolveApp(packages1, (id, None)) == LegacyResolveApp(packages2, (id, None))
  {
  }

  lemma {:induction false} FirstPickSame(xs: seq<Json>, p1: Json -> Option<(string, Bytes)>, p2: Json -> Option<(string, Bytes)>)
    requires forall i :: 0 <= i < |xs| ==> p1(xs[i]) == p2(xs[i])
    ensures FirstPick(xs, p1) == FirstPick(xs, p2)
    decreases |xs|
  {
    if xs != [] {
      assert forall i :: 0 <= i < |xs| - 1 ==> xs[1..][i] == xs[i + 1];
      FirstPickSame(xs[1..], p1, p2);
    }
  }

  /** Asking for a version, the older reader and the current one (with no
      architecture) agree on the array shape. */
  lemma VersionQueryAgrees(packages: seq<(string, Json)>, id: string, version: string, releases: seq<Json>)
    requires Lookup(packages, id) == Some(Array(releases))
    ensures LegacyResolveApp(packages, (id, Some(version))) == ResolveApp(packages, (id, Some(version)), None)
  {
    forall i | 0 <= i < |releases|
      ensures VersionPick(version)(releases[i]) == ArrayPick(Some(version), None)(releases[i])
    {
      var r := releases[i];
      assert VersionPick(version)(r) == VersionRelease(r, version);
      assert ArrayPick(Some(version), None)(r) == ArrayRelease(r, Some(version), None);
      if VersionRelease(r, version).Some? {
        assert ArrayRelease(r, Some(version), None).Some?;
      }
    }
    FirstPickSame(releases, VersionPick(version), ArrayPick(Some(version), None));
  }

  // -------------------------------------------------------------------
  // Listing versions.

  /** What the older listing shows for an app. */
  datatype LegacyListing =
    | Shown(appId: string, versions: seq<string>) // the sorted version names
    | NotAnArray(appId: string)                  // only the heading is printed
    | Missing(appId: string)                     // the app is not in the packages

  ghost predicate LegacyLists(l: LegacyListing, id: string, package: Option<Json>) {
    match package
    case None => l == Missing(id)
    case Some(Array(releases)) =>
      && l.Shown? && l.appId == id
      && StrictlyAscending(l.versions)
      && forall y :: y in l.versions <==> y in ArrayVersionNames(releases)
    case Some(_) => l == NotAnArray(id)
  }

  /** The older `parse_json_display_versions`. */
  method LegacyDisplayVersions(index: Json, apps: seq<string>) returns (r: Result<seq<LegacyListing>, QueryError>)
    ensures r.Err? <==> !(Get(index, "packages").Some? && Get(index, "packages").value.Object?)
    ensures r.Ok? ==> |r.value| == |apps| && forall k :: 0 <= k < |apps| ==>
      LegacyLists(r.value[k], apps[k], Lookup(Get(index, "packages").value.members, apps[k]))
  {
    var packages := Get(index, "packages");
    if !(packages.Some? && packages.value.Object?) {
      return Err(IndexMalformed);
    }
    var members := packages.value.members;
    var listings: seq<LegacyListing> := [];
    for k := 0 to |apps|
      invariant |listings| == k
      invariant forall j :: 0 <= j < k ==> LegacyLists(listings[j], apps[j], Lookup(members, apps[j]))
    {
      var id := apps[k];
      var package := Lookup(members, id);
      if package.None? {
        listings := listings + [Missing(id)];
      } else if package.value.Array? {
        var names := CollectArrayNames(package.value.items);
        var sorted := SortedFromSet(names);
        listings := listings + [Shown(id, sorted)];
      } else {
        listings := listings + [NotAnArray(id)];
      }
    }
    return Ok(listings);
  }
}
