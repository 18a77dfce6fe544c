/** Reading the F-Droid index for the apps asked for: which file to fetch
    and which SHA-256 to expect (`parse_json_for_download_information`),
    and which versions an app has (`parse_json_display_versions`). The
    index comes in two shapes: the older one keeps a package as an array
    of releases, the newer one as an object whose `versions` member maps
    a key to each release. */
module PackageQuery {
  import opened Wrappers
  import opened Bytes
  import opened Text
  import opened Hex
  import opened Json

  /** An app as asked for: its id and, optionally, the version wanted. */
  type AppRequest = (string, Option<string>)

  /** What is downloaded for an app: the file name under the repository
      and the expected SHA-256. */
  datatype Download = Download(appId: string, version: Option<string>, fileName: string, hash: Bytes)

  datatype QueryError =
    | IndexMalformed         // no object, no `repo.address` string or no `packages` object
    | Panicked(appId: string) // the program aborts while reading this app

  /** The outcome for one app. */
  datatype Resolution = Found(fileName: string, hash: Bytes) | NotFound | Panic

  // -------------------------------------------------------------------
  // The index as a whole.

  /** The repository address and the packages of an index. */
  function IndexParts(index: Json): (r: Result<(string, seq<(string, Json)>), QueryError>)
    ensures r.Ok? <==>
      && index.Object?
      && Get(index, "repo").Some?
      && GetStr(Get(index, "repo").value, "address").Some?
      && Get(index, "packages").Some? && Get(index, "packages").value.Object?
    ensures r.Ok? ==> r.value.0 == GetStr(Get(index, "repo").value, "address").value
    ensures r.Ok? ==> Get(index, "packages") == Some(Object(r.value.1))
  {
    if !index.Object? then Err(IndexMalformed)
    else match Get(index, "repo")
      case None => Err(IndexMalformed)
      case Some(repo) =>
        match (GetStr(repo, "address"), Get(index, "packages"))
        case (Some(address), Some(Object(packages))) => Ok((address, packages))
        case _ => Err(IndexMalformed)
  }

  /** The first element a picking function accepts, and what it makes of it. */
  function FirstPick(xs: seq<Json>, pick: Json -> Option<(string, Bytes)>): (r: Option<(string, Bytes)>)
    ensures r.None? <==> forall i :: 0 <= i < |xs| ==> pick(xs[i]).None?
    ensures r.Some? ==> exists i :: 0 <= i < |xs| && pick(xs[i]) == r && forall j :: 0 <= j < i ==> pick(xs[j]).None?
    decreases |xs|
  {
    if xs == [] then None
    else if pick(xs[0]).Some? then pick(xs[0])
    else
      var r := FirstPick(xs[1..], pick);
      assert forall i :: 1 <= i < |xs| ==> xs[i] == xs[1..][i - 1];
      assert r.Some? ==> exists i :: 0 <= i < |xs| && pick(xs[i]) == r && forall j :: 0 <= j < i ==> pick(xs[j]).None? by {
        if r.Some? {
          var i :| 0 <= i < |xs[1..]| && pick(xs[1..][i]) == r && forall j :: 0 <= j < i ==> pick(xs[1..][j]).None?;
          assert pick(xs[i + 1]) == r;
        }
      }
      r
  }

  /** The first element accepted is the one picked. */
  lemma {:induction false} FirstPickAt(xs: seq<Json>, pick: Json -> Option<(string, Bytes)>, i: nat)
    requires i < |xs| && pick(xs[i]).Some?
    requires forall j :: 0 <= j < i ==> pick(xs[j]).None?
    ensures FirstPick(xs, pick) == pick(xs[i])
    decreases i
  {
    if i > 0 {
      assert forall j :: 0 <= j < i - 1 ==> xs[1..][j] == xs[j + 1];
      FirstPickAt(xs[1..], pick, i - 1);
    }
  }

  // -------------------------------------------------------------------
  // The array shape.

  /** `nativecode` is an array holding the string `arch`. */
  predicate HasNative(release: Json, arch: string) {
    match Get(release, "nativecode")
    case Some(Array(items)) => exists i :: 0 <= i < |items| && items[i] == Str(arch)
    case _ => false
  }

  /** A release of the array shape taken for a request: it names its
      version (the one asked for, if any), its file and a hex digest, and
      is built for `arch` when one is given. */
  function ArrayRelease(release: Json, version: Option<string>, arch: Option<string>): (r: Option<(string, Bytes)>)
    ensures r.Some? <==>
      && GetStr(release, "versionName").Some?
      && (version.None? || GetStr(release, "versionName") == version)
      && GetStr(release, "apkName").Some?
      && GetStr(release, "hash").Some? && IsHex(GetStr(release, "hash").value)
      && (arch.None? || HasNative(release, arch.value))
    ensures r.Some? ==> && r.value.0 == GetStr(release, "apkName").value
                        && DecodesTo(GetStr(release, "hash").value, r.value.1)
  {
    match GetStr(release, "versionName")
    case None => None
    case Some(name) =>
      var file, hash := GetStr(release, "apkName"), GetStr(release, "hash");
      if version.Some? && name != version.value then None
      else if file.None? || hash.None? || Decode(hash.value).None? then None
      else if arch.Some? && !HasNative(release, arch.value) then None
      else Some((file.value, Decode(hash.value).value))
  }

  // -------------------------------------------------------------------
  // The object shape.

  /** A release of the object shape with an object `manifest` and an
      object `file` holding string `name` and `sha256`: the two strings. */
  function ReleaseFile(release: Json): (r: Option<(string, string)>)
    ensures r.Some? ==> Get(release, "manifest").Some? && Get(release, "manifest").value.Object?
    ensures r.Some? <==>
      && Get(release, "manifest").Some? && Get(release, "manifest").value.Object?
      && Get(release, "file").Some? && Get(release, "file").value.Object?
      && GetStr(Get(release, "file").value, "name").Some?
      && GetStr(Get(release, "file").value, "sha256").Some?
    ensures r.Some? ==> r.value == (GetStr(Get(release, "file").value, "name").value,
                                    GetStr(Get(release, "file").value, "sha256").value)
  {
    var manifest, file := Get(release, "manifest"), Get(release, "file");
    if manifest.None? || !manifest.value.Object? || file.None? || !file.value.Object? then None
    else match (GetStr(file.value, "name"), GetStr(file.value, "sha256"))
      case (Some(name), Some(sha256)) => Some((name, sha256))
      case _ => None
  }

  function ManifestOf(release: Json): Json
    requires ReleaseFile(release).Some?
  {
    Get(release, "manifest").value
  }

  /** The release asked for by version: it has its file, its manifest
      names that version, and its digest is hex. */
  function NamedRelease(release: Json, version: string): (r: Option<(string, Bytes)>)
    ensures r.Some? <==>
      && ReleaseFile(release).Some?
      && GetStr(ManifestOf(release), "versionName") == Some(version)
      && IsHex(ReleaseFile(release).value.1)
    ensures r.Some? ==> r.value.0 == ReleaseFile(release).value.0 && DecodesTo(ReleaseFile(release).value.1, r.value.1)
  {
    match ReleaseFile(release)
    case None => None
    case Some((name, sha256)) =>
      if GetStr(ManifestOf(release), "versionName") != Some(version) then None
      else match Decode(sha256)
        case None => None
        case Some(digest) => Some((name, digest))
  }

  /** The newest release seen so far: its `versionCode`, file name and
      recorded digest. */
  datatype Latest = Latest(code: nat, fileName: string, sha256: string)

  /** A release that competes for newest: it has its file and a
      non-negative integer `versionCode` in its manifest. */
  function Candidate(release: Json): (r: Option<Latest>)
    ensures r.Some? ==> ReleaseFile(release).Some?
    ensures r.Some? ==> (r.value.fileName, r.value.sha256) == ReleaseFile(release).value
  {
    match ReleaseFile(release)
    case None => None
    case Some((name, sha256)) =>
      match Get(ManifestOf(release), "versionCode")
      case Some(Num(n)) => if n.PosInt? then Some(Latest(n.u as nat, name, sha256)) else None
      case _ => None
  }

  /** One release looked at by the scan: its candidate replaces the
      newest so far only with a strictly greater code. */
  function Step(prev: Latest, candidate: Option<Latest>): Latest {
    if candidate.Some? && candidate.value.code > prev.code then candidate.value else prev
  }

  /** The scan over a run of candidates; it starts from code 0 with an
      empty name and digest. */
  function Best(cs: seq<Option<Latest>>): Latest
    decreases |cs|
  {
    if cs == [] then Latest(0, "", "")
    else Step(Best(cs[..|cs| - 1]), cs[|cs| - 1])
  }

  function Candidates(versions: seq<(string, Json)>): (cs: seq<Option<Latest>>)
    ensures |cs| == |versions| && forall i :: 0 <= i < |versions| ==> cs[i] == Candidate(versions[i].1)
  {
    seq(|versions|, i requires 0 <= i < |versions| => Candidate(versions[i].1))
  }

  /** The scan over the releases when no version is asked for. */
  function Scan(versions: seq<(string, Json)>): Latest {
    Best(Candidates(versions))
  }

  function Values(members: seq<(string, Json)>): (vs: seq<Json>)
    ensures |vs| == |members| && forall i :: 0 <= i < |members| ==> vs[i] == members[i].1
  {
    seq(|members|, i requires 0 <= i < |members| => members[i].1)
  }

  function ArrayPick(version: Option<string>, arch: Option<string>): Json -> Option<(string, Bytes)> {
    (r: Json) => ArrayRelease(r, version, arch)
  }

  function NamedPick(version: string): Json -> Option<(string, Bytes)> {
    (r: Json) => NamedRelease(r, version)
  }

  /** The array shape: the first release that is taken. When none is and
      no version was asked for, the program aborts: the message it prints
      unwraps the absent version. */
  function ArrayResolution(releases: seq<Json>, version: Option<string>, arch: Option<string>): Resolution {
    match FirstPick(releases, ArrayPick(version, arch))
    case Some((file, digest)) => Found(file, digest)
    case None => if version.None? then Panic else NotFound
  }

  /** The object shape: with a version, the first release asked for (the
      architecture plays no part); without one, the newest release, whose
      digest must be hex. */
  function ObjectResolution(versions: seq<(string, Json)>, version: Option<string>): Option<(string, Bytes)> {
    if version.Some? then FirstPick(Values(versions), NamedPick(version.value))
    else
      var latest := Scan(versions);
      match Decode(latest.sha256)
      case None => None
      case Some(digest) => Some((latest.fileName, digest))
  }

  // -------------------------------------------------------------------
  // One app and all of them.

  /** What the index says for one app. A package that is neither an array
      nor an object, an absent package and an object without a `versions`
      object are not found. */
  function ResolveApp(packages: seq<(string, Json)>, app: AppRequest, arch: Option<string>): Resolution {
    match Lookup(packages, app.0)
    case Some(Array(releases)) => ArrayResolution(releases, app.1, arch)
    case Some(Object(members)) => ObjectShape(members, app.1)
    case _ => NotFound
  }

  /** An object-shape package: nothing unless its `versions` is an
      object. */
  function ObjectShape(members: seq<(string, Json)>, version: Option<string>): Resolution {
    match Get(Object(members), "versions")
    case Some(Object(versions)) => Resolved(ObjectResolution(versions, version))
    case _ => NotFound
  }

  function Resolved(picked: Option<(string, Bytes)>): Resolution {
    match picked
    case Some((file, digest)) => Found(file, digest)
    case None => NotFound
  }

  function Resolver(packages: seq<(string, Json)>, arch: Option<string>): AppRequest -> Resolution {
    (app: AppRequest) => ResolveApp(packages, app, arch)
  }

  /** The apps, in the order asked for, that are found; the first abort
      ends everything. */
  function ResolveAll(resolve: AppRequest -> Resolution, apps: seq<AppRequest>): Result<seq<Download>, QueryError>
    decreases |apps|
  {
    if apps == [] then Ok([])
    else
      var prev := ResolveAll(resolve, apps[..|apps| - 1]);
      var app := apps[|apps| - 1];
      if prev.Err? then prev
      else match resolve(app)
        case Panic => Err(Panicked(app.0))
        case NotFound => prev
        case Found(file, digest) => Ok(prev.value + [Download(app.0, app.1, file, digest)])
  }

  /** `parse_json_for_download_information`: the downloads and the
      repository address. */
  function DownloadInformation(index: Json, apps: seq<AppRequest>, arch: Option<string>)
    : Result<(seq<Download>, string), QueryError>
  {
    var (address, packages) :- IndexParts(index);
    var downloads :- ResolveAll(Resolver(packages, arch), apps);
    Ok((downloads, address))
  }

  /** The object-shape loop over the releases: with a version it returns
      at the first release asked for; without one it keeps the newest so
      far and decodes its digest at the end. */
  method QueryReleases(versions: seq<(string, Json)>, version: Option<string>) returns (r: Option<(string, Bytes)>)
    ensures r == ObjectResolution(versions, version)
  {
    var latestVersion: nat := 0;
    var fileName := "";
    var hash := "";
    ghost var cs := Candidates(versions);
    for i := 0 to |versions|
      invariant version.Some? ==> Unnamed(versions, version.value, i)
      invariant version.None? ==> Latest(latestVersion, fileName, hash) == Best(cs[..i])
    {
      var release := versions[i].1;
      if version.Some? {
        var named := NamedRelease(release, version.value);
        if named.Some? {
          QueryReleasesFound(versions, i, version.value, named);
          return named;
        }
        UnnamedStep(versions, version.value, i);
      } else {
        var candidate := Candidate(release);
        assert candidate == cs[i];
        if candidate.Some? && candidate.value.code > latestVersion {
          latestVersion := candidate.value.code;
          fileName := candidate.value.fileName;
          hash := candidate.value.sha256;
        }
        assert cs[..i + 1][..i] == cs[..i];
      }
    }
    assert cs[..|versions|] == cs;
    if version.None? {
      var digest := Decode(hash);
      if digest.Some? {
        return Some((fileName, digest.value));
      }
      return None;
    }
    QueryReleasesMissing(versions, version.value);
    return None;
  }

  /** No release before `i` is the one asked for. */
  ghost predicate Unnamed(versions: seq<(string, Json)>, version: string, i: int)
    requires 0 <= i <= |versions|
  {
    forall j :: 0 <= j < i ==> NamedRelease(versions[j].1, version).None?
  }

  lemma UnnamedStep(versions: seq<(string, Json)>, version: string, i: int)
    requires 0 <= i < |versions| && Unnamed(versions, version, i) && NamedRelease(versions[i].1, version).None?
    ensures Unnamed(versions, version, i + 1)
  {
  }

  lemma QueryReleasesMissing(versions: seq<(string, Json)>, version: string)
    requires Unnamed(versions, version, |versions|)
    ensures ObjectResolution(versions, Some(version)) == None
  {
    var vs := Values(versions);
    assert forall j :: 0 <= j < |vs| ==> NamedPick(version)(vs[j]).None?;
  }

  lemma QueryReleasesFound(versions: seq<(string, Json)>, i: nat, version: string, r: Option<(string, Bytes)>)
    requires i < |versions| && NamedRelease(versions[i].1, version) == r && r.Some?
    requires Unnamed(versions, version, i)
    ensures r == ObjectResolution(versions, Some(version))
  {
    var vs := Values(versions);
    assert NamedPick(version)(vs[i]) == r;
    assert forall j :: 0 <= j < i ==> NamedPick(version)(vs[j]).None?;
    FirstPickAt(vs, NamedPick(version), i);
  }

  /** One app looked up in the packages; an object-shape package is read
      by the release loop. */
  method ResolveOne(packages: seq<(string, Json)>, app: AppRequest, arch: Option<string>) returns (found: Resolution)
    ensures found == ResolveApp(packages, app, arch)
  {
    var package := Lookup(packages, app.0);
    if package.Some? && package.value.Array? {
      return ArrayResolution(package.value.items, app.1, arch);
    }
    if !(package.Some? && package.value.Object?) {
      return NotFound;
    }
    found := ResolveObject(package.value.members, app.1);
  }

  /** An object-shape package read by the release loop. */
  method ResolveObject(members: seq<(string, Json)>, version: Option<string>) returns (found: Resolution)
    ensures found == ObjectShape(members, version)
  {
    var versions := Get(Object(members), "versions");
    if !(versions.Some? && versions.value.Object?) {
      return NotFound;
    }
    var picked := QueryReleases(versions.value.members, version);
    found := Resolved(picked);
  }

  /** `parse_json_for_download_information`, app by app. */
  method ParseForDownload(index: Json, apps: seq<AppRequest>, arch: Option<string>)
    returns (r: Result<(seq<Download>, string), QueryError>)
    ensures r == DownloadInformation(index, apps, arch)
  {
    var parts := IndexParts(index);
    if parts.Err? {
      return Err(parts.error);
    }
    var (address, packages) := parts.value;
    var downloads: seq<Download> := [];
    for i := 0 to |apps|
      invariant ResolveAll(Resolver(packages, arch), apps[..i]) == Ok(downloads)
    {
      assert apps[..i + 1][..i] == apps[..i];
      var app := apps[i];
      var found := ResolveOne(packages, app, arch);
      assert found == Resolver(packages, arch)(app);
      if found.Panic? {
        ResolveAllErrSticky(Resolver(packages, arch), apps, i + 1);
        return Err(Panicked(app.0));
      } else if found.Found? {
        downloads := downloads + [Download(app.0, app.1, found.fileName, found.hash)];
      }
    }
    assert apps[..|apps|] == apps;
    return Ok((downloads, address));
  }

  // -------------------------------------------------------------------
  // Properties of the query.

  /** Once an abort has happened, later apps change nothing. */
  lemma {:induction false} ResolveAllErrSticky(resolve: AppRequest -> Resolution, apps: seq<AppRequest>, k: nat)
    requires k <= |apps| && ResolveAll(resolve, apps[..k]).Err?
    ensures ResolveAll(resolve, apps) == ResolveAll(resolve, apps[..k])
    decreases |apps| - k
  {
    if k < |apps| {
      var n := |apps| - 1;
      assert apps[..n][..k] == apps[..k];
      ResolveAllErrSticky(resolve, apps[..n], k);
    } else {
      assert apps[..k] == apps;
    }
  }

  lemma {:induction false} BestIsMaximum(cs: seq<Option<Latest>>)
    ensures forall i :: 0 <= i < |cs| && cs[i].Some? ==> cs[i].value.code <= Best(cs).code
    decreases |cs|
  {
    if cs != [] {
      var n := |cs| - 1;
      BestIsMaximum(cs[..n]);
      assert forall i :: 0 <= i < n ==> cs[..n][i] == cs[i];
    }
  }

  lemma {:induction false} BestIsEarliest(cs: seq<Option<Latest>>) returns (i: int)
    requires Best(cs).code > 0
    ensures 0 <= i < |cs| && cs[i] == Some(Best(cs))
    ensures forall j :: 0 <= j < i && cs[j].Some? ==> cs[j].value.code < Best(cs).code
    decreases |cs|
  {
    var n := |cs| - 1;
    var init := cs[..n];
    var prev := Best(init);
    if cs[n].Some? && cs[n].value.code > prev.code {
      BestIsMaximum(init);
      assert forall j :: 0 <= j < n ==> init[j] == cs[j];
      i := n;
    } else {
      i := BestIsEarliest(init);
      assert init[i] == cs[i];
      assert forall j :: 0 <= j < i ==> init[j] == cs[j];
    }
  }

  lemma {:induction false} BestStaysEmpty(cs: seq<Option<Latest>>)
    requires forall i :: 0 <= i < |cs| && cs[i].Some? ==> cs[i].value.code == 0
    ensures Best(cs) == Latest(0, "", "")
    decreases |cs|
  {
    if cs != [] {
      var n := |cs| - 1;
      assert forall i :: 0 <= i < n ==> cs[..n][i] == cs[i];
      BestStaysEmpty(cs[..n]);
    }
  }

  /** No release's `versionCode` exceeds the scan's. */
  lemma ScanIsMaximum(versions: seq<(string, Json)>)
    ensures forall i :: 0 <= i < |versions| && Candidate(versions[i].1).Some? ==>
      Candidate(versions[i].1).value.code <= Scan(versions).code
  {
    BestIsMaximum(Candidates(versions));
  }

  /** The scan holds the earliest release with the greatest code. */
  lemma ScanIsEarliest(versions: seq<(string, Json)>)
    requires Scan(versions).code > 0
    ensures exists i :: && 0 <= i < |versions|
                        && Candidate(versions[i].1) == Some(Scan(versions))
                        && forall j :: 0 <= j < i && Candidate(versions[j].1).Some? ==>
                             Candidate(versions[j].1).value.code < Scan(versions).code
  {
    var cs := Candidates(versions);
    var i := BestIsEarliest(cs);
    assert forall j :: 0 <= j < i ==> cs[j] == Candidate(versions[j].1);
  }

  /** With no release of positive code the scan is still at its start. */
  lemma ScanStaysEmpty(versions: seq<(string, Json)>)
    requires forall i :: 0 <= i < |versions| && Candidate(versions[i].1).Some? ==> Candidate(versions[i].1).value.code == 0
    ensures Scan(versions) == Latest(0, "", "")
  {
    BestStaysEmpty(Candidates(versions));
  }

  /** Without a version, an object-shape package with no release that has
      a positive `versionCode` still yields a download: of the empty file
      name, with the empty digest. */
  lemma NoCodeGivesEmptyName(packages: seq<(string, Json)>, id: string, members: seq<(string, Json)>,
                             versions: seq<(string, Json)>, arch: Option<string>)
    requires Lookup(packages, id) == Some(Object(members))
    requires Get(Object(members), "versions") == Some(Object(versions))
    requires forall i :: 0 <= i < |versions| && Candidate(versions[i].1).Some? ==> Candidate(versions[i].1).value.code == 0
    ensures ResolveApp(packages, (id, None), arch) == Found("", [])
  {
    ScanStaysEmpty(versions);
    EmptyScanFound(packages, id, members, versions, arch);
  }

  lemma EmptyScanFound(packages: seq<(string, Json)>, id: string, members: seq<(string, Json)>,
                       versions: seq<(string, Json)>, arch: Option<string>)
    requires Lookup(packages, id) == Some(Object(members))
    requires Get(Object(members), "versions") == Some(Object(versions))
    requires Scan(versions) == Latest(0, "", "")
    ensures ResolveApp(packages, (id, None), arch) == Found("", [])
  {
    DecodeEmpty();
    assert ObjectResolution(versions, None) == Some(("", []));
    assert ObjectShape(members, None) == Resolved(Some(("", [])));
  }

  /** The architecture is looked at only for the array shape. */
  lemma ObjectShapeIgnoresArch(packages: seq<(string, Json)>, app: AppRequest, arch1: Option<string>, arch2: Option<string>)
    requires Lookup(packages, app.0).Some? && !Lookup(packages, app.0).value.Array?
    ensures ResolveApp(packages, app, arch1) == ResolveApp(packages, app, arch2)
  {
  }

  /** Only the array shape aborts, and it does exactly when no version was
      asked for and no release is taken. */
  lemma PanicExactly(packages: seq<(string, Json)>, app: AppRequest, arch: Option<string>)
    ensures ResolveApp(packages, app, arch) == Panic <==>
      && app.1.None?
      && Lookup(packages, app.0).Some? && Lookup(packages, app.0).value.Array?
      && forall i :: 0 <= i < |Lookup(packages, app.0).value.items| ==>
           ArrayRelease(Lookup(packages, app.0).value.items[i], None, arch).None?
  {
  }

  /** Asking for a version in the array shape gives the first release
      that names it (and is built for the architecture asked for). */
  lemma ArrayVersionIsFirstMatch(releases: seq<Json>, version: string, arch: Option<string>, file: string, digest: Bytes)
    requires ArrayResolution(releases, Some(version), arch) == Found(file, digest)
    ensures exists i :: && 0 <= i < |releases|
                        && ArrayRelease(releases[i], Some(version), arch) == Some((file, digest))
                        && GetStr(releases[i], "versionName") == Some(version)
                        && forall j :: 0 <= j < i ==> ArrayRelease(releases[j], Some(version), arch).None?
  {
    var pick := ArrayPick(Some(version), arch);
    assert FirstPick(releases, pick) == Some((file, digest));
    var i :| 0 <= i < |releases| && pick(releases[i]) == Some((file, digest)) && forall j :: 0 <= j < i ==> pick(releases[j]).None?;
    assert ArrayRelease(releases[i], Some(version), arch) == Some((file, digest));
    assert forall j :: 0 <= j < i ==> ArrayRelease(releases[j], Some(version), arch).None?;
  }

  lemma ResolveAllOkPrefix(resolve: AppRequest -> Resolution, apps: seq<AppRequest>)
    requires apps != [] && ResolveAll(resolve, apps).Ok?
    ensures ResolveAll(resolve, apps[..|apps| - 1]).Ok?
    ensures resolve(apps[|apps| - 1]) != Panic
  {
  }

  /** The downloads of two lists of apps are the downloads of each, in
      order, when neither aborts. */
  lemma {:induction false} ResolveAllAppend(resolve: AppRequest -> Resolution, a: seq<AppRequest>, b: seq<AppRequest>)
    requires ResolveAll(resolve, a).Ok? && ResolveAll(resolve, b).Ok?
    ensures ResolveAll(resolve, a + b) == Ok(ResolveAll(resolve, a).value + ResolveAll(resolve, b).value)
    decreases |b|
  {
    if b == [] {
      assert a + b == a;
      assert ResolveAll(resolve, a).value + ResolveAll(resolve, b).value == ResolveAll(resolve, a).value;
    } else {
      var n := |b| - 1;
      assert (a + b)[..|a + b| - 1] == a + b[..n];
      assert (a + b)[|a + b| - 1] == b[n];
      ResolveAllOkPrefix(resolve, b);
      ResolveAllAppend(resolve, a, b[..n]);
      var pa, pb := ResolveAll(resolve, a).value, ResolveAll(resolve, b[..n]).value;
      match resolve(b[n]) {
        case NotFound =>
        case Found(file, digest) =>
          assert pa + (pb + [Download(b[n].0, b[n].1, file, digest)]) == (pa + pb) + [Download(b[n].0, b[n].1, file, digest)];
      }
    }
  }

  /** Every download is for an app asked for and is what the index says
      for it; there are at most as many downloads as apps, and no app
      aborts. */
  lemma {:induction false} DownloadsAreRequested(resolve: AppRequest -> Resolution, apps: seq<AppRequest>)
    requires ResolveAll(resolve, apps).Ok?
    ensures |ResolveAll(resolve, apps).value| <= |apps|
    ensures forall d :: d in ResolveAll(resolve, apps).value ==>
      (d.appId, d.version) in apps && resolve((d.appId, d.version)) == Found(d.fileName, d.hash)
    ensures forall k :: 0 <= k < |apps| ==> resolve(apps[k]) != Panic
    decreases |apps|
  {
    if apps != [] {
      var n := |apps| - 1;
      ResolveAllOkPrefix(resolve, apps);
      DownloadsAreRequested(resolve, apps[..n]);
      assert forall k :: 0 <= k < n ==> apps[..n][k] == apps[k];
      forall d | d in ResolveAll(resolve, apps[..n]).value ensures (d.appId, d.version) in apps {
        var k :| 0 <= k < n && apps[..n][k] == (d.appId, d.version);
        assert apps[k] == (d.appId, d.version);
      }
    }
  }

  /** The converse: every app asked for that the index resolves has its
      download in the result, under its own id and version. */
  lemma {:induction false} RequestedAreDownloaded(resolve: AppRequest -> Resolution, apps: seq<AppRequest>)
    requires ResolveAll(resolve, apps).Ok?
    ensures forall k :: 0 <= k < |apps| && resolve(apps[k]).Found? ==>
      Download(apps[k].0, apps[k].1, resolve(apps[k]).fileName, resolve(apps[k]).hash) in ResolveAll(resolve, apps).value
    decreases |apps|
  {
    if apps != [] {
      var n := |apps| - 1;
      ResolveAllOkPrefix(resolve, apps);
      RequestedAreDownloaded(resolve, apps[..n]);
      var prev := ResolveAll(resolve, apps[..n]).value;
      assert forall k :: 0 <= k < n ==> apps[..n][k] == apps[k];
      assert forall d :: d in prev ==> d in ResolveAll(resolve, apps).value;
    }
  }

  // -------------------------------------------------------------------
  // The versions an app has.

  /** `versionName` of the array-shape releases. */
  function ArrayVersionNames(releases: seq<Json>): set<string> {
    set i | 0 <= i < |releases| && GetStr(releases[i], "versionName").Some? :: GetStr(releases[i], "versionName").value
  }

  /** `manifest.versionName` of an object-shape release. */
  function ManifestVersionName(release: Json): Option<string> {
    match Get(release, "manifest")
    case Some(manifest) => GetStr(manifest, "versionName")
    case None => None
  }

  function ObjectVersionNames(versions: seq<(string, Json)>): set<string> {
    set i | 0 <= i < |versions| && ManifestVersionName(versions[i].1).Some? :: ManifestVersionName(versions[i].1).value
  }

  /** The version names of a package, or `None` for an app that is not
      there (or is neither an array nor an object). */
  function PackageVersionNames(package: Option<Json>): Option<set<string>> {
    match package
    case Some(Array(releases)) => Some(ArrayVersionNames(releases))
    case Some(Object(members)) =>
      (match Get(Object(members), "versions")
       case Some(Object(versions)) => Some(ObjectVersionNames(versions))
       case _ => Some({}))
    case _ => None
  }

  /** The versions listed for an app, or that it could not be found. */
  datatype Listing = Listed(appId: string, versions: seq<string>) | NotListed(appId: string)

  /** A listing of an app shows the names of its package, once each and in
      ascending order. */
  ghost predicate ListsNames(l: Listing, id: string, names: Option<set<string>>) {
    match names
    case None => l == NotListed(id)
    case Some(s) =>
      && l.Listed? && l.appId == id
      && StrictlyAscending(l.versions)
      && forall y :: y in l.versions <==> y in s
  }

  method CollectArrayNames(releases: seq<Json>) returns (s: set<string>)
    ensures s == ArrayVersionNames(releases)
  {
    s := {};
    for i := 0 to |releases|
      invariant s == set k | 0 <= k < i && GetStr(releases[k], "versionName").Some? :: GetStr(releases[k], "versionName").value
    {
      var name := GetStr(releases[i], "versionName");
      if name.Some? {
        s := s + {name.value};
      }
    }
  }

  method CollectObjectNames(versions: seq<(string, Json)>) returns (s: set<string>)
    ensures s == ObjectVersionNames(versions)
  {
    s := {};
    for i := 0 to |versions|
      invariant s == set k | 0 <= k < i && ManifestVersionName(versions[k].1).Some? :: ManifestVersionName(versions[k].1).value
    {
      var name := ManifestVersionName(versions[i].1);
      if name.Some? {
        s := s + {name.value};
      }
    }
  }

  /** `parse_json_display_versions`: for each app, its version names,
      sorted. Only the `packages` object of the index is needed. */
  method DisplayVersions(index: Json, apps: seq<string>) returns (r: Result<seq<Listing>, QueryError>)
    ensures r.Err? <==> !(Get(index, "packages").Some? && Get(index, "packages").value.Object?)
    ensures r.Ok? ==> |r.value| == |apps| && forall k :: 0 <= k < |apps| ==>
      ListsNames(r.value[k], apps[k], PackageVersionNames(Lookup(Get(index, "packages").value.members, apps[k])))
  {
    var packages := Get(index, "packages");
    if !(packages.Some? && packages.value.Object?) {
      return Err(IndexMalformed);
    }
    var members := packages.value.members;
    var listings: seq<Listing> := [];
    for k := 0 to |apps|
      invariant |listings| == k
      invariant forall j :: 0 <= j < k ==> ListsNames(listings[j], apps[j], PackageVersionNames(Lookup(members, apps[j])))
    {
      var id := apps[k];
      var package := Lookup(members, id);
      var names: Option<set<string>> := None;
      match package {
        case Some(Array(releases)) =>
          var s := CollectArrayNames(releases);
          names := Some(s);
        case Some(Object(ms)) =>
          var versions := Get(Object(ms), "versions");
          if versions.Some? && versions.value.Object? {
            var s := CollectObjectNames(versions.value.members);
            names := Some(s);
          } else {
            names := Some({});
          }
        case _ =>
      }
      assert names == PackageVersionNames(package);
      if names.None? {
        listings := listings + [NotListed(id)];
      } else {
        var sorted := SortedFromSet(names.value);
        listings := listings + [Listed(id, sorted)];
      }
    }
    return Ok(listings);
  }

  /** A sorted listing is the only one: two strictly ascending sequences
      with the same elements are equal. */
  lemma {:induction false} AscendingUnique(xs: seq<string>, ys: seq<string>)
    requires StrictlyAscending(xs) && StrictlyAscending(ys)
    requires forall y :: y in xs <==> y in ys
    ensures xs == ys
    decreases |xs|
  {
    assert forall k :: 0 <= k < |xs| ==> xs[k] in ys by {
      forall k | 0 <= k < |xs| ensures xs[k] in ys { assert xs[k] in xs; }
    }
    assert forall k :: 0 <= k < |ys| ==> ys[k] in xs by {
      forall k | 0 <= k < |ys| ensures ys[k] in xs { assert ys[k] in ys; }
    }
    if xs != [] && ys != [] {
      var i :| 0 <= i < |ys| && ys[i] == xs[0];
      var j :| 0 <= j < |xs| && xs[j] == ys[0];
      if i != 0 && j != 0 {
        LessTransitive(xs[0], ys[0], xs[0]);
        LessIrreflexive(xs[0]);
      }
      assert xs[0] == ys[0];
      forall y | y in xs[1..] ensures y in ys[1..] {
        var i :| 1 <= i < |xs| && xs[i] == y;
        assert y in xs;
        assert Less(xs[0], y);
        LessIrreflexive(y);
        var j :| 0 <= j < |ys| && ys[j] == y;
        assert j != 0;
        assert ys[1..][j - 1] == y;
      }
      forall y | y in ys[1..] ensures y in xs[1..] {
        var j :| 1 <= j < |ys| && ys[j] == y;
        assert y in ys;
        assert Less(ys[0], y);
        LessIrreflexive(y);
        var i :| 0 <= i < |xs| && xs[i] == y;
        assert i != 0;
        assert xs[1..][i - 1] == y;
      }
      AscendingUnique(xs[1..], ys[1..]);
      assert xs == [xs[0]] + xs[1..] && ys == [ys[0]] + ys[1..];
    }
  }
}
