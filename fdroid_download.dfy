/** Downloading the apps the index resolved: each file is fetched from the
    repository, saved under its app string, and its SHA-256 compared with
    the one the signed index records. A mismatch is reported and the file
    is kept. */
module FdroidDownload {
  import opened Wrappers
  import opened Bytes
  import opened EntryIndex
  import opened PackageQuery
  import opened AppNaming

  datatype Report = Matched | Mismatched

  /** A saved file: its name in the output directory, its bytes and what
      the digest comparison said. */
  datatype Saved = Saved(fileName: string, data: Bytes, report: Report)

  /** One app. `fetch` is the whole download, retries included: `None`
      when it ended without a file (the file existed, permission was
      refused, or every attempt failed). The repository URL and the file
      name are joined with one '/', as for the entry's index file. */
  function DownloadApp(repo: string, d: Download, arch: Option<string>,
                       fetch: string -> Option<Bytes>, sha256: Bytes -> Bytes): (r: Option<Saved>)
    ensures r.Some? <==> fetch(IndexUrl(repo, d.fileName)).Some?
    ensures r.Some? ==> && r.value.fileName == ApkName(AppString(d.appId, d.version, arch))
                        && r.value.data == fetch(IndexUrl(repo, d.fileName)).value
                        && (r.value.report == Matched <==> sha256(r.value.data) == d.hash)
  {
    match fetch(IndexUrl(repo, d.fileName))
    case None => None
    case Some(data) =>
      Some(Saved(ApkName(AppString(d.appId, d.version, arch)), data,
                 if sha256(data) == d.hash then Matched else Mismatched))
  }

  /** All the apps, in the order resolved. */
  function DownloadApps(repo: string, ds: seq<Download>, arch: Option<string>,
                        fetch: string -> Option<Bytes>, sha256: Bytes -> Bytes): (rs: seq<Option<Saved>>)
    ensures |rs| == |ds|
    ensures forall k :: 0 <= k < |ds| ==> rs[k] == DownloadApp(repo, ds[k], arch, fetch, sha256)
  {
    seq(|ds|, k requires 0 <= k < |ds| => DownloadApp(repo, ds[k], arch, fetch, sha256))
  }

  /** A mismatch neither removes the file nor stops the other apps: what
      happens to one app does not depend on the others. This holds only
      because output paths are not modelled: two apps that get the same
      file name (see `AppNaming.VersionAndArchCollide`) make the second
      download fail on the existing file. */
  lemma DownloadsIndependent(repo: string, ds1: seq<Download>, ds2: seq<Download>, arch: Option<string>,
                             fetch: string -> Option<Bytes>, sha256: Bytes -> Bytes)
    ensures DownloadApps(repo, ds1 + ds2, arch, fetch, sha256) ==
            DownloadApps(repo, ds1, arch, fetch, sha256) + DownloadApps(repo, ds2, arch, fetch, sha256)
  {
    var all := DownloadApps(repo, ds1 + ds2, arch, fetch, sha256);
    var parts := DownloadApps(repo, ds1, arch, fetch, sha256) + DownloadApps(repo, ds2, arch, fetch, sha256);
    assert |all| == |parts|;
    forall k | 0 <= k < |all| ensures all[k] == parts[k] {
      if k < |ds1| {
        assert (ds1 + ds2)[k] == ds1[k];
      } else {
        assert (ds1 + ds2)[k] == ds2[k - |ds1|];
      }
    }
  }

  /** The download an object-shape package gives when no release has a
      version code: the repository root is fetched, and with SHA-256
      digests of 32 bytes the empty recorded digest never matches. */
  lemma EmptyNameFetchesRoot(repo: string, appId: string, arch: Option<string>,
                             fetch: string -> Option<Bytes>, sha256: Bytes -> Bytes)
    requires forall b: Bytes :: |sha256(b)| == 32
    requires fetch(repo + "/").Some?
    ensures DownloadApp(repo, Download(appId, None, "", []), arch, fetch, sha256) ==
            Some(Saved(ApkName(AppString(appId, None, arch)), fetch(repo + "/").value, Mismatched))
  {
    assert IndexUrl(repo, "") == repo + "/";
    var data := fetch(repo + "/").value;
    assert |sha256(data)| == 32;
  }
}
