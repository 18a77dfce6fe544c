/** `retrieve_index_or_exit`, current and legacy: the ETag-keyed cache of
    the package index in the configuration directory. The stored ETag is
    compared with the one a HEAD request returns (section 8.8.3 of
    RFC 9110); on a match the stored index is used, otherwise the archive
    is downloaded, extracted and verified, and the index and then the ETag
    are stored. Every way the program exits or panics is an error value. */
module Retrieval {
  import opened Wrappers
  import opened Bytes
  import opened Json
  import opened Archive
  import opened Platform
  import opened SignedJar
  import opened IndexVerification
  import opened LegacyIndex
  import opened EntryIndex
  import opened FdroidConfig
  import opened Consts

  datatype Request = Head(url: string) | Get(url: string)

  /** What the network answers: for a HEAD request, `None` when it fails
      and otherwise the ETag header if there is one; for a download, the
      body, `None` when every attempt failed. */
  datatype Remote = Remote(head: string -> Option<Option<Bytes>>, get: string -> Option<Bytes>)

  datatype RetrieveError =
    | BadFingerprint                // the pinned fingerprint is not hex
    | EtagUnreadable                // the stored ETag file is not UTF-8
    | HeadFailed                    // the HEAD request failed (a panic)
    | NoEtag                        // the response has no ETag header
    | EtagNotVisibleAscii           // the ETag is not a visible-ASCII header value (a panic)
    | CachedIndexUnreadable         // the stored index is missing or not UTF-8 (a panic)
    | CachedIndexNotJson            // the stored index does not parse (a panic)
    | JarDownloadFailed
    | JarNotZip
    | NotVerified(error: JarError)
    | EntryFailed(entryError: EntryError)
    | IndexNotJson

  /** The configuration directory's files, by relative path. */
  type Files = map<string, Bytes>

  /** What one call does: its result, the requests it sends in order and
      the files it writes in order. */
  datatype Outcome = Outcome(result: Result<Json, RetrieveError>, requests: seq<Request>, writes: seq<(string, Bytes)>)

  /** What the download-and-verify half produces. */
  datatype Fresh = Fresh(index: Result<Bytes, RetrieveError>, requests: seq<Request>)

  /** Which version's download half is run: the current one for a
      configuration, or the legacy one with its fixed archive. */
  datatype Scheme = Current(cfg: RepoConfig, useEntry: bool, verify: bool) | Legacy

  function Apply(files: Files, writes: seq<(string, Bytes)>): Files
    decreases |writes|
  {
    if writes == [] then files else Apply(files[writes[0].0 := writes[0].1], writes[1..])
  }

  lemma ApplyTwo(files: Files, p1: string, d1: Bytes, p2: string, d2: Bytes)
    ensures Apply(files, [(p1, d1), (p2, d2)]) == files[p1 := d1][p2 := d2]
  {
    var w := [(p1, d1), (p2, d2)];
    assert w[1..] == [(p2, d2)];
    assert w[1..][1..] == [];
    assert Apply(files, w) == Apply(files[p1 := d1], [(p2, d2)]);
    assert Apply(files[p1 := d1], [(p2, d2)]) == Apply(files[p1 := d1][p2 := d2], []);
  }

  /** The stored ETag: none when the file is absent, an error when it
      cannot be read as text. */
  function StoredEtag(files: Files, path: string): (r: Result<Option<Bytes>, RetrieveError>)
    ensures r == Ok(None) <==> path !in files
    ensures r.Err? <==> path in files && !Utf8(files[path])
    ensures r.Ok? && r.value.Some? ==> path in files && r.value.value == files[path]
  {
    if path !in files then Ok(None)
    else if Utf8(files[path]) then Ok(Some(files[path]))
    else Err(EtagUnreadable)
  }

  /** The ETag of the HEAD response, which must be present and readable
      as a string. */
  function HeadEtag(remote: Remote, url: string): (r: Result<Bytes, RetrieveError>)
    ensures r.Ok? <==> remote.head(url).Some? && remote.head(url).value.Some? && IsVisibleAscii(remote.head(url).value.value)
    ensures r.Ok? ==> remote.head(url) == Some(Some(r.value))
  {
    match remote.head(url)
    case None => Err(HeadFailed)
    case Some(None) => Err(NoEtag)
    case Some(Some(etag)) => if IsVisibleAscii(etag) then Ok(etag) else Err(EtagNotVisibleAscii)
  }

  /** The stored index, parsed; no verification. */
  function CachedIndex(prims: Primitives, files: Files, path: string): (r: Result<Json, RetrieveError>)
    ensures r.Ok? <==> path in files && Utf8(files[path]) && prims.parseJson(files[path]).Some?
    ensures r.Ok? ==> prims.parseJson(files[path]) == Some(r.value)
  {
    if path !in files || !Utf8(files[path]) then Err(CachedIndexUnreadable)
    else match prims.parseJson(files[path])
      case None => Err(CachedIndexNotJson)
      case Some(v) => Ok(v)
  }

  /** Download, extraction and verification of the archive, and in the
      entry scheme the second file it names. */
  function FreshIndex(prims: Primitives, remote: Remote, cfg: RepoConfig, useEntry: bool, verify: bool): Fresh {
    var jarUrl := JarUrl(cfg.repo, useEntry);
    match JarJson(prims, remote, cfg, useEntry, verify)
    case Err(e) => Fresh(Err(e), [Get(jarUrl)])
    case Ok(json) =>
      if !useEntry then Fresh(Ok(json), [Get(jarUrl)])
      else
        var second := EntryStage(prims, remote, cfg.repo, json, verify);
        Fresh(second.index, [Get(jarUrl)] + second.requests)
  }

  /** The archive downloaded, extracted and verified: the JSON file it
      holds. */
  function JarJson(prims: Primitives, remote: Remote, cfg: RepoConfig, useEntry: bool, verify: bool): Result<Bytes, RetrieveError> {
    match remote.get(JarUrl(cfg.repo, useEntry))
    case None => Err(JarDownloadFailed)
    case Some(jar) =>
      match prims.unzip(jar)
      case None => Err(JarNotZip)
      case Some(entries) =>
        match VerifiedJson(prims, ExtractedDir(entries), ExtractedNames(entries), cfg.fingerprint, verify, useEntry)
        case Err(e) => Err(NotVerified(e))
        case Ok(json) => Ok(json)
  }

  /** The entry scheme's second step: the file `entry.json` names, with
      the request for it when it names one. */
  function EntryStage(prims: Primitives, remote: Remote, repo: string, entryText: Bytes, verify: bool): Fresh {
    var requests := match EntryRequest(prims, repo, entryText)
      case None => []
      case Some(u) => [Get(u)];
    match IndexFromEntry(prims, repo, entryText, verify, remote.get)
    case Err(e) => Fresh(Err(EntryFailed(e)), requests)
    case Ok(index) => Fresh(Ok(index), requests)
  }

  /** The legacy download: the fixed index archive, always verified. */
  function LegacyFresh(prims: Primitives, remote: Remote): Fresh {
    match remote.get(FdroidIndexUrl)
    case None => Fresh(Err(JarDownloadFailed), [Get(FdroidIndexUrl)])
    case Some(jar) =>
      match prims.unzip(jar)
      case None => Fresh(Err(JarNotZip), [Get(FdroidIndexUrl)])
      case Some(entries) =>
        match LegacyVerifiedIndex(prims, ExtractedDir(entries), ExtractedNames(entries))
        case Err(e) => Fresh(Err(NotVerified(e)), [Get(FdroidIndexUrl)])
        case Ok(index) => Fresh(Ok(index), [Get(FdroidIndexUrl)])
  }

  function FreshFor(prims: Primitives, remote: Remote, scheme: Scheme): Fresh {
    match scheme
    case Current(cfg, useEntry, verify) => FreshIndex(prims, remote, cfg, useEntry, verify)
    case Legacy => LegacyFresh(prims, remote)
  }

  /** A miss: the fresh index is parsed, then stored, then the ETag is
      stored; nothing is stored when any of it fails. */
  function Miss(prims: Primitives, index: Result<Bytes, RetrieveError>, etagPath: string, indexPath: string,
                etag: Bytes): (o: Outcome)
    ensures o.requests == []
    ensures o.result.Err? <==> o.writes == []
  {
    match index
    case Err(e) => Outcome(Err(e), [], [])
    case Ok(text) =>
      match prims.parseJson(text)
      case None => Outcome(Err(IndexNotJson), [], [])
      case Some(v) => Outcome(Ok(v), [], [(indexPath, text), (etagPath, etag)])
  }

  /** The cache decision shared by both versions; the download half is
      run only on a miss. */
  function CacheStep(prims: Primitives, files: Files, remote: Remote, etagPath: string, indexPath: string,
                     url: string, scheme: Scheme): (o: Outcome)
  {
    match StoredEtag(files, etagPath)
    case Err(e) => Outcome(Err(e), [], [])
    case Ok(stored) => AfterHead(prims, files, remote, etagPath, indexPath, url, scheme, stored)
  }

  /** The cache decision once the stored ETag has been read: the HEAD
      request, then a hit or a miss. */
  function AfterHead(prims: Primitives, files: Files, remote: Remote, etagPath: string, indexPath: string,
                     url: string, scheme: Scheme, stored: Option<Bytes>): Outcome
  {
    match HeadEtag(remote, url)
    case Err(e) => Outcome(Err(e), [Head(url)], [])
    case Ok(etag) =>
      if stored == Some(etag) then Outcome(CachedIndex(prims, files, indexPath), [Head(url)], [])
      else
        var m := MissOutcome(prims, remote, scheme, etagPath, indexPath, etag);
        Outcome(m.result, [Head(url)] + m.requests, m.writes)
  }

  /** A miss after the HEAD request: the download half, then `Miss`. */
  function MissOutcome(prims: Primitives, remote: Remote, scheme: Scheme, etagPath: string, indexPath: string,
                       etag: Bytes): Outcome
  {
    var fetched := FreshFor(prims, remote, scheme);
    var m := Miss(prims, fetched.index, etagPath, indexPath, etag);
    Outcome(m.result, fetched.requests, m.writes)
  }

  /** The cache files the current version uses for a configuration. */
  function EtagPath(cfg: RepoConfig, prims: Primitives, useEntry: bool): string {
    CacheDir(cfg, prims.stringHash) + EtagFileName(useEntry)
  }

  function IndexPath(cfg: RepoConfig, prims: Primitives, useEntry: bool): string {
    CacheDir(cfg, prims.stringHash) + IndexFileName(useEntry)
  }

  /** `retrieve_index_or_exit` of the current version. */
  function Retrieve(options: Options, defaultRepo: string, prims: Primitives, remote: Remote, files: Files): (o: Outcome)
    ensures RepoConfigOf(options, defaultRepo).Err? ==> o == Outcome(Err(BadFingerprint), [], [])
    ensures o.result.Err? ==> o.writes == []
  {
    match RepoConfigOf(options, defaultRepo)
    case Err(_) => Outcome(Err(BadFingerprint), [], [])
    case Ok(cfg) =>
      var useEntry := UseEntry(options);
      CacheStep(prims, files, remote, EtagPath(cfg, prims, useEntry), IndexPath(cfg, prims, useEntry),
                JarUrl(cfg.repo, useEntry), Current(cfg, useEntry, VerifyIndex(options)))
  }

  /** `retrieve_index_or_exit` of the legacy version. */
  function LegacyRetrieve(prims: Primitives, remote: Remote, files: Files): (o: Outcome)
    ensures o.result.Err? ==> o.writes == []
  {
    CacheStep(prims, files, remote, "latest_etag", "index_v1.json", FdroidIndexUrl, Legacy)
  }

  // ---------------------------------------------------------------------
  // What the cache promises.

  /** A stored ETag equal to the one the server reports is a hit: one HEAD
      request, nothing downloaded or verified, nothing written, and the
      stored index returned. */
  lemma CacheHit(prims: Primitives, files: Files, remote: Remote, etagPath: string, indexPath: string,
                 url: string, scheme: Scheme, etag: Bytes)
    requires etagPath in files && files[etagPath] == etag
    requires remote.head(url) == Some(Some(etag)) && IsVisibleAscii(etag)
    ensures CacheStep(prims, files, remote, etagPath, indexPath, url, scheme) ==
            Outcome(CachedIndex(prims, files, indexPath), [Head(url)], [])
  {
    VisibleAsciiIsUtf8(etag);
  }

  /** Files are written only on a miss whose download, verification and
      JSON decoding all succeeded: first the index, then the server's ETag. */
  lemma StoredOnlyAfterSuccess(prims: Primitives, files: Files, remote: Remote, etagPath: string, indexPath: string,
                               url: string, scheme: Scheme)
    ensures var o := CacheStep(prims, files, remote, etagPath, indexPath, url, scheme);
      var fetched := FreshFor(prims, remote, scheme);
      o.writes != [] ==>
        && o.result.Ok?
        && HeadEtag(remote, url).Ok?
        && StoredEtag(files, etagPath) != Ok(Some(HeadEtag(remote, url).value))
        && fetched.index.Ok?
        && prims.parseJson(fetched.index.value) == Some(o.result.value)
        && o.writes == [(indexPath, fetched.index.value), (etagPath, HeadEtag(remote, url).value)]
  {
  }

  /** Requests: nothing is sent when the stored ETag cannot be read; the
      HEAD request comes first; anything after it belongs to a miss. */
  lemma RequestOrder(prims: Primitives, files: Files, remote: Remote, etagPath: string, indexPath: string,
                     url: string, scheme: Scheme)
    ensures var o := CacheStep(prims, files, remote, etagPath, indexPath, url, scheme);
      && (o.requests == [] <==> StoredEtag(files, etagPath).Err?)
      && (o.requests != [] ==> o.requests[0] == Head(url))
      && (|o.requests| > 1 ==>
            && HeadEtag(remote, url).Ok?
            && StoredEtag(files, etagPath) != Ok(Some(HeadEtag(remote, url).value))
            && o.requests == [Head(url)] + FreshFor(prims, remote, scheme).requests)
  {
  }

  lemma FreshIndexUtf8(prims: Primitives, remote: Remote, cfg: RepoConfig, useEntry: bool, verify: bool)
    requires FreshIndex(prims, remote, cfg, useEntry, verify).index.Ok?
    ensures Utf8(FreshIndex(prims, remote, cfg, useEntry, verify).index.value)
  {
    var jar := remote.get(JarUrl(cfg.repo, useEntry)).value;
    var entries := prims.unzip(jar).value;
    var dir, names := ExtractedDir(entries), ExtractedNames(entries);
    var json := VerifiedJson(prims, dir, names, cfg.fingerprint, verify, useEntry);
    if useEntry {
      IndexFromEntryUtf8(prims, cfg.repo, json.value, verify, remote.get);
    } else {
      VerifiedJsonUtf8(prims, dir, names, cfg.fingerprint, verify, useEntry);
    }
  }

  lemma LegacyFreshUtf8(prims: Primitives, remote: Remote)
    requires LegacyFresh(prims, remote).index.Ok?
    ensures Utf8(LegacyFresh(prims, remote).index.value)
  {
    var jar := remote.get(FdroidIndexUrl).value;
    var entries := prims.unzip(jar).value;
    var dir, names := ExtractedDir(entries), ExtractedNames(entries);
    LegacyVerifiedIndexCharacterized(prims, dir, names, LegacyVerifiedIndex(prims, dir, names).value);
  }

  /** Whatever the download half returns is UTF-8. */
  lemma FreshIsUtf8(prims: Primitives, remote: Remote, scheme: Scheme)
    requires FreshFor(prims, remote, scheme).index.Ok?
    ensures Utf8(FreshFor(prims, remote, scheme).index.value)
  {
    match scheme
    case Legacy => LegacyFreshUtf8(prims, remote);
    case Current(cfg, useEntry, verify) => FreshIndexUtf8(prims, remote, cfg, useEntry, verify);
  }

  /** After a call that stored a fresh index, the next call against the
      same server state is a hit with the same value, whatever scheme it
      would have downloaded with. */
  lemma SecondCallHits(prims: Primitives, files: Files, remote: Remote, etagPath: string, indexPath: string,
                       url: string, scheme: Scheme, scheme2: Scheme)
    requires etagPath != indexPath
    requires CacheStep(prims, files, remote, etagPath, indexPath, url, scheme).writes != []
    ensures var o := CacheStep(prims, files, remote, etagPath, indexPath, url, scheme);
      CacheStep(prims, Apply(files, o.writes), remote, etagPath, indexPath, url, scheme2) ==
      Outcome(o.result, [Head(url)], [])
  {
    var o := CacheStep(prims, files, remote, etagPath, indexPath, url, scheme);
    StoredOnlyAfterSuccess(prims, files, remote, etagPath, indexPath, url, scheme);
    var text := FreshFor(prims, remote, scheme).index.value;
    var etag := HeadEtag(remote, url).value;
    FreshIsUtf8(prims, remote, scheme);
    ApplyTwo(files, indexPath, text, etagPath, etag);
    var after := Apply(files, o.writes);
    assert after[etagPath] == etag && after[indexPath] == text;
    CacheHit(prims, after, remote, etagPath, indexPath, url, scheme2, etag);
  }

  /** The current version: a hit returns the stored index of the
      configuration's cache directory after one HEAD request. */
  lemma RetrieveHit(options: Options, defaultRepo: string, prims: Primitives, remote: Remote, files: Files,
                    cfg: RepoConfig, etag: Bytes)
    requires RepoConfigOf(options, defaultRepo) == Ok(cfg)
    requires EtagPath(cfg, prims, UseEntry(options)) in files && files[EtagPath(cfg, prims, UseEntry(options))] == etag
    requires remote.head(JarUrl(cfg.repo, UseEntry(options))) == Some(Some(etag)) && IsVisibleAscii(etag)
    ensures Retrieve(options, defaultRepo, prims, remote, files) ==
      Outcome(CachedIndex(prims, files, IndexPath(cfg, prims, UseEntry(options))), [Head(JarUrl(cfg.repo, UseEntry(options)))], [])
  {
    var u := UseEntry(options);
    CacheHit(prims, files, remote, EtagPath(cfg, prims, u), IndexPath(cfg, prims, u), JarUrl(cfg.repo, u),
             Current(cfg, u, VerifyIndex(options)), etag);
  }

  /** The current version, called twice: the second call is a hit. */
  lemma RetrieveTwice(options: Options, defaultRepo: string, prims: Primitives, remote: Remote, files: Files)
    requires Retrieve(options, defaultRepo, prims, remote, files).writes != []
    ensures var o := Retrieve(options, defaultRepo, prims, remote, files);
      && RepoConfigOf(options, defaultRepo).Ok?
      && Retrieve(options, defaultRepo, prims, remote, Apply(files, o.writes)) ==
         Outcome(o.result, [Head(JarUrl(RepoConfigOf(options, defaultRepo).value.repo, UseEntry(options)))], [])
  {
    var cfg := RepoConfigOf(options, defaultRepo).value;
    var u := UseEntry(options);
    var scheme := Current(cfg, u, VerifyIndex(options));
    CacheFilesDistinct(CacheDir(cfg, prims.stringHash), u, u);
    SecondCallHits(prims, files, remote, EtagPath(cfg, prims, u), IndexPath(cfg, prims, u), JarUrl(cfg.repo, u), scheme, scheme);
  }

  /** The legacy version, called twice: the second call is a hit. */
  lemma LegacyRetrieveTwice(prims: Primitives, remote: Remote, files: Files)
    requires LegacyRetrieve(prims, remote, files).writes != []
    ensures var o := LegacyRetrieve(prims, remote, files);
      LegacyRetrieve(prims, remote, Apply(files, o.writes)) == Outcome(o.result, [Head(FdroidIndexUrl)], [])
  {
    SecondCallHits(prims, files, remote, "latest_etag", "index_v1.json", FdroidIndexUrl, Legacy, Legacy);
  }

  // ---------------------------------------------------------------------
  // The program's state: the configuration directory and the requests
  // sent so far.

  class Host {
    var files: Files
    var requests: seq<Request>
    const remote: Remote

    constructor(files0: Files, remote0: Remote)
      ensures files == files0 && requests == [] && remote == remote0
    {
      files := files0;
      requests := [];
      remote := remote0;
    }

    method ReadFile(path: string) returns (r: Option<Bytes>)
      ensures r.None? <==> path !in files
      ensures r.Some? ==> r.value == files[path]
    {
      r := if path in files then Some(files[path]) else None;
    }

    method SendHead(url: string) returns (r: Option<Option<Bytes>>)
      modifies this
      ensures r == remote.head(url)
      ensures requests == old(requests) + [Head(url)] && files == old(files)
    {
      requests := requests + [Head(url)];
      r := remote.head(url);
    }

    method Download(url: string) returns (r: Option<Bytes>)
      modifies this
      ensures r == remote.get(url)
      ensures requests == old(requests) + [Get(url)] && files == old(files)
    {
      requests := requests + [Get(url)];
      r := remote.get(url);
    }

    method Write(path: string, data: Bytes)
      modifies this
      ensures files == old(files)[path := data] && requests == old(requests)
    {
      files := files[path := data];
    }
  }

  /** The second file of the entry scheme, fetched through the host. */
  method FetchIndexFromEntry(host: Host, prims: Primitives, repo: string, entryText: Bytes, verify: bool)
    returns (r: Result<Bytes, EntryError>)
    modifies host
    ensures r == IndexFromEntry(prims, repo, entryText, verify, host.remote.get)
    ensures host.files == old(host.files)
    ensures host.requests == old(host.requests) +
      match EntryRequest(prims, repo, entryText) case None => [] case Some(u) => [Get(u)]
  {
    var entry := prims.parseJson(entryText);
    if entry.None? {
      return Err(EntryNotJson);
    }
    var fields := EntryFields(entry.value);
    if fields.None? {
      return Err(EntryMalformed);
    }
    var (name, sha256) := fields.value;
    var data := host.Download(IndexUrl(repo, name));
    if data.None? {
      return Err(IndexDownloadFailed);
    }
    if verify {
      var recorded := Hex.Decode(sha256);
      if recorded.None? {
        return Err(IndexHashNotHex);
      }
      if recorded.value != prims.sha256(data.value) {
        return Err(IndexHashMismatch);
      }
    }
    if !Utf8(data.value) {
      return Err(IndexNotUtf8);
    }
    return Ok(data.value);
  }

  /** `download_and_extract_to_tempdir`, `verify_and_return_json` and, in
      the entry scheme, `verify_and_return_index_from_entry`. */
  method FetchFreshIndex(host: Host, prims: Primitives, cfg: RepoConfig, useEntry: bool, verify: bool)
    returns (r: Result<Bytes, RetrieveError>)
    modifies host
    ensures r == FreshIndex(prims, host.remote, cfg, useEntry, verify).index
    ensures host.requests == old(host.requests) + FreshIndex(prims, host.remote, cfg, useEntry, verify).requests
    ensures host.files == old(host.files)
  {
    if useEntry {
      r := FetchEntryScheme(host, prims, cfg, verify);
    } else {
      r := FetchJarJson(host, prims, cfg, false, verify);
    }
  }

  /** The entry scheme: the archive, then the file its `entry.json` names. */
  method FetchEntryScheme(host: Host, prims: Primitives, cfg: RepoConfig, verify: bool)
    returns (r: Result<Bytes, RetrieveError>)
    modifies host
    ensures r == FreshIndex(prims, host.remote, cfg, true, verify).index
    ensures host.requests == old(host.requests) + FreshIndex(prims, host.remote, cfg, true, verify).requests
    ensures host.files == old(host.files)
  {
    var json := FetchJarJson(host, prims, cfg, true, verify);
    if json.Err? {
      return json;
    }
    r := FetchEntryStage(host, prims, cfg.repo, json.value, verify);
    RequestsAssoc(old(host.requests), [Get(JarUrl(cfg.repo, true))], EntryStage(prims, host.remote, cfg.repo, json.value, verify).requests);
  }

  lemma RequestsAssoc(a: seq<Request>, b: seq<Request>, c: seq<Request>)
    ensures (a + b) + c == a + (b + c)
  {
  }

  /** `download_and_extract_to_tempdir` and `verify_and_return_json`. */
  method FetchJarJson(host: Host, prims: Primitives, cfg: RepoConfig, useEntry: bool, verify: bool)
    returns (r: Result<Bytes, RetrieveError>)
    modifies host
    ensures r == JarJson(prims, host.remote, cfg, useEntry, verify)
    ensures host.requests == old(host.requests) + [Get(JarUrl(cfg.repo, useEntry))] && host.files == old(host.files)
  {
    var jar := host.Download(JarUrl(cfg.repo, useEntry));
    if jar.None? {
      return Err(JarDownloadFailed);
    }
    var entries := prims.unzip(jar.value);
    if entries.None? {
      return Err(JarNotZip);
    }
    var names, dir := Extract(entries.value);
    var json := VerifyAndReturnJson(prims, dir, names, cfg.fingerprint, verify, useEntry);
    if json.Err? {
      return Err(NotVerified(json.error));
    }
    return Ok(json.value);
  }

  method FetchEntryStage(host: Host, prims: Primitives, repo: string, entryText: Bytes, verify: bool)
    returns (r: Result<Bytes, RetrieveError>)
    modifies host
    ensures r == EntryStage(prims, host.remote, repo, entryText, verify).index
    ensures host.requests == old(host.requests) + EntryStage(prims, host.remote, repo, entryText, verify).requests
    ensures host.files == old(host.files)
  {
    var index := FetchIndexFromEntry(host, prims, repo, entryText, verify);
    if index.Err? {
      return Err(EntryFailed(index.error));
    }
    return Ok(index.value);
  }

  method RetrieveIndexOrExit(host: Host, options: Options, defaultRepo: string, prims: Primitives)
    returns (r: Result<Json, RetrieveError>)
    modifies host
    ensures r == Retrieve(options, defaultRepo, prims, host.remote, old(host.files)).result
    ensures host.requests == old(host.requests) + Retrieve(options, defaultRepo, prims, host.remote, old(host.files)).requests
    ensures host.files == Apply(old(host.files), Retrieve(options, defaultRepo, prims, host.remote, old(host.files)).writes)
  {
    var useEntry := UseEntry(options);
    var parsed := ParseRepoOption(options, defaultRepo);
    if parsed.Err? {
      return Err(BadFingerprint);
    }
    var cfg := parsed.value;
    var etagFile := EtagPath(cfg, prims, useEntry);
    var indexFile := IndexPath(cfg, prims, useEntry);
    var jarUrl := JarUrl(cfg.repo, useEntry);
    r := CachedOrFresh(host, prims, etagFile, indexFile, jarUrl, Current(cfg, useEntry, VerifyIndex(options)));
  }

  method LegacyRetrieveIndexOrExit(host: Host, prims: Primitives) returns (r: Result<Json, RetrieveError>)
    modifies host
    ensures r == LegacyRetrieve(prims, host.remote, old(host.files)).result
    ensures host.requests == old(host.requests) + LegacyRetrieve(prims, host.remote, old(host.files)).requests
    ensures host.files == Apply(old(host.files), LegacyRetrieve(prims, host.remote, old(host.files)).writes)
  {
    r := CachedOrFresh(host, prims, "latest_etag", "index_v1.json", FdroidIndexUrl, Legacy);
  }

  /** The legacy download through the host. */
  method FetchLegacyIndex(host: Host, prims: Primitives) returns (r: Result<Bytes, RetrieveError>)
    modifies host
    ensures r == LegacyFresh(prims, host.remote).index
    ensures host.requests == old(host.requests) + LegacyFresh(prims, host.remote).requests
    ensures host.files == old(host.files)
  {
    var jar := host.Download(FdroidIndexUrl);
    if jar.None? {
      return Err(JarDownloadFailed);
    }
    var entries := prims.unzip(jar.value);
    if entries.None? {
      return Err(JarNotZip);
    }
    var names, dir := Extract(entries.value);
    var index := VerifyAndReturnIndex(prims, dir, names);
    if index.Err? {
      return Err(NotVerified(index.error));
    }
    return Ok(index.value);
  }

  /** The steps after configuration, in the program's order: read the
      stored ETag, send the HEAD request, then use the stored index or
      download, verify, parse and store a fresh one. */
  method CachedOrFresh(host: Host, prims: Primitives, etagFile: string, indexFile: string, url: string,
                       scheme: Scheme)
    returns (r: Result<Json, RetrieveError>)
    modifies host
    ensures r == CacheStep(prims, old(host.files), host.remote, etagFile, indexFile, url, scheme).result
    ensures host.requests == old(host.requests) + CacheStep(prims, old(host.files), host.remote, etagFile, indexFile, url, scheme).requests
    ensures host.files == Apply(old(host.files), CacheStep(prims, old(host.files), host.remote, etagFile, indexFile, url, scheme).writes)
  {
    var latestEtag := host.ReadFile(etagFile);
    if latestEtag.Some? && !Utf8(latestEtag.value) {
      return Err(EtagUnreadable);
    }
    r := HeadAndIndex(host, prims, etagFile, indexFile, url, scheme, latestEtag);
  }

  method HeadAndIndex(host: Host, prims: Primitives, etagFile: string, indexFile: string, url: string,
                      scheme: Scheme, latestEtag: Option<Bytes>)
    returns (r: Result<Json, RetrieveError>)
    modifies host
    ensures r == AfterHead(prims, old(host.files), host.remote, etagFile, indexFile, url, scheme, latestEtag).result
    ensures host.requests == old(host.requests) + AfterHead(prims, old(host.files), host.remote, etagFile, indexFile, url, scheme, latestEtag).requests
    ensures host.files == Apply(old(host.files), AfterHead(prims, old(host.files), host.remote, etagFile, indexFile, url, scheme, latestEtag).writes)
  {
    ghost var o := AfterHead(prims, host.files, host.remote, etagFile, indexFile, url, scheme, latestEtag);
    var etag := ReadHeadEtag(host, url);
    if etag.Err? {
      assert o == Outcome(Err(etag.error), [Head(url)], []);
      r := Err(etag.error);
    } else if latestEtag == Some(etag.value) {
      assert o == Outcome(CachedIndex(prims, host.files, indexFile), [Head(url)], []);
      r := ReadCachedIndex(host, prims, indexFile);
    } else {
      ghost var m := MissOutcome(prims, host.remote, scheme, etagFile, indexFile, etag.value);
      assert o == Outcome(m.result, [Head(url)] + m.requests, m.writes);
      r := Refresh(host, prims, scheme, etagFile, indexFile, etag.value);
      RequestsAssoc(old(host.requests), [Head(url)], m.requests);
    }
  }

  /** A miss: the download half, then parsing and storing. */
  method Refresh(host: Host, prims: Primitives, scheme: Scheme, etagFile: string, indexFile: string, etag: Bytes)
    returns (r: Result<Json, RetrieveError>)
    modifies host
    ensures r == MissOutcome(prims, host.remote, scheme, etagFile, indexFile, etag).result
    ensures host.requests == old(host.requests) + MissOutcome(prims, host.remote, scheme, etagFile, indexFile, etag).requests
    ensures host.files == Apply(old(host.files), MissOutcome(prims, host.remote, scheme, etagFile, indexFile, etag).writes)
  {
    var index := FetchFor(host, prims, scheme);
    r := Store(host, prims, index, etagFile, indexFile, etag);
  }

  /** The HEAD request and the checks on its ETag header. */
  method ReadHeadEtag(host: Host, url: string) returns (r: Result<Bytes, RetrieveError>)
    modifies host
    ensures r == HeadEtag(host.remote, url)
    ensures host.requests == old(host.requests) + [Head(url)] && host.files == old(host.files)
  {
    var response := host.SendHead(url);
    if response.None? {
      return Err(HeadFailed);
    }
    if response.value.None? {
      return Err(NoEtag);
    }
    var etag := response.value.value;
    if !IsVisibleAscii(etag) {
      return Err(EtagNotVisibleAscii);
    }
    return Ok(etag);
  }

  /** The stored index, read and parsed on a hit. */
  method ReadCachedIndex(host: Host, prims: Primitives, indexFile: string) returns (r: Result<Json, RetrieveError>)
    ensures r == CachedIndex(prims, host.files, indexFile)
  {
    var cached := host.ReadFile(indexFile);
    if cached.None? || !Utf8(cached.value) {
      return Err(CachedIndexUnreadable);
    }
    var value := prims.parseJson(cached.value);
    if value.None? {
      return Err(CachedIndexNotJson);
    }
    return Ok(value.value);
  }

  /** The download half of either version. */
  method FetchFor(host: Host, prims: Primitives, scheme: Scheme) returns (index: Result<Bytes, RetrieveError>)
    modifies host
    ensures index == FreshFor(prims, host.remote, scheme).index
    ensures host.requests == old(host.requests) + FreshFor(prims, host.remote, scheme).requests
    ensures host.files == old(host.files)
  {
    match scheme {
      case Current(cfg, useEntry, verify) =>
        index := FetchFreshIndex(host, prims, cfg, useEntry, verify);
      case Legacy =>
        index := FetchLegacyIndex(host, prims);
    }
  }

  /** Parsing and storing a fresh index: the index file first, then the
      ETag file. */
  method Store(host: Host, prims: Primitives, index: Result<Bytes, RetrieveError>, etagFile: string, indexFile: string,
               etag: Bytes) returns (r: Result<Json, RetrieveError>)
    modifies host
    ensures r == Miss(prims, index, etagFile, indexFile, etag).result
    ensures host.files == Apply(old(host.files), Miss(prims, index, etagFile, indexFile, etag).writes)
    ensures host.requests == old(host.requests)
  {
    if index.Err? {
      return Err(index.error);
    }
    var value := prims.parseJson(index.value);
    if value.None? {
      return Err(IndexNotJson);
    }
    ApplyTwo(host.files, indexFile, index.value, etagFile, etag);
    host.Write(indexFile, index.value);
    host.Write(etagFile, etag);
    return Ok(value.value);
  }
}
