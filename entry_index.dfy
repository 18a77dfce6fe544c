/** The two-level index scheme: the signed `entry.json` names the real
    index file and its SHA-256; that file is fetched from the repository
    and, with verification on, checked against the digest. */
module EntryIndex {
  import opened Wrappers
  import opened Bytes
  import opened Text
  import opened Hex
  import opened Json
  import opened Platform

  datatype EntryError =
    | EntryNotJson          // the entry text does not parse (the program exits)
    | EntryMalformed        // no object, no `index`, or no string `name`/`sha256`
    | IndexDownloadFailed   // the second file could not be downloaded (the program exits)
    | IndexHashNotHex       // `index.sha256` is not hex (the program exits)
    | IndexHashMismatch     // the second file's SHA-256 differs from `index.sha256`
    | IndexNotUtf8          // the second file is not UTF-8

  /** The file name, every leading '/' removed, and the recorded digest. */
  function EntryFields(entry: Json): (r: Option<(string, string)>)
    ensures r.Some? ==> r.value.0 == [] || r.value.0[0] != '/'
    ensures r.Some? ==> Get(entry, "index").Some?
    ensures r.None? <==>
      || Get(entry, "index").None?
      || GetStr(Get(entry, "index").value, "name").None?
      || GetStr(Get(entry, "index").value, "sha256").None?
  {
    match Get(entry, "index")
    case None => None
    case Some(index) =>
      match (GetStr(index, "name"), GetStr(index, "sha256"))
      case (Some(name), Some(sha256)) => Some((TrimStartMatches(name, '/'), sha256))
      case _ => None
  }

  /** Where the second file is fetched from. */
  function IndexUrl(repo: string, name: string): (u: string)
    ensures |u| == |repo| + 1 + |name| && u[..|repo|] == repo && u[|repo|] == '/' && u[|repo| + 1..] == name
  {
    repo + "/" + name
  }

  /** The URL the entry text sends the program to, when it names one. */
  function EntryRequest(prims: Primitives, repo: string, entryText: Bytes): Option<string> {
    match prims.parseJson(entryText)
    case None => None
    case Some(entry) =>
      match EntryFields(entry)
      case None => None
      case Some((name, _)) => Some(IndexUrl(repo, name))
  }

  /** `verify_and_return_index_from_entry`: the text of the second file.
      The digest is looked at only after the download. */
  function IndexFromEntry(prims: Primitives, repo: string, entryText: Bytes, verify: bool,
                          fetch: string -> Option<Bytes>): Result<Bytes, EntryError>
  {
    match prims.parseJson(entryText)
    case None => Err(EntryNotJson)
    case Some(entry) =>
      match EntryFields(entry)
      case None => Err(EntryMalformed)
      case Some((name, sha256)) =>
        match fetch(IndexUrl(repo, name))
        case None => Err(IndexDownloadFailed)
        case Some(data) => CheckFetched(prims, sha256, verify, data)
  }

  /** The checks on the downloaded second file: with verification on, the
      recorded digest must be hex and spell the file's SHA-256; the file
      must be UTF-8. */
  function CheckFetched(prims: Primitives, sha256: string, verify: bool, data: Bytes): Result<Bytes, EntryError> {
    if verify && Decode(sha256).None? then Err(IndexHashNotHex)
    else if verify && Decode(sha256).value != prims.sha256(data) then Err(IndexHashMismatch)
    else if !Utf8(data) then Err(IndexNotUtf8)
    else Ok(data)
  }

  lemma CheckFetchedOk(prims: Primitives, sha256: string, verify: bool, data: Bytes, result: Bytes)
    ensures CheckFetched(prims, sha256, verify, data) == Ok(result) <==>
      result == data && Utf8(data) && (verify ==> IsHex(sha256) && DecodesTo(sha256, prims.sha256(data)))
  {
    if IsHex(sha256) && DecodesTo(sha256, prims.sha256(data)) {
      DecodeUnique(sha256, Decode(sha256).value, prims.sha256(data));
    }
  }

  /** The second file is acceptable: it was named by the entry, fetched,
      is UTF-8 and, with verification on, is what the recorded hex digest
      spells. */
  predicate IndexAccepted(prims: Primitives, repo: string, entryText: Bytes, verify: bool,
                          fetch: string -> Option<Bytes>, data: Bytes) {
    && prims.parseJson(entryText).Some?
    && var fields := EntryFields(prims.parseJson(entryText).value);
    && fields.Some?
    && fetch(IndexUrl(repo, fields.value.0)) == Some(data)
    && Utf8(data)
    && (verify ==> IsHex(fields.value.1) && DecodesTo(fields.value.1, prims.sha256(data)))
  }

  lemma IndexFromEntryOk(prims: Primitives, repo: string, entryText: Bytes, verify: bool,
                         fetch: string -> Option<Bytes>, data: Bytes)
    ensures IndexFromEntry(prims, repo, entryText, verify, fetch) == Ok(data) <==>
      IndexAccepted(prims, repo, entryText, verify, fetch, data)
  {
    if prims.parseJson(entryText).Some? && EntryFields(prims.parseJson(entryText).value).Some? {
      var (name, sha256) := EntryFields(prims.parseJson(entryText).value).value;
      var fetched := fetch(IndexUrl(repo, name));
      if fetched.Some? {
        CheckFetchedOk(prims, sha256, verify, fetched.value, data);
      }
    }
  }

  /** Whatever is returned is UTF-8. */
  lemma IndexFromEntryUtf8(prims: Primitives, repo: string, entryText: Bytes, verify: bool,
                           fetch: string -> Option<Bytes>)
    requires IndexFromEntry(prims, repo, entryText, verify, fetch).Ok?
    ensures Utf8(IndexFromEntry(prims, repo, entryText, verify, fetch).value)
  {
    IndexFromEntryOk(prims, repo, entryText, verify, fetch, IndexFromEntry(prims, repo, entryText, verify, fetch).value);
  }

  /** The second file is fetched from the URL the entry names, and a bad
      digest is reported only for a file that was downloaded. */
  lemma DownloadBeforeDigest(prims: Primitives, repo: string, entryText: Bytes, verify: bool,
                             fetch: string -> Option<Bytes>)
    requires EntryRequest(prims, repo, entryText).Some?
    ensures fetch(EntryRequest(prims, repo, entryText).value).None? ==>
      IndexFromEntry(prims, repo, entryText, verify, fetch) == Err(IndexDownloadFailed)
    ensures IndexFromEntry(prims, repo, entryText, verify, fetch) == Err(IndexHashNotHex) ==>
      verify && fetch(EntryRequest(prims, repo, entryText).value).Some?
  {
    var (name, sha256) := EntryFields(prims.parseJson(entryText).value).value;
    assert EntryRequest(prims, repo, entryText) == Some(IndexUrl(repo, name));
    var fetched := fetch(IndexUrl(repo, name));
    if fetched.Some? {
      assert IndexFromEntry(prims, repo, entryText, verify, fetch) == CheckFetched(prims, sha256, verify, fetched.value);
    }
  }

  /** With verification off the recorded digest is never looked at. */
  lemma UnverifiedIgnoresDigest(prims: Primitives, repo: string, entryText: Bytes,
                                fetch: string -> Option<Bytes>, data: Bytes)
    ensures IndexFromEntry(prims, repo, entryText, false, fetch) == Ok(data) <==>
      && prims.parseJson(entryText).Some?
      && EntryFields(prims.parseJson(entryText).value).Some?
      && fetch(IndexUrl(repo, EntryFields(prims.parseJson(entryText).value).value.0)) == Some(data)
      && Utf8(data)
  {
    IndexFromEntryOk(prims, repo, entryText, false, fetch, data);
  }

  function Slashes(k: nat): (s: string)
    ensures |s| == k && forall i :: 0 <= i < k ==> s[i] == '/'
  {
    seq(k, i => '/')
  }

  /** However many slashes the recorded name starts with, exactly one
      separates it from the repository URL. */
  lemma {:induction false} LeadingSlashesDropped(k: nat, name: string)
    requires name == [] || name[0] != '/'
    ensures TrimStartMatches(Slashes(k) + name, '/') == name
    decreases k
  {
    if k > 0 {
      assert (Slashes(k) + name)[1..] == Slashes(k - 1) + name;
      LeadingSlashesDropped(k - 1, name);
    } else {
      assert Slashes(k) + name == name;
    }
  }
}
