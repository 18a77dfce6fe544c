/** `verify_and_return_json` and the older `verify_and_return_index`:
    from the extracted JAR to the JSON text it carries, checking the
    signature block, the pinned certificate and the digest chain
    `.SF` -> `MANIFEST.MF` -> JSON file. */
module IndexVerification {
  import opened Wrappers
  import opened Bytes
  import opened Platform
  import opened SignedJar
  import opened DigestChain
  import opened Consts

  const ManifestPath: string := "META-INF/MANIFEST.MF"

  /** The JSON file inside the JAR: `entry.json` or `index-v1.json`. */
  function JsonFileName(useEntry: bool): string {
    if useEntry then "entry.json" else "index-v1.json"
  }

  /** The entry scheme uses SHA-256 throughout, the older index SHA-1. */
  function Digest(prims: Primitives, useEntry: bool, data: Bytes): Bytes {
    if useEntry then prims.sha256(data) else prims.sha1(data)
  }

  /** The line that records the manifest's digest in the `.SF` file. */
  function SignedFilePrefix(useEntry: bool): Bytes {
    if useEntry then AsciiBytes("\r\nSHA-256-Digest-Manifest: ")
    else AsciiBytes("\r\nSHA1-Digest-Manifest: ")
  }

  /** The lines that record the JSON file's digest in the manifest. */
  function ManifestPrefix(useEntry: bool): Bytes {
    if useEntry then AsciiBytes("\r\nName: entry.json\r\nSHA-256-Digest: ")
    else AsciiBytes("\r\nName: index-v1.json\r\nSHA1-Digest: ")
  }

  function ReadFile(dir: map<string, Bytes>, path: string): (r: Result<Bytes, JarError>)
    ensures r.Ok? <==> path in dir
    ensures r.Ok? ==> r.value == dir[path]
    ensures r.Err? ==> r.error == MissingFile(path)
  {
    if path in dir then Ok(dir[path]) else Err(MissingFile(path))
  }

  /** `std::str::from_utf8`. */
  function RequireUtf8(data: Bytes, path: string): (r: Result<(), JarError>)
    ensures r.Ok? <==> Utf8(data)
  {
    if Utf8(data) then Ok(()) else Err(NotUtf8(path))
  }

  /** The signature over the `.SF` bytes and the pinned certificate. */
  function CheckTrust(prims: Primitives, dir: map<string, Bytes>, block: string, signed: Bytes, fingerprint: Bytes)
    : Result<(), JarError>
  {
    var blockBytes :- ReadFile(dir, block);
    var sd :- CheckSignedData(prims.parseSignedData(blockBytes));
    if !prims.signerVerifies(sd, sd.signers[0], signed) then Err(BadSignature)
    else match prims.encodeBer(sd.certificates[0])
      case None => Err(CertificateEncoding)
      case Some(der) => if prims.sha256(der) != fingerprint then Err(FingerprintMismatch) else Ok(())
  }

  /** A digest recorded after `prefix` in `text`, base64-decoded, checked
      against the digest of `data`. */
  function CheckDigest(prims: Primitives, useEntry: bool, text: Bytes, prefix: Bytes, data: Bytes, site: DigestSite)
    : Result<(), JarError>
  {
    match Capture(text, prefix)
    case None => Err(MissingDigest(site))
    case Some(value) =>
      match prims.base64Decode(value)
      case None => Err(BadBase64(site))
      case Some(recorded) => if recorded != Digest(prims, useEntry, data) then Err(DigestMismatch(site)) else Ok(())
  }

  /** Everything after the signature block has been found: the `.SF`
      file, its signature and pin, and its text. */
  function JsonFromBlock(prims: Primitives, dir: map<string, Bytes>, block: string, fingerprint: Bytes,
                         verify: bool, useEntry: bool): Result<Bytes, JarError>
  {
    var sfPath := SignedFilePath(block);
    var signed :- ReadFile(dir, sfPath);
    var trusted :- if verify then CheckTrust(prims, dir, block, signed, fingerprint) else Ok(());
    var signedText :- RequireUtf8(signed, sfPath);
    JsonFromSignedFile(prims, dir, signed, verify, useEntry)
  }

  /** The manifest, its digest recorded in the `.SF` file, and its text. */
  function JsonFromSignedFile(prims: Primitives, dir: map<string, Bytes>, signed: Bytes, verify: bool, useEntry: bool)
    : Result<Bytes, JarError>
  {
    var manifest :- ReadFile(dir, ManifestPath);
    var manifestChecked :- if verify then CheckDigest(prims, useEntry, signed, SignedFilePrefix(useEntry), manifest, ManifestDigest) else Ok(());
    var manifestText :- RequireUtf8(manifest, ManifestPath);
    JsonFromManifest(prims, dir, manifest, verify, useEntry)
  }

  /** The JSON file, its digest recorded in the manifest, and its text. */
  function JsonFromManifest(prims: Primitives, dir: map<string, Bytes>, manifest: Bytes, verify: bool, useEntry: bool)
    : Result<Bytes, JarError>
  {
    var json :- ReadFile(dir, JsonFileName(useEntry));
    var jsonChecked :- if verify then CheckDigest(prims, useEntry, manifest, ManifestPrefix(useEntry), json, JsonDigest) else Ok(());
    var jsonText :- RequireUtf8(json, JsonFileName(useEntry));
    Ok(json)
  }

  /** `verify_and_return_json`, step for step. */
  function VerifiedJson(prims: Primitives, dir: map<string, Bytes>, files: seq<string>, fingerprint: Bytes,
                        verify: bool, useEntry: bool): Result<Bytes, JarError>
  {
    var block :- SignatureBlockOf(files);
    JsonFromBlock(prims, dir, block, fingerprint, verify, useEntry)
  }

  method VerifyAndReturnJson(prims: Primitives, dir: map<string, Bytes>, files: seq<string>, fingerprint: Bytes,
                             verify: bool, useEntry: bool) returns (r: Result<Bytes, JarError>)
    ensures r == VerifiedJson(prims, dir, files, fingerprint, verify, useEntry)
  {
    var block := FindSignatureBlock(files);
    if block.Err? {
      return Err(block.error);
    }
    r := JsonFromBlock(prims, dir, block.value, fingerprint, verify, useEntry);
  }

  // ---------------------------------------------------------------------
  // What acceptance means.

  /** The CMS block at `block` has one certificate and one signer, the
      signer's signature over `signed` verifies, and the certificate's
      SHA-256 is the fingerprint. */
  predicate Trusted(prims: Primitives, dir: map<string, Bytes>, block: string, signed: Bytes, fingerprint: Bytes) {
    && block in dir
    && var parsed := prims.parseSignedData(dir[block]);
    && parsed.Some?
    && |parsed.value.certificates| == 1
    && |parsed.value.signers| == 1
    && prims.signerVerifies(parsed.value, parsed.value.signers[0], signed)
    && prims.encodeBer(parsed.value.certificates[0]).Some?
    && prims.sha256(prims.encodeBer(parsed.value.certificates[0]).value) == fingerprint
  }

  /** `text` records, after `prefix`, the base64 of the digest of `data`. */
  predicate Records(prims: Primitives, useEntry: bool, text: Bytes, prefix: Bytes, data: Bytes) {
    && Capture(text, prefix).Some?
    && prims.base64Decode(Capture(text, prefix).value) == Some(Digest(prims, useEntry, data))
  }

  /** The JAR with signature block `block` is accepted: the `.SF` file, the
      manifest and the JSON file are there and are UTF-8, and with
      verification on the signature, the pin and both digests hold. */
  predicate Accepted(prims: Primitives, dir: map<string, Bytes>, block: string, fingerprint: Bytes,
                     verify: bool, useEntry: bool) {
    var sfPath := SignedFilePath(block);
    var jsonPath := JsonFileName(useEntry);
    && sfPath in dir && ManifestPath in dir && jsonPath in dir
    && Utf8(dir[sfPath]) && Utf8(dir[ManifestPath]) && Utf8(dir[jsonPath])
    && (verify ==>
         && Trusted(prims, dir, block, dir[sfPath], fingerprint)
         && Records(prims, useEntry, dir[sfPath], SignedFilePrefix(useEntry), dir[ManifestPath])
         && Records(prims, useEntry, dir[ManifestPath], ManifestPrefix(useEntry), dir[jsonPath]))
  }

  lemma CheckTrustOk(prims: Primitives, dir: map<string, Bytes>, block: string, signed: Bytes, fingerprint: Bytes)
    ensures CheckTrust(prims, dir, block, signed, fingerprint).Ok? <==> Trusted(prims, dir, block, signed, fingerprint)
  {
  }

  lemma CheckDigestOk(prims: Primitives, useEntry: bool, text: Bytes, prefix: Bytes, data: Bytes, site: DigestSite)
    ensures CheckDigest(prims, useEntry, text, prefix, data, site).Ok? <==> Records(prims, useEntry, text, prefix, data)
  {
  }

  lemma JsonFromManifestOk(prims: Primitives, dir: map<string, Bytes>, manifest: Bytes, verify: bool, useEntry: bool)
    ensures JsonFromManifest(prims, dir, manifest, verify, useEntry).Ok? <==>
      && JsonFileName(useEntry) in dir && Utf8(dir[JsonFileName(useEntry)])
      && (verify ==> Records(prims, useEntry, manifest, ManifestPrefix(useEntry), dir[JsonFileName(useEntry)]))
    ensures JsonFromManifest(prims, dir, manifest, verify, useEntry).Ok? ==>
      JsonFromManifest(prims, dir, manifest, verify, useEntry).value == dir[JsonFileName(useEntry)]
  {
    if JsonFileName(useEntry) in dir {
      CheckDigestOk(prims, useEntry, manifest, ManifestPrefix(useEntry), dir[JsonFileName(useEntry)], JsonDigest);
    }
  }

  lemma JsonFromSignedFileOk(prims: Primitives, dir: map<string, Bytes>, signed: Bytes, verify: bool, useEntry: bool)
    ensures JsonFromSignedFile(prims, dir, signed, verify, useEntry).Ok? <==>
      && ManifestPath in dir && Utf8(dir[ManifestPath])
      && (verify ==> Records(prims, useEntry, signed, SignedFilePrefix(useEntry), dir[ManifestPath]))
      && JsonFromManifest(prims, dir, dir[ManifestPath], verify, useEntry).Ok?
    ensures JsonFromSignedFile(prims, dir, signed, verify, useEntry).Ok? ==>
      JsonFromSignedFile(prims, dir, signed, verify, useEntry) == JsonFromManifest(prims, dir, dir[ManifestPath], verify, useEntry)
  {
    if ManifestPath in dir {
      CheckDigestOk(prims, useEntry, signed, SignedFilePrefix(useEntry), dir[ManifestPath], ManifestDigest);
    }
  }

  lemma JsonFromBlockOk(prims: Primitives, dir: map<string, Bytes>, block: string, fingerprint: Bytes,
                        verify: bool, useEntry: bool)
    ensures JsonFromBlock(prims, dir, block, fingerprint, verify, useEntry).Ok? <==>
      Accepted(prims, dir, block, fingerprint, verify, useEntry)
    ensures JsonFromBlock(prims, dir, block, fingerprint, verify, useEntry).Ok? ==>
      JsonFromBlock(prims, dir, block, fingerprint, verify, useEntry).value == dir[JsonFileName(useEntry)]
  {
    var sfPath := SignedFilePath(block);
    if sfPath in dir {
      CheckTrustOk(prims, dir, block, dir[sfPath], fingerprint);
      SignedChainOk(prims, dir, dir[sfPath], verify, useEntry);
    }
  }

  /** From the `.SF` bytes on: the manifest and the JSON file are present
      and UTF-8 and, with verification on, each digest is recorded. */
  lemma SignedChainOk(prims: Primitives, dir: map<string, Bytes>, signed: Bytes, verify: bool, useEntry: bool)
    ensures JsonFromSignedFile(prims, dir, signed, verify, useEntry).Ok? <==>
      && ManifestPath in dir && JsonFileName(useEntry) in dir
      && Utf8(dir[ManifestPath]) && Utf8(dir[JsonFileName(useEntry)])
      && (verify ==>
           && Records(prims, useEntry, signed, SignedFilePrefix(useEntry), dir[ManifestPath])
           && Records(prims, useEntry, dir[ManifestPath], ManifestPrefix(useEntry), dir[JsonFileName(useEntry)]))
    ensures JsonFromSignedFile(prims, dir, signed, verify, useEntry).Ok? ==>
      JsonFromSignedFile(prims, dir, signed, verify, useEntry).value == dir[JsonFileName(useEntry)]
  {
    JsonFromSignedFileOk(prims, dir, signed, verify, useEntry);
    if ManifestPath in dir {
      JsonFromManifestOk(prims, dir, dir[ManifestPath], verify, useEntry);
    }
  }

  /** The JSON text is returned exactly when there is one signature block
      and the JAR is accepted with it; what is returned is the JSON file's
      bytes, unchanged. */
  lemma VerifiedJsonCharacterized(prims: Primitives, dir: map<string, Bytes>, files: seq<string>, fingerprint: Bytes,
                                  verify: bool, useEntry: bool, json: Bytes)
    ensures VerifiedJson(prims, dir, files, fingerprint, verify, useEntry) == Ok(json) <==>
      exists block, i :: && OnlyMatchAt(files, IsSignatureBlock, block, i)
                         && Accepted(prims, dir, block, fingerprint, verify, useEntry)
                         && json == dir[JsonFileName(useEntry)]
  {
    SignatureBlockChoice(files);
    match SignatureBlockOf(files)
    case Err(_) =>
      if exists b, i :: OnlyMatchAt(files, IsSignatureBlock, b, i) {
        var b, i :| OnlyMatchAt(files, IsSignatureBlock, b, i);
        assert SignatureBlockOf(files) == Ok(b);
      }
    case Ok(block) =>
      JsonFromBlockOk(prims, dir, block, fingerprint, verify, useEntry);
      forall b, i | OnlyMatchAt(files, IsSignatureBlock, b, i) ensures b == block {
      }
  }

  /** With verification off no cryptographic capability is consulted
      and the fingerprint does not matter; the signature block must still
      be unique and the three files present and UTF-8. */
  lemma UnverifiedIgnoresTrust(p1: Primitives, p2: Primitives, dir: map<string, Bytes>, files: seq<string>,
                               f1: Bytes, f2: Bytes, useEntry: bool)
    ensures VerifiedJson(p1, dir, files, f1, false, useEntry) == VerifiedJson(p2, dir, files, f2, false, useEntry)
  {
    match SignatureBlockOf(files)
    case Err(_) =>
    case Ok(block) =>
      var sfPath := SignedFilePath(block);
      if sfPath in dir && ManifestPath in dir {
        assert JsonFromManifest(p1, dir, dir[ManifestPath], false, useEntry) ==
               JsonFromManifest(p2, dir, dir[ManifestPath], false, useEntry);
        assert JsonFromSignedFile(p1, dir, dir[sfPath], false, useEntry) ==
               JsonFromSignedFile(p2, dir, dir[sfPath], false, useEntry);
      }
  }

  /** Everything the verified path accepts, the unverified path accepts
      with the same result. */
  lemma VerifiedImpliesUnverified(prims: Primitives, dir: map<string, Bytes>, files: seq<string>, fingerprint: Bytes,
                                  useEntry: bool, json: Bytes)
    requires VerifiedJson(prims, dir, files, fingerprint, true, useEntry) == Ok(json)
    ensures VerifiedJson(prims, dir, files, fingerprint, false, useEntry) == Ok(json)
  {
    VerifiedJsonCharacterized(prims, dir, files, fingerprint, true, useEntry, json);
    VerifiedJsonCharacterized(prims, dir, files, fingerprint, false, useEntry, json);
    var block, i :| && OnlyMatchAt(files, IsSignatureBlock, block, i)
                    && Accepted(prims, dir, block, fingerprint, true, useEntry)
                    && json == dir[JsonFileName(useEntry)];
    assert Accepted(prims, dir, block, fingerprint, false, useEntry);
  }

  /** A verified JSON text is UTF-8. */
  lemma VerifiedJsonUtf8(prims: Primitives, dir: map<string, Bytes>, files: seq<string>, fingerprint: Bytes,
                         verify: bool, useEntry: bool)
    requires VerifiedJson(prims, dir, files, fingerprint, verify, useEntry).Ok?
    ensures Utf8(VerifiedJson(prims, dir, files, fingerprint, verify, useEntry).value)
  {
    var json := VerifiedJson(prims, dir, files, fingerprint, verify, useEntry).value;
    VerifiedJsonCharacterized(prims, dir, files, fingerprint, verify, useEntry, json);
  }
}
