/** The older `verify_and_return_index`: the same JAR layout, always
    verified, SHA-1 digests, the certificate checked with its own
    signature-verification routine and fingerprinted through an X.509
    re-encoding, and the fingerprint fixed to the built-in one. */
module LegacyIndex {
  import opened Wrappers
  import opened Bytes
  import opened Platform
  import opened SignedJar
  import opened DigestChain
  import opened Consts
  import opened IndexVerification

  /** The legacy trust check: one certificate, one signer, the
      certificate's verification of the `.SF` bytes against the signer's
      signature, and the SHA-256 of its X.509 form equal to the built-in
      fingerprint. */
  function LegacyCheckTrust(prims: Primitives, dir: map<string, Bytes>, block: string, signed: Bytes)
    : Result<(), JarError>
  {
    var blockBytes :- ReadFile(dir, block);
    var sd :- CheckSignedData(prims.parseSignedData(blockBytes));
    if !prims.certificateVerifies(sd.certificates[0], signed, sd.signers[0]) then Err(BadSignature)
    else match prims.encodeBer(sd.certificates[0])
      case None => Err(CertificateEncoding)
      case Some(der) =>
        match prims.x509Sha256(der)
        case None => Err(CertificateEncoding)
        case Some(fp) => if fp != FdroidIndexFingerprint then Err(FingerprintMismatch) else Ok(())
  }

  function LegacyIndexFromBlock(prims: Primitives, dir: map<string, Bytes>, block: string): Result<Bytes, JarError> {
    var sfPath := SignedFilePath(block);
    var signed :- ReadFile(dir, sfPath);
    var trusted :- LegacyCheckTrust(prims, dir, block, signed);
    var signedText :- RequireUtf8(signed, sfPath);
    JsonFromSignedFile(prims, dir, signed, true, false)
  }

  /** `verify_and_return_index`. */
  function LegacyVerifiedIndex(prims: Primitives, dir: map<string, Bytes>, files: seq<string>): Result<Bytes, JarError> {
    var block :- SignatureBlockOf(files);
    LegacyIndexFromBlock(prims, dir, block)
  }

  method VerifyAndReturnIndex(prims: Primitives, dir: map<string, Bytes>, files: seq<string>)
    returns (r: Result<Bytes, JarError>)
    ensures r == LegacyVerifiedIndex(prims, dir, files)
  {
    var block := FindSignatureBlock(files);
    if block.Err? {
      return Err(block.error);
    }
    r := LegacyIndexFromBlock(prims, dir, block.value);
  }

  predicate LegacyTrusted(prims: Primitives, dir: map<string, Bytes>, block: string, signed: Bytes) {
    && block in dir
    && var parsed := prims.parseSignedData(dir[block]);
    && parsed.Some?
    && |parsed.value.certificates| == 1
    && |parsed.value.signers| == 1
    && prims.certificateVerifies(parsed.value.certificates[0], signed, parsed.value.signers[0])
    && prims.encodeBer(parsed.value.certificates[0]).Some?
    && prims.x509Sha256(prims.encodeBer(parsed.value.certificates[0]).value) == Some(FdroidIndexFingerprint)
  }

  /** The legacy JAR is accepted with block `block`: trusted under the
      built-in fingerprint and both SHA-1 digests recorded correctly. */
  predicate LegacyAccepted(prims: Primitives, dir: map<string, Bytes>, block: string) {
    var sfPath := SignedFilePath(block);
    && sfPath in dir && ManifestPath in dir && "index-v1.json" in dir
    && Utf8(dir[sfPath]) && Utf8(dir[ManifestPath]) && Utf8(dir["index-v1.json"])
    && LegacyTrusted(prims, dir, block, dir[sfPath])
    && Records(prims, false, dir[sfPath], SignedFilePrefix(false), dir[ManifestPath])
    && Records(prims, false, dir[ManifestPath], ManifestPrefix(false), dir["index-v1.json"])
  }

  lemma LegacyCheckTrustOk(prims: Primitives, dir: map<string, Bytes>, block: string, signed: Bytes)
    ensures LegacyCheckTrust(prims, dir, block, signed).Ok? <==> LegacyTrusted(prims, dir, block, signed)
  {
  }

  lemma LegacyIndexFromBlockOk(prims: Primitives, dir: map<string, Bytes>, block: string)
    ensures LegacyIndexFromBlock(prims, dir, block).Ok? <==> LegacyAccepted(prims, dir, block)
    ensures LegacyIndexFromBlock(prims, dir, block).Ok? ==> LegacyIndexFromBlock(prims, dir, block).value == dir["index-v1.json"]
  {
    var sfPath := SignedFilePath(block);
    if sfPath in dir {
      LegacyCheckTrustOk(prims, dir, block, dir[sfPath]);
      SignedChainOk(prims, dir, dir[sfPath], true, false);
    }
  }

  /** The index is returned exactly when there is one signature block and
      the JAR is accepted with it; it is `index-v1.json`, unchanged. There
      is no way to switch the check off. */
  lemma LegacyVerifiedIndexCharacterized(prims: Primitives, dir: map<string, Bytes>, files: seq<string>, index: Bytes)
    ensures LegacyVerifiedIndex(prims, dir, files) == Ok(index) <==>
      exists block, i :: && OnlyMatchAt(files, IsSignatureBlock, block, i)
                         && LegacyAccepted(prims, dir, block)
                         && index == dir["index-v1.json"]
  {
    SignatureBlockChoice(files);
    match SignatureBlockOf(files)
    case Err(_) =>
      if exists b, i :: OnlyMatchAt(files, IsSignatureBlock, b, i) {
        var b, i :| OnlyMatchAt(files, IsSignatureBlock, b, i);
        assert SignatureBlockOf(files) == Ok(b);
      }
    case Ok(block) =>
      LegacyIndexFromBlockOk(prims, dir, block);
      forall b, i | OnlyMatchAt(files, IsSignatureBlock, b, i) ensures b == block {
      }
  }

  /** The two signature routines agree on one-certificate, one-signer
      blocks, and the X.509 re-encoding neither fails nor changes the
      digest. */
  ghost predicate Agreeing(prims: Primitives) {
    && (forall sd: SignedData, content: Bytes
          | |sd.certificates| == 1 && |sd.signers| == 1
          :: prims.certificateVerifies(sd.certificates[0], content, sd.signers[0]) ==
             prims.signerVerifies(sd, sd.signers[0], content))
    && (forall der: Bytes :: prims.x509Sha256(der) == Some(prims.sha256(der)))
  }

  /** When the libraries agree, the older check is the current one with
      verification forced on, the legacy scheme and the built-in
      fingerprint. */
  lemma LegacyIsCurrentForced(prims: Primitives, dir: map<string, Bytes>, files: seq<string>)
    requires Agreeing(prims)
    ensures LegacyVerifiedIndex(prims, dir, files) == VerifiedJson(prims, dir, files, FdroidIndexFingerprint, true, false)
  {
    match SignatureBlockOf(files)
    case Err(_) =>
    case Ok(block) =>
      var sfPath := SignedFilePath(block);
      if sfPath in dir {
        var signed := dir[sfPath];
        assert LegacyCheckTrust(prims, dir, block, signed) == CheckTrust(prims, dir, block, signed, FdroidIndexFingerprint);
      }
  }
}
