/** The structural part of checking a signed JAR (JAR File Specification,
    "Signed JAR File"): finding the one signature block, naming its `.SF`
    companion, and the certificate and signer counts of its CMS block. */
module SignedJar {
  import opened Wrappers
  import opened Platform

  datatype JarError =
    | NoSignatureBlock
    | MultipleSignatureBlocks
    | MissingFile(path: string)
    | NotUtf8(path: string)
    | BadSignedData
    | TooManyCertificates
    | NoCertificate
    | TooManySigners
    | NoSigner
    | BadSignature
    | CertificateEncoding
    | FingerprintMismatch
    | MissingDigest(what: DigestSite)
    | BadBase64(what: DigestSite)
    | DigestMismatch(what: DigestSite)

  /** Which digest of the chain: the manifest's, recorded in the `.SF`
      file, or the JSON file's, recorded in the manifest. */
  datatype DigestSite = ManifestDigest | JsonDigest

  const MetaInf: string := "META-INF/"

  /** `name` matches `^META-INF/.*\.<ext>$`: `.` stops at a line feed and
      `$` is the end of the text. */
  predicate MatchesBlockPattern(name: string, ext: string) {
    && |name| >= |MetaInf| + |ext| + 1
    && name[..|MetaInf|] == MetaInf
    && name[|name| - |ext| - 1..] == "." + ext
    && '\n' !in name[|MetaInf|..|name| - |ext| - 1]
  }

  /** The signature-block pattern with its three key algorithms. */
  predicate IsSignatureBlock(name: string) {
    MatchesBlockPattern(name, "DSA") || MatchesBlockPattern(name, "EC") || MatchesBlockPattern(name, "RSA")
  }

  lemma SignatureBlockExamples()
    ensures IsSignatureBlock("META-INF/CERT.RSA")
    ensures IsSignatureBlock("META-INF/.EC")
  {
    assert "META-INF/CERT.RSA"[..9] == MetaInf;
    assert "META-INF/CERT.RSA"[13..] == ".RSA";
    assert "META-INF/.EC"[..9] == MetaInf;
    assert "META-INF/.EC"[9..] == ".EC";
  }

  /** A signature file, the manifest, a block outside `META-INF/` and a
      name with a line feed are not signature blocks. */
  lemma NotSignatureBlockExamples()
    ensures !IsSignatureBlock("META-INF/CERT.SF")
    ensures !IsSignatureBlock("META-INF/MANIFEST.MF")
    ensures !IsSignatureBlock("CERT.RSA")
    ensures !IsSignatureBlock("META-INF/A\nB.DSA")
  {
    assert "META-INF/CERT.SF"[12..] == "T.SF" && "META-INF/CERT.SF"[13..] == ".SF";
    assert ("." + "DSA")[0] == '.' && ("." + "EC")[1] == 'E' && ("." + "RSA")[0] == '.';
    assert "META-INF/MANIFEST.MF"[16..] == "T.MF" && "META-INF/MANIFEST.MF"[17..] == ".MF";
    assert "META-INF/A\nB.DSA"[9..12] == "A\nB";
    assert "META-INF/A\nB.DSA"[9..12][1] == '\n';
  }

  // ---------------------------------------------------------------------
  // The `.SF` companion: `Path::set_extension("SF")` on the block's path.

  function LastIndexOf(s: string, c: char): (r: Option<nat>)
    ensures r.None? <==> c !in s
    ensures r.Some? ==> r.value < |s| && s[r.value] == c && c !in s[r.value + 1..]
    decreases |s|
  {
    if s == [] then None
    else if s[|s| - 1] == c then Some(|s| - 1)
    else
      var r := LastIndexOf(s[..|s| - 1], c);
      assert s == s[..|s| - 1] + [s[|s| - 1]];
      assert r.Some? ==> s[r.value + 1..] == s[..|s| - 1][r.value + 1..] + [s[|s| - 1]];
      r
  }

  /** Where the file name starts: just after the last '/'. */
  function FileNameStart(path: string): (i: nat)
    ensures i <= |path| && '/' !in path[i..]
  {
    match LastIndexOf(path, '/')
    case None => 0
    case Some(k) => k + 1
  }

  /** The file stem ends at the last '.' of the file name, unless that dot
      is its first character (a name like `.RSA` is all stem). */
  function StemEnd(path: string): (e: nat)
    ensures FileNameStart(path) <= e <= |path|
  {
    var start := FileNameStart(path);
    match LastIndexOf(path[start..], '.')
    case None => |path|
    case Some(k) => if k == 0 then |path| else start + k
  }

  /** The path with its extension replaced by `SF`. */
  function SignedFilePath(path: string): (r: string)
    ensures r == path[..StemEnd(path)] + ".SF"
  {
    path[..StemEnd(path)] + ".SF"
  }

  lemma LastIndexOfAppend(s: string, t: string, c: char)
    requires c !in t
    ensures LastIndexOf(s + t, c) == LastIndexOf(s, c)
    decreases |t|
  {
    if t == [] {
      assert s + t == s;
    } else {
      assert (s + t)[..|s + t| - 1] == s + t[..|t| - 1];
      LastIndexOfAppend(s, t[..|t| - 1], c);
    }
  }

  lemma LastIndexOfLast(s: string, c: char)
    ensures LastIndexOf(s + [c], c) == Some(|s|)
  {
  }

  /** A block path is `body.ext`. Its companion is `body.SF` when the file
      name has a stem before the dot, and `body.ext.SF` when the file name
      is only `.ext` (the dot of a hidden file is not an extension). */
  lemma SignedFileOfBlock(body: string, ext: string)
    requires '/' !in ext && '.' !in ext
    ensures FileNameStart(body) < |body| ==> SignedFilePath(body + "." + ext) == body + ".SF"
    ensures FileNameStart(body) == |body| ==> SignedFilePath(body + "." + ext) == body + "." + ext + ".SF"
  {
    var name := body + "." + ext;
    BlockNameStart(body, ext);
    var start := FileNameStart(body);
    assert name[start..] == body[start..] + "." + ext;
    DotBeforeExtension(body[start..], ext);
    assert StemEnd(name) == if start < |body| then |body| else |name|;
    assert name[..|body|] == body;
  }

  /** An extension without '/' leaves the file name where it starts. */
  lemma BlockNameStart(body: string, ext: string)
    requires '/' !in ext
    ensures FileNameStart(body + "." + ext) == FileNameStart(body)
  {
    assert body + "." + ext == body + ("." + ext);
    LastIndexOfAppend(body, "." + ext, '/');
  }

  /** The last '.' of `stem.ext`, with no '.' in `ext`, is the one before it. */
  lemma DotBeforeExtension(stem: string, ext: string)
    requires '.' !in ext
    ensures LastIndexOf(stem + "." + ext, '.') == Some(|stem|)
  {
    LastIndexOfAppend(stem + ".", ext, '.');
    LastIndexOfLast(stem, '.');
  }

  lemma MetaInfFileNameStart(name: string)
    requires '/' !in name
    ensures FileNameStart(MetaInf + name) == 9
  {
    LastIndexOfLast("META-INF", '/');
    assert "META-INF" + ['/'] == MetaInf;
    LastIndexOfAppend(MetaInf, name, '/');
  }

  lemma HiddenSignedFileExample()
    ensures SignedFilePath("META-INF/.RSA") == "META-INF/.RSA.SF"
  {
    MetaInfFileNameStart("");
    assert MetaInf + "" == "META-INF/";
    SignedFileOfBlock("META-INF/", "RSA");
    assert "META-INF/" + "." + "RSA" == "META-INF/.RSA";
    assert "META-INF/.RSA" + ".SF" == "META-INF/.RSA.SF";
  }

  // ---------------------------------------------------------------------
  // Exactly one signature block among the extracted files.

  /** The names satisfying `p`, in order. */
  function Matching(files: seq<string>, p: string -> bool): (r: seq<string>)
    ensures |r| <= |files|
    ensures forall x :: x in r ==> x in files && p(x)
    decreases |files|
  {
    if files == [] then []
    else
      var last := files[|files| - 1];
      Matching(files[..|files| - 1], p) + (if p(last) then [last] else [])
  }

  /** The extracted names that match the signature-block pattern. */
  function SignatureBlocks(files: seq<string>): (r: seq<string>)
  {
    Matching(files, IsSignatureBlock)
  }

  /** The block chosen, or why there is none. */
  function SignatureBlockOf(files: seq<string>): Result<string, JarError> {
    var blocks := SignatureBlocks(files);
    if |blocks| == 0 then Err(NoSignatureBlock)
    else if |blocks| > 1 then Err(MultipleSignatureBlocks)
    else Ok(blocks[0])
  }

  /** The loop that collects the matching names and its two early exits. */
  method FindSignatureBlock(files: seq<string>) returns (r: Result<string, JarError>)
    ensures r == SignatureBlockOf(files)
  {
    var blocks: seq<string> := [];
    for i := 0 to |files|
      invariant blocks == SignatureBlocks(files[..i])
    {
      assert files[..i + 1][..i] == files[..i];
      if IsSignatureBlock(files[i]) {
        blocks := blocks + [files[i]];
      }
    }
    assert files[..|files|] == files;
    if |blocks| == 0 {
      return Err(NoSignatureBlock);
    }
    if |blocks| > 1 {
      return Err(MultipleSignatureBlocks);
    }
    r := Ok(blocks[0]);
  }

  /** Position `i` holds `n`, which satisfies `p`, and no other position
      holds a name that does. */
  predicate OnlyMatchAt(files: seq<string>, p: string -> bool, n: string, i: int) {
    && 0 <= i < |files|
    && files[i] == n
    && p(n)
    && forall j :: 0 <= j < |files| && j != i ==> !p(files[j])
  }

  lemma {:induction false} NoneMatching(files: seq<string>, p: string -> bool)
    ensures Matching(files, p) == [] <==> forall j :: 0 <= j < |files| ==> !p(files[j])
    decreases |files|
  {
    if files != [] {
      var init := files[..|files| - 1];
      NoneMatching(init, p);
      assert forall j :: 0 <= j < |init| ==> init[j] == files[j];
    }
  }

  /** The step of `SingleMatching` when the last name matches: the rest
      must have no match at all. */
  lemma SingleMatchingLast(init: seq<string>, last: string, p: string -> bool, n: string)
    requires p(last)
    ensures Matching(init + [last], p) == [n] <==> exists i :: OnlyMatchAt(init + [last], p, n, i)
  {
    var files := init + [last];
    assert files[..|files| - 1] == init;
    NoneMatching(init, p);
    assert forall j :: 0 <= j < |init| ==> init[j] == files[j];
    assert Matching(files, p) == Matching(init, p) + [last];
    if Matching(files, p) == [n] {
      assert Matching(init, p) == [] && last == n;
      assert forall j :: 0 <= j < |init| ==> !p(files[j]);
      assert OnlyMatchAt(files, p, n, |files| - 1);
    }
    if i :| OnlyMatchAt(files, p, n, i) {
      assert i == |files| - 1;
      assert Matching(init, p) == [];
    }
  }

  /** The step of `SingleMatching` when the last name does not match. */
  lemma SingleMatchingSkip(init: seq<string>, last: string, p: string -> bool, n: string)
    requires !p(last)
    requires Matching(init, p) == [n] <==> exists i :: OnlyMatchAt(init, p, n, i)
    ensures Matching(init + [last], p) == [n] <==> exists i :: OnlyMatchAt(init + [last], p, n, i)
  {
    var files := init + [last];
    assert files[..|files| - 1] == init;
    assert forall j :: 0 <= j < |init| ==> init[j] == files[j];
    assert Matching(files, p) == Matching(init, p);
    if Matching(files, p) == [n] {
      var i :| OnlyMatchAt(init, p, n, i);
      assert OnlyMatchAt(files, p, n, i);
    }
    if i :| OnlyMatchAt(files, p, n, i) {
      assert OnlyMatchAt(init, p, n, i);
    }
  }

  lemma {:induction false} SingleMatching(files: seq<string>, p: string -> bool, n: string)
    ensures Matching(files, p) == [n] <==> exists i :: OnlyMatchAt(files, p, n, i)
    decreases |files|
  {
    if files != [] {
      var init, last := files[..|files| - 1], files[|files| - 1];
      assert files == init + [last];
      if p(last) {
        SingleMatchingLast(init, last, p, n);
      } else {
        SingleMatching(init, p, n);
        SingleMatchingSkip(init, last, p, n);
      }
    }
  }

  /** The block is found exactly when one position holds one; having none
      at all is told apart from having several. */
  lemma SignatureBlockChoice(files: seq<string>)
    ensures forall n :: SignatureBlockOf(files) == Ok(n) <==> exists i :: OnlyMatchAt(files, IsSignatureBlock, n, i)
    ensures SignatureBlockOf(files) == Err(NoSignatureBlock) <==>
      forall j :: 0 <= j < |files| ==> !IsSignatureBlock(files[j])
  {
    NoneMatching(files, IsSignatureBlock);
    forall n ensures SignatureBlockOf(files) == Ok(n) <==> exists i :: OnlyMatchAt(files, IsSignatureBlock, n, i) {
      SingleMatching(files, IsSignatureBlock, n);
    }
  }

  // ---------------------------------------------------------------------
  // The CMS block: one certificate and one signer.

  /** `get_signed_data_from_cert_file` after reading the block: a parse
      failure, then too many and no certificates, then too many and no
      signers. */
  function CheckSignedData(parsed: Option<SignedData>): (r: Result<SignedData, JarError>)
    ensures r.Ok? <==> parsed.Some? && |parsed.value.certificates| == 1 && |parsed.value.signers| == 1
    ensures r.Ok? ==> r.value == parsed.value
    ensures parsed.None? ==> r == Err(BadSignedData)
    ensures parsed.Some? && |parsed.value.certificates| > 1 ==> r == Err(TooManyCertificates)
    ensures parsed.Some? && |parsed.value.certificates| == 1 && |parsed.value.signers| == 0 ==> r == Err(NoSigner)
  {
    match parsed
    case None => Err(BadSignedData)
    case Some(sd) =>
      if |sd.certificates| > 1 then Err(TooManyCertificates)
      else if |sd.certificates| == 0 then Err(NoCertificate)
      else if |sd.signers| > 1 then Err(TooManySigners)
      else if |sd.signers| == 0 then Err(NoSigner)
      else Ok(sd)
  }
}
