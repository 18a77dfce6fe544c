/** The options of the F-Droid source and what they decide: which index
    scheme is used, whether the index is verified, which repository is
    read with which pinned fingerprint, and where its cache files live
    (relative to the configuration directory). */
module FdroidConfig {
  import opened Wrappers
  import opened Bytes
  import opened Text
  import opened Hex
  import opened Json
  import opened Consts

  /** The options given on the command line, by name. */
  type Options = map<string, string>

  // ------------------------------------------------------------ use_entry

  /** How `to_lowercase` can turn `v` into "false". Only ASCII letters
      lower-case to 'f', 'a', 'l', 's' or 'e', and a character that
      lower-cases to several characters never yields one of these alone,
      so the ASCII mapping decides the comparison. */
  predicate LowersToFalse(v: string) {
    AsciiLowercase(v) == "false"
  }

  /** The two-level `entry.jar` scheme is used unless `use_entry` is "0"
      or some casing of "false". */
  function UseEntry(options: Options): (b: bool)
    ensures "use_entry" !in options ==> b
    ensures "use_entry" in options && options["use_entry"] == "0" ==> !b
  {
    !("use_entry" in options && (options["use_entry"] == "0" || LowersToFalse(options["use_entry"])))
  }

  /** Letter by letter: `c` lower-cases to the lower-case ASCII letter `l`. */
  lemma AsciiLowerLetter(c: char, l: char)
    requires 'a' <= l <= 'z'
    ensures AsciiLower(c) == l <==> c == l || c as int == l as int - 32
  {
  }

  /** The spellings of "false" that switch `use_entry` off are exactly the
      five-letter words whose letters are f, a, l, s, e in either case. */
  lemma {:induction false} FalseSpellings(v: string)
    ensures LowersToFalse(v) <==>
      && |v| == 5
      && v[0] in "fF" && v[1] in "aA" && v[2] in "lL" && v[3] in "sS" && v[4] in "eE"
  {
    if |v| == 5 {
      AsciiLowerLetter(v[0], 'f');
      AsciiLowerLetter(v[1], 'a');
      AsciiLowerLetter(v[2], 'l');
      AsciiLowerLetter(v[3], 's');
      AsciiLowerLetter(v[4], 'e');
      var w := AsciiLowercase(v);
      if w == "false" {
        assert w[0] == 'f' && w[1] == 'a' && w[2] == 'l' && w[3] == 's' && w[4] == 'e';
      }
      if v[0] in "fF" && v[1] in "aA" && v[2] in "lL" && v[3] in "sS" && v[4] in "eE" {
        assert w[0] == 'f' && w[1] == 'a' && w[2] == 'l' && w[3] == 's' && w[4] == 'e';
        assert w == "false";
      }
    } else {
      assert |AsciiLowercase(v)| != |"false"|;
    }
  }

  /** `use_entry` is off exactly for "0" and the casings of "false". */
  lemma UseEntryOff(options: Options)
    ensures !UseEntry(options) <==>
      && "use_entry" in options
      && var v := options["use_entry"];
         || v == "0"
         || (|v| == 5 && v[0] in "fF" && v[1] in "aA" && v[2] in "lL" && v[3] in "sS" && v[4] in "eE")
  {
    if "use_entry" in options {
      FalseSpellings(options["use_entry"]);
    }
  }

  // --------------------------------------------------------- verify-index

  /** Verification is switched off only by `verify-index` being exactly
      "false": the comparison is case-sensitive. */
  function VerifyIndex(options: Options): (b: bool)
    ensures !b ==> "verify-index" in options
  {
    !("verify-index" in options && options["verify-index"] == "false")
  }

  lemma VerifyIndexCaseSensitive(options: Options)
    requires "verify-index" in options && options["verify-index"] != "false"
    ensures VerifyIndex(options)
    ensures !VerifyIndex(options["verify-index" := "false"])
  {
  }

  // ----------------------------------------------------------------- repo

  const FingerprintMarker: string := "?fingerprint="

  /** The repository read, the fingerprint its signing certificate must
      have, and whether it is a repository other than the default. */
  datatype RepoConfig = RepoConfig(repo: string, fingerprint: Bytes, custom: bool)

  datatype ConfigError = FingerprintNotHex

  /** The `repo` option: `url` or `url?fingerprint=HEX`, split at the first
      marker. Without the option the default repository and the built-in
      fingerprint are used. */
  function RepoConfigOf(options: Options, defaultRepo: string): (r: Result<RepoConfig, ConfigError>)
    ensures "repo" !in options ==> r == Ok(RepoConfig(defaultRepo, FdroidIndexFingerprint, false))
    ensures "repo" in options && r.Ok? ==> r.value.custom
    ensures r.Err? ==> "repo" in options && SplitOnce(options["repo"], FingerprintMarker).Some?
  {
    if "repo" !in options then Ok(RepoConfig(defaultRepo, FdroidIndexFingerprint, false))
    else match SplitOnce(options["repo"], FingerprintMarker)
      case None => Ok(RepoConfig(options["repo"], FdroidIndexFingerprint, true))
      case Some((repo, hex)) =>
        match Decode(hex)
        case None => Err(FingerprintNotHex)
        case Some(fingerprint) => Ok(RepoConfig(repo, fingerprint, true))
  }

  /** The option handling as the program does it, reassigning the
      repository, the fingerprint and the custom flag. */
  method ParseRepoOption(options: Options, defaultRepo: string) returns (r: Result<RepoConfig, ConfigError>)
    ensures r == RepoConfigOf(options, defaultRepo)
  {
    var customRepo := false;
    var repo := defaultRepo;
    var fingerprint := FdroidIndexFingerprint;
    if "repo" in options {
      var fullRepoOption := options["repo"];
      customRepo := true;
      var split := SplitOnce(fullRepoOption, FingerprintMarker);
      if split.Some? {
        var decoded := Decode(split.value.1);
        if decoded.None? {
          return Err(FingerprintNotHex);
        }
        fingerprint := decoded.value;
        repo := split.value.0;
      } else {
        repo := fullRepoOption;
      }
    }
    return Ok(RepoConfig(repo, fingerprint, customRepo));
  }

  /** The marker begins with the only '?' it holds, so it cannot start
      inside a base URL free of '?'. */
  lemma SplitAtMarker(base: string, rest: string)
    requires '?' !in base
    ensures SplitOnce(base + FingerprintMarker + rest, FingerprintMarker) == Some((base, rest))
  {
    var s := base + FingerprintMarker + rest;
    assert OccursAt(s, FingerprintMarker, |base|) by {
      assert s[|base|..|base| + |FingerprintMarker|] == FingerprintMarker;
    }
    forall j | 0 <= j < |base| ensures !OccursAt(s, FingerprintMarker, j) {
      assert s[j] == base[j] && '?' != base[j];
      assert FingerprintMarker[0] == '?';
    }
    var r := SplitOnce(s, FingerprintMarker);
    var (a, b) := r.value;
    assert OccursAt(s, FingerprintMarker, |a|) by {
      assert s == a + FingerprintMarker + b;
      assert s[|a|..|a| + |FingerprintMarker|] == FingerprintMarker;
    }
    assert |a| == |base|;
    assert a == s[..|a|] == base;
    assert b == s[|a| + |FingerprintMarker|..] == rest;
  }

  /** `url?fingerprint=HEX` pins the decoded fingerprint for `url`, and a
      fingerprint that is not hex is refused. */
  lemma RepoWithFingerprint(options: Options, defaultRepo: string, base: string, hex: string)
    requires "repo" in options && options["repo"] == base + FingerprintMarker + hex
    requires '?' !in base
    ensures IsHex(hex) ==> RepoConfigOf(options, defaultRepo) == Ok(RepoConfig(base, Decode(hex).value, true))
    ensures !IsHex(hex) ==> RepoConfigOf(options, defaultRepo) == Err(FingerprintNotHex)
  {
    SplitAtMarker(base, hex);
  }

  /** An empty fingerprint after the marker decodes to no bytes at all. */
  lemma EmptyFingerprint(options: Options, defaultRepo: string, base: string)
    requires "repo" in options && options["repo"] == base + FingerprintMarker
    requires '?' !in base
    ensures RepoConfigOf(options, defaultRepo) == Ok(RepoConfig(base, [], true))
  {
    SplitAtMarker(base, "");
    assert base + FingerprintMarker + "" == base + FingerprintMarker;
    DecodeEmpty();
  }

  /** Without the marker the whole option is the repository and the
      built-in fingerprint stays. */
  lemma RepoWithoutMarker(options: Options, defaultRepo: string)
    requires "repo" in options
    requires forall j :: 0 <= j <= |options["repo"]| ==> !OccursAt(options["repo"], FingerprintMarker, j)
    ensures RepoConfigOf(options, defaultRepo) == Ok(RepoConfig(options["repo"], FdroidIndexFingerprint, true))
  {
  }

  // ---------------------------------------------------------- cache files

  const CustomReposDir: string := "fdroid-custom-repos"

  /** The directory, relative to the configuration directory, that holds
      the cached index: the configuration directory itself for the default
      repository, a subdirectory named by the decimal hash of the
      repository URL for any other. */
  function CacheDir(cfg: RepoConfig, hash: string -> u64): (d: string)
    ensures !cfg.custom ==> d == ""
    ensures cfg.custom ==> d == CustomReposDir + "/" + Decimal(hash(cfg.repo) as nat) + "/"
  {
    if cfg.custom then CustomReposDir + "/" + Decimal(hash(cfg.repo) as nat) + "/" else ""
  }

  function EtagFileName(useEntry: bool): string {
    if useEntry then "latest_entry_etag" else "latest_etag"
  }

  function IndexFileName(useEntry: bool): string {
    if useEntry then "index.json" else "index_v1.json"
  }

  /** The archive that is asked for its ETag and downloaded. */
  function JarUrl(repo: string, useEntry: bool): (u: string)
    ensures |u| > |repo| && u[..|repo|] == repo
    ensures u == repo + "/entry.jar" <==> useEntry
    ensures u == repo + "/index-v1.jar" <==> !useEntry
  {
    repo + (if useEntry then "/entry.jar" else "/index-v1.jar")
  }

  /** The fingerprint never chooses the cache: with or without a pinned
      fingerprint, a repository URL has the same cache directory. */
  lemma CacheDirIgnoresFingerprint(options: Options, defaultRepo: string, base: string, hex: string,
                                   hash: string -> u64)
    requires "repo" in options && options["repo"] == base + FingerprintMarker + hex
    requires '?' !in base && IsHex(hex)
    ensures RepoConfigOf(options, defaultRepo).Ok?
    ensures CacheDir(RepoConfigOf(options, defaultRepo).value, hash) ==
            CacheDir(RepoConfigOf(options["repo" := base], defaultRepo).value, hash)
  {
    RepoWithFingerprint(options, defaultRepo, base, hex);
    var plain := options["repo" := base];
    forall j | 0 <= j <= |base| ensures !OccursAt(base, FingerprintMarker, j) {
      if j + |FingerprintMarker| <= |base| {
        assert base[j] != '?' && FingerprintMarker[0] == '?';
        assert base[j..j + |FingerprintMarker|][0] == base[j];
      }
    }
    RepoWithoutMarker(plain, defaultRepo);
  }

  lemma PrefixCancel(p: string, a: string, b: string)
    requires p + a == p + b
    ensures a == b
  {
    assert a == (p + a)[|p|..];
    assert b == (p + b)[|p|..];
  }

  /** Two custom repositories share a cache directory only when their URLs
      hash alike, and never share it with the default repository. */
  lemma CacheDirSeparation(c1: RepoConfig, c2: RepoConfig, hash: string -> u64)
    requires c1.custom && CacheDir(c1, hash) == CacheDir(c2, hash)
    ensures c2.custom
    ensures hash(c1.repo) == hash(c2.repo)
  {
    var p := CustomReposDir + "/";
    var d1, d2 := Decimal(hash(c1.repo) as nat), Decimal(hash(c2.repo) as nat);
    assert CacheDir(c1, hash) == p + (d1 + "/");
    assert c2.custom by {
      assert |CacheDir(c1, hash)| > 0;
    }
    assert CacheDir(c2, hash) == p + (d2 + "/");
    PrefixCancel(p, d1 + "/", d2 + "/");
    assert |d1| == |d2|;
    assert d1 == (d1 + "/")[..|d1|];
    assert d2 == (d2 + "/")[..|d2|];
    DecimalInjective(hash(c1.repo) as nat, hash(c2.repo) as nat);
  }

  /** Within a cache directory the four file names are pairwise distinct:
      the two schemes never read each other's ETag or index, and an ETag
      file is never an index file. */
  lemma CacheFilesDistinct(dir: string, u1: bool, u2: bool)
    ensures dir + EtagFileName(u1) != dir + IndexFileName(u2)
    ensures dir + EtagFileName(u1) == dir + EtagFileName(u2) ==> u1 == u2
    ensures dir + IndexFileName(u1) == dir + IndexFileName(u2) ==> u1 == u2
  {
    assert (dir + EtagFileName(u1))[|dir|] == 'l';
    assert (dir + IndexFileName(u2))[|dir|] == 'i';
    assert |EtagFileName(true)| == 17 && |EtagFileName(false)| == 11;
    assert |IndexFileName(true)| == 10 && |IndexFileName(false)| == 13;
  }
}
