/** The APKPure source: the request headers that describe the device, the
    choice of what to download from the version list, and the version
    listing. */
module Apkpure {
  import opened Wrappers
  import opened Text
  import opened Json
  import opened AppNaming

  type Options = map<string, string>

  // -------------------------------------------------------------------
  // Request headers.

  const UserAgent := "Dalvik/2.1.0 (Linux; U; Android 15; Pixel 4a (5G) Build/BP1A.250505.005); APKPure/3.20.53 (Aegon)"
  const BusinessId := "projecta"
  const DefaultArchs: seq<string> := ["arm64-v8a", "armeabi-v7a", "armeabi", "x86", "x86_64"]
  /** The built-in `abis` text, `["arm64-v8a","armeabi-v7a","armeabi","x86","x86_64"]`,
      written piece by piece. */
  const DefaultAbis := "[" + "\"arm64-v8a\"" + "," + "\"armeabi-v7a\"" + "," + "\"armeabi\"" + "," + "\"x86\"" + "," + "\"x86_64\"" + "]"
  const DefaultLanguage := "\"en-US\""
  const DefaultOsVer := "\"35\""

  /** The architectures the `arch` option names, split at ';'. */
  function Archs(options: Options): (xs: seq<string>)
    ensures |xs| >= 1
  {
    if "arch" in options then Split(options["arch"], ';') else DefaultArchs
  }

  /** The `abis` text: the architectures as a JSON array. */
  function Abis(options: Options): string {
    if "arch" in options then Serialize(Array(StrArray(Split(options["arch"], ';')))) else DefaultAbis
  }

  function Language(options: Options): string {
    if "language" in options then Quote(options["language"]) else DefaultLanguage
  }

  function OsVer(options: Options): string {
    if "os_ver" in options then Quote(options["os_ver"]) else DefaultOsVer
  }

  /** The device description as the format string writes it: the outer
      object is never closed. */
  function DeviceInfoAsWritten(abis: string, language: string, osVer: string): string {
    "{\"device_info\":{\"abis\":" + abis + ",\"language\":" + language + ",\"os_ver\":" + osVer + "}"
  }

  /** The device description with both objects closed. */
  function DeviceInfo(abis: string, language: string, osVer: string): (s: string)
    ensures s == DeviceInfoAsWritten(abis, language, osVer) + "}"
  {
    "{\"device_info\":{\"abis\":" + abis + ",\"language\":" + language + ",\"os_ver\":" + osVer + "}}"
  }

  /** The device description the program sends, as written. */
  function DeviceInfoFor(options: Options): string {
    DeviceInfoAsWritten(Abis(options), Language(options), OsVer(options))
  }

  /** What a header value may hold (`HeaderValue::from_str`): tab and
      every character from the space up except DEL. The rule is stated on
      bytes; a character from U+0080 up is encoded in bytes from 0x80 up,
      which are all allowed, so the rule on characters is the same. */
  predicate HeaderValid(s: string) {
    forall i :: 0 <= i < |s| ==> s[i] == '\t' || (s[i] as int >= 0x20 && s[i] != Del)
  }

  /** `http_headers`: the user agent and business id always, the device
      description when it makes a valid header value. */
  method HttpHeaders(options: Options) returns (headers: map<string, string>)
    ensures headers.Keys == {"user-agent", "ual-access-businessid"} +
                            (if HeaderValid(DeviceInfoFor(options)) then {"ual-access-projecta"} else {})
    ensures headers["user-agent"] == UserAgent && headers["ual-access-businessid"] == BusinessId
    ensures "ual-access-projecta" in headers ==> headers["ual-access-projecta"] == DeviceInfoFor(options)
  {
    headers := map[];
    headers := headers["user-agent" := UserAgent];
    headers := headers["ual-access-businessid" := BusinessId];
    var abis := if "arch" in options then Serialize(Array(StrArray(Split(options["arch"], ';')))) else DefaultAbis;
    var language := if "language" in options then Quote(options["language"]) else DefaultLanguage;
    var osVer := if "os_ver" in options then Quote(options["os_ver"]) else DefaultOsVer;
    var deviceInfo := DeviceInfoAsWritten(abis, language, osVer);
    if HeaderValid(deviceInfo) {
      headers := headers["ual-access-projecta" := deviceInfo];
    }
  }

  // ---------------------------------------------------------- properties

  predicate NoControl(s: string) {
    forall i :: 0 <= i < |s| ==> s[i] as int >= 0x20
  }

  lemma NoControlConcat(a: string, b: string)
    ensures NoControl(a + b) <==> NoControl(a) && NoControl(b)
  {
    if NoControl(a + b) {
      assert forall i :: 0 <= i < |a| ==> a[i] == (a + b)[i];
      assert forall i :: 0 <= i < |b| ==> b[i] == (a + b)[|a| + i];
    }
    if NoControl(a) && NoControl(b) {
      forall i | 0 <= i < |a + b| ensures (a + b)[i] as int >= 0x20 {
        if i < |a| { assert (a + b)[i] == a[i]; } else { assert (a + b)[i] == b[i - |a|]; }
      }
    }
  }

  /** The fixed pieces of the headers are plain text. */
  predicate Plain(s: string) {
    NoControl(s) && Del !in s
  }

  lemma PlainConcat(a: string, b: string)
    requires Plain(a) && Plain(b)
    ensures Plain(a + b)
  {
    NoControlConcat(a, b);
  }

  /** Text free of control characters is a valid header value exactly
      when it holds no DEL. */
  lemma HeaderValidWithoutControl(s: string)
    requires NoControl(s)
    ensures HeaderValid(s) <==> Del !in s
  {
  }

  /** Characters that need no escaping are kept as they are. */
  lemma {:induction false} EscapePlain(s: string)
    requires forall i :: 0 <= i < |s| ==> s[i] as int >= 0x20 && s[i] != Quotation && s[i] != Backslash
    ensures Escape(s) == s
  {
    if s != [] {
      EscapePlain(s[1..]);
      assert [s[0]] + s[1..] == s;
    }
  }

  lemma QuoteCharacters(s: string)
    ensures NoControl(Quote(s))
    ensures Del in Quote(s) <==> Del in s
  {
    EscapeCharacters(s);
    NoControlConcat([Quotation], Escape(s));
    NoControlConcat([Quotation] + Escape(s), [Quotation]);
  }

  lemma DelInSomeSplit(xs: seq<string>)
    requires |xs| >= 1
    ensures (exists i :: 0 <= i < |xs| && Del in xs[i]) <==>
            Del in xs[0] || exists i :: 0 <= i < |xs[1..]| && Del in xs[1..][i]
  {
    if exists i :: 0 <= i < |xs| && Del in xs[i] {
      var i :| 0 <= i < |xs| && Del in xs[i];
      if i > 0 { assert xs[1..][i - 1] == xs[i]; }
    }
    if exists i :: 0 <= i < |xs[1..]| && Del in xs[1..][i] {
      var i :| 0 <= i < |xs[1..]| && Del in xs[1..][i];
      assert xs[i + 1] == xs[1..][i];
    }
  }

  lemma ItemsCharacters(head: string, tail: string)
    ensures NoControl(head + "," + tail) <==> NoControl(head) && NoControl(tail)
    ensures Del in head + "," + tail <==> Del in head || Del in tail
  {
    NoControlConcat(head, ",");
    NoControlConcat(head + ",", tail);
  }

  /** The JSON text of an array of strings has no control character and
      holds DEL exactly when one of the strings does. */
  lemma {:induction false} StrItemsCharacters(xs: seq<string>)
    ensures NoControl(SerializeItems(StrArray(xs)))
    ensures Del in SerializeItems(StrArray(xs)) <==> exists i :: 0 <= i < |xs| && Del in xs[i]
    decreases |xs|
  {
    var items := StrArray(xs);
    if |xs| == 1 {
      QuoteCharacters(xs[0]);
    } else if |xs| > 1 {
      QuoteCharacters(xs[0]);
      assert items[1..] == StrArray(xs[1..]);
      StrItemsCharacters(xs[1..]);
      var head := Serialize(items[0]);
      var tail := SerializeItems(items[1..]);
      ItemsCharacters(head, tail);
      assert SerializeItems(items) == head + "," + tail;
      DelInSomeSplit(xs);
    }
  }

  /** A character is in a join when it is the separator between two
      pieces or is in one of them. */
  lemma {:induction false} JoinMembers(ps: seq<string>, sep: char, c: char)
    requires |ps| >= 1
    ensures c in Join(ps, sep) <==> (c == sep && |ps| > 1) || exists i :: 0 <= i < |ps| && c in ps[i]
    decreases |ps|
  {
    if |ps| > 1 {
      JoinMembers(ps[1..], sep, c);
      assert Join(ps, sep) == ps[0] + [sep] + Join(ps[1..], sep);
      if exists i :: 0 <= i < |ps| && c in ps[i] {
        var i :| 0 <= i < |ps| && c in ps[i];
        if i > 0 { assert ps[1..][i - 1] == ps[i]; }
      }
      if exists i :: 0 <= i < |ps[1..]| && c in ps[1..][i] {
        var i :| 0 <= i < |ps[1..]| && c in ps[1..][i];
        assert ps[i + 1] == ps[1..][i];
      }
    } else {
      assert Join(ps, sep) == ps[0];
    }
  }

  lemma DefaultAbisPlain()
    ensures Plain(DefaultAbis)
  {
    var q0, q1, q2, q3, q4 := "\"arm64-v8a\"", "\"armeabi-v7a\"", "\"armeabi\"", "\"x86\"", "\"x86_64\"";
    assert Plain("[") && Plain(",") && Plain("]");
    assert Plain(q0) && Plain(q1) && Plain(q2) && Plain(q3) && Plain(q4);
    PlainConcat("[", q0);
    PlainConcat("[" + q0, ",");
    PlainConcat("[" + q0 + ",", q1);
    PlainConcat("[" + q0 + "," + q1, ",");
    PlainConcat("[" + q0 + "," + q1 + ",", q2);
    PlainConcat("[" + q0 + "," + q1 + "," + q2, ",");
    PlainConcat("[" + q0 + "," + q1 + "," + q2 + ",", q3);
    PlainConcat("[" + q0 + "," + q1 + "," + q2 + "," + q3, ",");
    PlainConcat("[" + q0 + "," + q1 + "," + q2 + "," + q3 + ",", q4);
    PlainConcat("[" + q0 + "," + q1 + "," + q2 + "," + q3 + "," + q4, "]");
  }

  lemma ArchAbisCharacters(arch: string)
    ensures NoControl(Serialize(Array(StrArray(Split(arch, ';')))))
    ensures Del in Serialize(Array(StrArray(Split(arch, ';')))) <==> Del in arch
  {
    var parts := Split(arch, ';');
    StrItemsCharacters(parts);
    JoinSplit(arch, ';');
    JoinMembers(parts, ';', Del);
    var items := SerializeItems(StrArray(parts));
    assert Serialize(Array(StrArray(parts))) == "[" + items + "]";
    NoControlConcat("[", items);
    NoControlConcat("[" + items, "]");
  }

  lemma AbisCharacters(options: Options)
    ensures NoControl(Abis(options))
    ensures Del in Abis(options) <==> "arch" in options && Del in options["arch"]
  {
    if "arch" in options {
      ArchAbisCharacters(options["arch"]);
    } else {
      DefaultAbisPlain();
    }
  }

  lemma OptionQuoteCharacters(options: Options, key: string, default: string)
    requires Plain(default)
    ensures NoControl(if key in options then Quote(options[key]) else default)
    ensures Del in (if key in options then Quote(options[key]) else default) <==> key in options && Del in options[key]
  {
    if key in options { QuoteCharacters(options[key]); }
  }

  lemma FixedPiecesPlain()
    ensures Plain("{\"device_info\":{\"abis\":") && Plain(",\"language\":") && Plain(",\"os_ver\":") && Plain("}")
    ensures Plain(DefaultLanguage) && Plain(DefaultOsVer)
  {
  }

  /** The device header is sent exactly when none of the three options
      holds a DEL character; every other character is made safe by the
      JSON escaping. */
  lemma DeviceHeaderSent(options: Options)
    ensures HeaderValid(DeviceInfoFor(options)) <==>
      && ("arch" in options ==> Del !in options["arch"])
      && ("language" in options ==> Del !in options["language"])
      && ("os_ver" in options ==> Del !in options["os_ver"])
  {
    var a, l, o := Abis(options), Language(options), OsVer(options);
    AbisCharacters(options);
    FixedPiecesPlain();
    OptionQuoteCharacters(options, "language", DefaultLanguage);
    OptionQuoteCharacters(options, "os_ver", DefaultOsVer);
    var p1, p2, p3, p4 := "{\"device_info\":{\"abis\":", ",\"language\":", ",\"os_ver\":", "}";
    FixedPiecesPlain();
    var s1 := p1 + a;
    var s2 := s1 + p2;
    var s3 := s2 + l;
    var s4 := s3 + p3;
    var s5 := s4 + o;
    var s6 := s5 + p4;
    NoControlConcat(p1, a);
    NoControlConcat(s1, p2);
    NoControlConcat(s2, l);
    NoControlConcat(s3, p3);
    NoControlConcat(s4, o);
    NoControlConcat(s5, p4);
    assert DeviceInfoFor(options) == s6;
    assert Del in s6 <==> Del in a || Del in l || Del in o;
    HeaderValidWithoutControl(s6);
  }

  // ------------------------------------------------------ the JSON text

  /** The value of the `language` and `os_ver` members. */
  function LanguageValue(options: Options): string {
    if "language" in options then options["language"] else "en-US"
  }

  function OsVerValue(options: Options): string {
    if "os_ver" in options then options["os_ver"] else "35"
  }

  /** The object the device description is meant to be. */
  function DeviceObject(options: Options): Json {
    Object([("device_info", Object([("abis", Array(StrArray(Archs(options)))),
                                    ("language", Str(LanguageValue(options))),
                                    ("os_ver", Str(OsVerValue(options)))]))])
  }

  lemma QuotePlain(s: string)
    requires forall i :: 0 <= i < |s| ==> s[i] as int >= 0x20 && s[i] != Quotation && s[i] != Backslash
    ensures Quote(s) == "\"" + s + "\""
  {
    EscapePlain(s);
  }

  /** `q` is the JSON literal of `s`, when `s` needs no escaping. */
  lemma QuotedAs(s: string, q: string)
    requires forall i :: 0 <= i < |s| ==> s[i] as int >= 0x20 && s[i] != Quotation && s[i] != Backslash
    requires q == "\"" + s + "\""
    ensures Quote(s) == q
  {
    QuotePlain(s);
  }

  lemma QuoteArm64()
    ensures Quote("arm64-v8a") == "\"arm64-v8a\""
  {
    QuotedAs("arm64-v8a", "\"arm64-v8a\"");
  }

  lemma QuoteArmV7()
    ensures Quote("armeabi-v7a") == "\"armeabi-v7a\""
  {
    QuotedAs("armeabi-v7a", "\"armeabi-v7a\"");
  }

  lemma QuoteArm()
    ensures Quote("armeabi") == "\"armeabi\""
  {
    QuotedAs("armeabi", "\"armeabi\"");
  }

  lemma QuoteX86()
    ensures Quote("x86") == "\"x86\""
  {
    QuotedAs("x86", "\"x86\"");
  }

  lemma QuoteX8664()
    ensures Quote("x86_64") == "\"x86_64\""
  {
    QuotedAs("x86_64", "\"x86_64\"");
  }

  lemma ArchsQuoted()
    ensures Quote("arm64-v8a") == "\"arm64-v8a\"" && Quote("armeabi-v7a") == "\"armeabi-v7a\""
    ensures Quote("armeabi") == "\"armeabi\"" && Quote("x86") == "\"x86\"" && Quote("x86_64") == "\"x86_64\""
  {
    QuoteArm64(); QuoteArmV7(); QuoteArm(); QuoteX86(); QuoteX8664();
  }

  lemma Regroup5(whole: string, q0: string, q1: string, q2: string, q3: string, q4: string)
    requires whole == "[" + q0 + "," + q1 + "," + q2 + "," + q3 + "," + q4 + "]"
    ensures whole == "[" + (q0 + "," + (q1 + "," + (q2 + "," + (q3 + "," + q4)))) + "]"
  {
  }

  /** A five-string array serialises to its five quoted strings between
      brackets, separated by commas. */
  lemma SerializeFive(xs: seq<string>, q0: string, q1: string, q2: string, q3: string, q4: string)
    requires |xs| == 5
    requires Quote(xs[0]) == q0 && Quote(xs[1]) == q1 && Quote(xs[2]) == q2 && Quote(xs[3]) == q3 && Quote(xs[4]) == q4
    ensures Serialize(Array(StrArray(xs))) == "[" + (q0 + "," + (q1 + "," + (q2 + "," + (q3 + "," + q4)))) + "]"
  {
    var items := StrArray(xs);
    assert items[1..][1..][1..] == [Str(xs[3]), Str(xs[4])];
    assert items[1..][1..][1..][1..] == [Str(xs[4])];
    assert SerializeItems(items[1..][1..][1..][1..]) == q4;
    assert SerializeItems(items[1..][1..][1..]) == q3 + "," + q4;
    assert SerializeItems(items[1..][1..]) == q2 + "," + (q3 + "," + q4);
    assert SerializeItems(items[1..]) == q1 + "," + (q2 + "," + (q3 + "," + q4));
    assert SerializeItems(items) == q0 + "," + (q1 + "," + (q2 + "," + (q3 + "," + q4)));
  }

  /** The built-in architecture list is the JSON array of the built-in
      architectures. */
  lemma DefaultAbisIsJson(archs: seq<string>)
    requires archs == DefaultArchs
    ensures DefaultAbis == Serialize(Array(StrArray(archs)))
  {
    ArchsQuoted();
    FiveQuoted(archs, "arm64-v8a", "armeabi-v7a", "armeabi", "x86", "x86_64",
               "\"arm64-v8a\"", "\"armeabi-v7a\"", "\"armeabi\"", "\"x86\"", "\"x86_64\"");
  }

  /** Five strings with known quoted forms serialise to those forms between
      brackets, separated by commas. */
  lemma FiveQuoted(xs: seq<string>, a0: string, a1: string, a2: string, a3: string, a4: string,
                   q0: string, q1: string, q2: string, q3: string, q4: string)
    requires xs == [a0, a1, a2, a3, a4]
    requires Quote(a0) == q0 && Quote(a1) == q1 && Quote(a2) == q2 && Quote(a3) == q3 && Quote(a4) == q4
    ensures Serialize(Array(StrArray(xs))) == "[" + q0 + "," + q1 + "," + q2 + "," + q3 + "," + q4 + "]"
  {
    SerializeFive(xs, q0, q1, q2, q3, q4);
    Regroup5("[" + q0 + "," + q1 + "," + q2 + "," + q3 + "," + q4 + "]", q0, q1, q2, q3, q4);
  }

  /** The default `language` and `os_ver` texts are the quoted defaults. */
  lemma DefaultsAreQuoted()
    ensures DefaultLanguage == Quote("en-US") && DefaultOsVer == Quote("35")
  {
    QuotePlain("en-US");
    QuotePlain("35");
  }

  lemma AbisIsJson(options: Options)
    ensures Abis(options) == Serialize(Array(StrArray(Archs(options))))
  {
    if "arch" !in options { DefaultAbisIsJson(Archs(options)); }
  }

  lemma QuoteDeviceInfo()
    ensures Quote("device_info") == "\"device_info\""
  {
    QuotedAs("device_info", "\"device_info\"");
  }

  lemma QuoteAbis()
    ensures Quote("abis") == "\"abis\""
  {
    QuotedAs("abis", "\"abis\"");
  }

  lemma QuoteLanguage()
    ensures Quote("language") == "\"language\""
  {
    QuotedAs("language", "\"language\"");
  }

  lemma QuoteOsVer()
    ensures Quote("os_ver") == "\"os_ver\""
  {
    QuotedAs("os_ver", "\"os_ver\"");
  }

  lemma KeysQuoted()
    ensures Quote("device_info") == "\"device_info\"" && Quote("abis") == "\"abis\""
    ensures Quote("language") == "\"language\"" && Quote("os_ver") == "\"os_ver\""
  {
    QuoteDeviceInfo(); QuoteAbis(); QuoteLanguage(); QuoteOsVer();
  }

  lemma RegroupDevice(whole: string, p1: string, p2: string, p3: string, p4: string,
                      k1: string, k2: string, k3: string, k4: string, a: string, l: string, o: string)
    requires whole == p1 + a + p2 + l + p3 + o + p4
    requires p1 == "{" + k1 + ":" + "{" + k2 + ":" && p2 == "," + k3 + ":" && p3 == "," + k4 + ":" && p4 == "}" + "}"
    ensures whole == "{" + (k1 + ":" + ("{" + (k2 + ":" + a + "," + (k3 + ":" + l + "," + (k4 + ":" + o))) + "}")) + "}"
  {
  }

  lemma DeviceInfoPieces(a: string, l: string, o: string)
    ensures DeviceInfo(a, l, o) ==
      "{" + ("\"device_info\"" + ":" + ("{" + ("\"abis\"" + ":" + a + "," + ("\"language\"" + ":" + l + "," + ("\"os_ver\"" + ":" + o))) + "}")) + "}"
  {
    RegroupDevice(DeviceInfo(a, l, o), "{\"device_info\":{\"abis\":", ",\"language\":", ",\"os_ver\":", "}}",
                  "\"device_info\"", "\"abis\"", "\"language\"", "\"os_ver\"", a, l, o);
  }

  lemma InnerObjectText(abis: Json, language: string, osVer: string, a: string, l: string, o: string)
    requires Serialize(abis) == a && Quote(language) == l && Quote(osVer) == o
    ensures SerializeMembers([("abis", abis), ("language", Str(language)), ("os_ver", Str(osVer))]) ==
      "\"abis\"" + ":" + a + "," + ("\"language\"" + ":" + l + "," + ("\"os_ver\"" + ":" + o))
  {
    QuoteAbis();
    QuoteLanguage();
    QuoteOsVer();
    var inner: seq<(string, Json)> := [("abis", abis), ("language", Str(language)), ("os_ver", Str(osVer))];
    assert inner[1..][1..] == [inner[2]];
    assert SerializeMembers(inner[1..][1..]) == Quote("os_ver") + ":" + o;
    assert SerializeMembers(inner[1..]) == Quote("language") + ":" + l + "," + (Quote("os_ver") + ":" + o);
  }

  lemma OuterObjectText(inner: Json, t: string)
    requires Serialize(inner) == t
    ensures Serialize(Object([("device_info", inner)])) == "{" + ("\"device_info\"" + ":" + t) + "}"
  {
    QuoteDeviceInfo();
    var outer: seq<(string, Json)> := [("device_info", inner)];
    assert SerializeMembers(outer) == Quote("device_info") + ":" + t;
  }

  /** The device description of any three JSON texts is the text of the
      object that holds them. */
  lemma DeviceText(abis: Json, language: string, osVer: string, a: string, l: string, o: string)
    requires Serialize(abis) == a && Quote(language) == l && Quote(osVer) == o
    ensures DeviceInfo(a, l, o) ==
      Serialize(Object([("device_info", Object([("abis", abis), ("language", Str(language)), ("os_ver", Str(osVer))]))]))
  {
    var members: seq<(string, Json)> := [("abis", abis), ("language", Str(language)), ("os_ver", Str(osVer))];
    InnerObjectText(abis, language, osVer, a, l, o);
    OuterObjectText(Object(members), "{" + SerializeMembers(members) + "}");
    DeviceInfoPieces(a, l, o);
  }

  lemma OptionTextsQuoted(options: Options)
    ensures Language(options) == Quote(LanguageValue(options))
    ensures OsVer(options) == Quote(OsVerValue(options))
  {
    DefaultsAreQuoted();
  }

  /** With both objects closed, the device description is the JSON text of
      the intended object. */
  lemma DeviceInfoIsJson(options: Options)
    ensures DeviceInfo(Abis(options), Language(options), OsVer(options)) == Serialize(DeviceObject(options))
  {
    AbisIsJson(options);
    OptionTextsQuoted(options);
    DeviceText(Array(StrArray(Archs(options))), LanguageValue(options), OsVerValue(options),
               Abis(options), Language(options), OsVer(options));
  }

  /** Finding: the description the program sends is never the JSON text
      of the intended object; it lacks the final brace. */
  lemma DeviceInfoAsWrittenIsNotJson(options: Options)
    ensures DeviceInfoFor(options) != Serialize(DeviceObject(options))
    ensures DeviceInfoFor(options) + "}" == Serialize(DeviceObject(options))
  {
    DeviceInfoIsJson(options);
  }

  /** The header is sent for the description as written exactly when it
      is for the corrected one. */
  lemma AsWrittenSameHeaderDecision(abis: string, language: string, osVer: string)
    ensures HeaderValid(DeviceInfoAsWritten(abis, language, osVer)) <==> HeaderValid(DeviceInfo(abis, language, osVer))
  {
    var w := DeviceInfoAsWritten(abis, language, osVer);
    assert forall i :: 0 <= i < |w| ==> DeviceInfo(abis, language, osVer)[i] == w[i];
  }

  // -------------------------------------------------------------------
  // Choosing the download.

  const VersionsUrlFormat := "https://api.pureapk.com/m/v3/cms/app_version?hl=en-US&package_name="

  /** Where the version list of an app is requested. */
  function VersionsUrl(appId: string): (u: string)
    ensures |u| == |VersionsUrlFormat| + |appId|
    ensures u[..|VersionsUrlFormat|] == VersionsUrlFormat && u[|VersionsUrlFormat|..] == appId
  {
    VersionsUrlFormat + appId
  }

  /** The app string of a request: the `arch` option is the architecture. */
  function AppStringFor(options: Options, app: (string, Option<string>)): string {
    AppString(app.0, app.1, if "arch" in options then Some(options["arch"]) else None)
  }

  /** What the selection loop makes of the version test of one element:
      `None` when it aborts (a requested version and a `version_name` that
      is not a string), otherwise whether the element is for the requested
      version (any element, when none is requested). */
  function VersionTest(version: Json, wanted: Option<string>): (r: Option<bool>)
    ensures r == Some(true) <==> wanted.None? || GetStr(version, "version_name") == wanted
    ensures r.None? <==> wanted.Some? && Get(version, "version_name").Some? && !Get(version, "version_name").value.Str?
  {
    if wanted.None? then Some(true)
    else match Get(version, "version_name")
      case None => Some(false)
      case Some(Str(name)) => Some(name == wanted.value)
      case Some(_) => None
  }

  /** The string `url` and `type` of an element's `asset` object. */
  function AssetOf(version: Json): Option<(string, string)> {
    match Get(version, "asset")
    case Some(Object(ms)) =>
      (match (Lookup(ms, "url"), Lookup(ms, "type"))
       case (Some(Str(url)), Some(Str(kind))) => Some((url, kind))
       case _ => None)
    case _ => None
  }

  /** How the scan of `version_list` ends. */
  datatype Scan =
    | Picked(url: string, kind: string) // the loop breaks on this asset
    | Exhausted                         // the loop runs to the end
    | Aborts                            // the loop panics

  /** An element the loop passes over. */
  predicate Passes(version: Json, wanted: Option<string>) {
    VersionTest(version, wanted) == Some(false) || (VersionTest(version, wanted) == Some(true) && AssetOf(version).None?)
  }

  ghost predicate PassedBefore(vs: seq<Json>, wanted: Option<string>, i: int)
    requires 0 <= i <= |vs|
  {
    forall j :: 0 <= j < i ==> Passes(vs[j], wanted)
  }

  function FirstAsset(vs: seq<Json>, wanted: Option<string>): Scan {
    if vs == [] then Exhausted
    else match VersionTest(vs[0], wanted)
      case None => Aborts
      case Some(taken) =>
        if taken && AssetOf(vs[0]).Some? then Picked(AssetOf(vs[0]).value.0, AssetOf(vs[0]).value.1)
        else FirstAsset(vs[1..], wanted)
  }

  function ScanOf(body: Json, wanted: Option<string>): Scan {
    match Get(body, "version_list")
    case Some(Array(vs)) => FirstAsset(vs, wanted)
    case _ => Exhausted
  }

  function FileNameFor(appString: string, kind: string): string {
    if kind == "XAPK" then appString + ".xapk" else ApkName(appString)
  }

  datatype Failure =
    | InvalidAppResponse // the status is not 200 OK
    | InvalidAppJson     // the body is not JSON
    | NoValidVersions    // nothing chosen, or an empty URL chosen
    | Aborted            // the program panics

  datatype Chosen = Chosen(url: string, fileName: string)

  /** The outcome of `download_from_response` up to the download itself;
      `body` is the parsed body, `None` when it is not JSON. */
  function Choice(status: nat, body: Option<Json>, appString: string, wanted: Option<string>): Result<Chosen, Failure> {
    if status != 200 then Err(InvalidAppResponse)
    else if body.None? then Err(InvalidAppJson)
    else match ScanOf(body.value, wanted)
      case Aborts => Err(Aborted)
      case Exhausted => Err(NoValidVersions)
      case Picked(url, kind) => if url == "" then Err(NoValidVersions) else Ok(Chosen(url, FileNameFor(appString, kind)))
  }

  /** `download_from_response` before the download: the loop over
      `version_list` sets the URL and file name on the first usable asset
      and breaks. */
  method DownloadFromResponse(status: nat, body: Option<Json>, appString: string, wanted: Option<string>)
    returns (r: Result<Chosen, Failure>)
    ensures r == Choice(status, body, appString, wanted)
  {
    if status != 200 {
      return Err(InvalidAppResponse);
    }
    if body.None? {
      return Err(InvalidAppJson);
    }
    var downloadUrl := "";
    var fileName := "";
    var list := Get(body.value, "version_list");
    if list.Some? && list.value.Array? {
      var vs := list.value.items;
      var i := 0;
      while i < |vs|
        invariant 0 <= i <= |vs|
        invariant FirstAsset(vs, wanted) == FirstAsset(vs[i..], wanted)
        invariant downloadUrl == ""
      {
        assert vs[i..][0] == vs[i] && vs[i..][1..] == vs[i + 1..];
        var test := VersionTest(vs[i], wanted);
        if test.None? {
          return Err(Aborted);
        }
        if test.value {
          var asset := AssetOf(vs[i]);
          if asset.Some? {
            downloadUrl := asset.value.0;
            fileName := if asset.value.1 == "XAPK" then appString + ".xapk" else ApkName(appString);
            break;
          }
        }
        i := i + 1;
      }
    }
    if downloadUrl == "" {
      return Err(NoValidVersions);
    }
    return Ok(Chosen(downloadUrl, fileName));
  }

  /** The outcome for one requested app, `respond` standing for the
      version-list request. */
  function AppOutcome(options: Options, app: (string, Option<string>), respond: string -> (nat, Option<Json>))
    : Result<Chosen, Failure>
  {
    var (status, body) := respond(VersionsUrl(app.0));
    Choice(status, body, AppStringFor(options, app), app.1)
  }

  // ---------------------------------------------------------- properties

  lemma {:induction false} FirstAssetSkips(vs: seq<Json>, wanted: Option<string>, i: int)
    requires 0 <= i <= |vs| && PassedBefore(vs, wanted, i)
    ensures FirstAsset(vs, wanted) == FirstAsset(vs[i..], wanted)
    decreases i
  {
    if i > 0 {
      assert Passes(vs[0], wanted);
      assert forall j :: 0 <= j < i - 1 ==> vs[1..][j] == vs[j + 1];
      FirstAssetSkips(vs[1..], wanted, i - 1);
      assert vs[1..][i - 1..] == vs[i..];
    }
  }

  ghost predicate PickedAt(vs: seq<Json>, wanted: Option<string>, i: int, url: string, kind: string) {
    && 0 <= i < |vs| && PassedBefore(vs, wanted, i)
    && VersionTest(vs[i], wanted) == Some(true) && AssetOf(vs[i]) == Some((url, kind))
  }

  lemma {:induction false} PickedHasIndex(vs: seq<Json>, wanted: Option<string>, url: string, kind: string) returns (i: int)
    requires FirstAsset(vs, wanted) == Picked(url, kind)
    ensures PickedAt(vs, wanted, i, url, kind)
    decreases |vs|
  {
    PickedHead(vs, wanted, url, kind);
    if VersionTest(vs[0], wanted) == Some(true) && AssetOf(vs[0]).Some? {
      i := 0;
    } else {
      var j := PickedHasIndex(vs[1..], wanted, url, kind);
      i := j + 1;
      assert vs[1..][j] == vs[i];
      PassedCons(vs, wanted, j);
    }
  }

  /** Passing over the first element and then `j` more is passing over
      `j + 1`. */
  lemma PassedCons(vs: seq<Json>, wanted: Option<string>, j: int)
    requires 0 <= j < |vs| && Passes(vs[0], wanted) && PassedBefore(vs[1..], wanted, j)
    ensures PassedBefore(vs, wanted, j + 1)
  {
    assert forall k :: 1 <= k < j + 1 ==> vs[k] == vs[1..][k - 1];
  }

  /** A picked asset is the first element's, or the first element is
      passed over and the rest picks it. */
  lemma PickedHead(vs: seq<Json>, wanted: Option<string>, url: string, kind: string)
    requires FirstAsset(vs, wanted) == Picked(url, kind)
    ensures vs != []
    ensures if VersionTest(vs[0], wanted) == Some(true) && AssetOf(vs[0]).Some?
      then AssetOf(vs[0]) == Some((url, kind))
      else Passes(vs[0], wanted) && FirstAsset(vs[1..], wanted) == Picked(url, kind)
  {
  }

  /** The chosen asset belongs to the first element that is for the
      requested version and has a string `url` and `type`; every element
      before it is passed over. */
  lemma PickedIsFirstMatch(vs: seq<Json>, wanted: Option<string>, url: string, kind: string)
    ensures FirstAsset(vs, wanted) == Picked(url, kind) <==> exists i :: PickedAt(vs, wanted, i, url, kind)
  {
    if FirstAsset(vs, wanted) == Picked(url, kind) {
      var i := PickedHasIndex(vs, wanted, url, kind);
    }
    if exists i :: PickedAt(vs, wanted, i, url, kind) {
      var i :| PickedAt(vs, wanted, i, url, kind);
      FirstAssetSkips(vs, wanted, i);
      assert vs[i..][0] == vs[i];
    }
  }

  /** The loop aborts exactly on a non-string `version_name` of an element
      it reaches, and only when a version is requested. */
  lemma {:induction false} AbortsIsFirstBadName(vs: seq<Json>, wanted: Option<string>)
    ensures FirstAsset(vs, wanted) == Aborts <==>
      exists i :: 0 <= i < |vs| && PassedBefore(vs, wanted, i) && VersionTest(vs[i], wanted).None?
    ensures FirstAsset(vs, wanted) == Aborts ==> wanted.Some?
    decreases |vs|
  {
    if FirstAsset(vs, wanted) == Aborts {
      AbortsHead(vs, wanted);
      if VersionTest(vs[0], wanted).None? {
        assert PassedBefore(vs, wanted, 0);
      } else {
        AbortsIsFirstBadName(vs[1..], wanted);
        var i :| 0 <= i < |vs[1..]| && PassedBefore(vs[1..], wanted, i) && VersionTest(vs[1..][i], wanted).None?;
        assert vs[1..][i] == vs[i + 1];
        PassedCons(vs, wanted, i);
      }
    }
    if exists i :: 0 <= i < |vs| && PassedBefore(vs, wanted, i) && VersionTest(vs[i], wanted).None? {
      var i :| 0 <= i < |vs| && PassedBefore(vs, wanted, i) && VersionTest(vs[i], wanted).None?;
      FirstAssetSkips(vs, wanted, i);
      assert vs[i..][0] == vs[i];
      AbortsAtBadName(vs[i..], wanted);
    }
  }

  /** An abort is the first element's, or the first element is passed over
      and the rest aborts. */
  lemma AbortsHead(vs: seq<Json>, wanted: Option<string>)
    requires FirstAsset(vs, wanted) == Aborts
    ensures vs != []
    ensures VersionTest(vs[0], wanted).None? || (Passes(vs[0], wanted) && FirstAsset(vs[1..], wanted) == Aborts)
  {
  }

  lemma AbortsAtBadName(vs: seq<Json>, wanted: Option<string>)
    requires vs != [] && VersionTest(vs[0], wanted).None?
    ensures FirstAsset(vs, wanted) == Aborts
  {
  }

  /** The loop runs to the end exactly when it passes over every element. */
  lemma ExhaustedPassesAll(vs: seq<Json>, wanted: Option<string>)
    ensures FirstAsset(vs, wanted) == Exhausted <==> PassedBefore(vs, wanted, |vs|)
  {
    if PassedBefore(vs, wanted, |vs|) {
      FirstAssetSkips(vs, wanted, |vs|);
      assert vs[|vs|..] == [];
    } else {
      var i :| 0 <= i < |vs| && !Passes(vs[i], wanted);
      var k := FirstFailing(vs, wanted, i);
      FirstAssetSkips(vs, wanted, k);
      assert vs[k..][0] == vs[k];
      StopsAtFailing(vs[k..], wanted);
    }
  }

  /** An element that is not passed over ends the scan there. */
  lemma StopsAtFailing(vs: seq<Json>, wanted: Option<string>)
    requires vs != [] && !Passes(vs[0], wanted)
    ensures FirstAsset(vs, wanted) != Exhausted
  {
  }

  /** The first element that is not passed over, given that one exists. */
  lemma {:induction false} FirstFailing(vs: seq<Json>, wanted: Option<string>, i: int) returns (k: int)
    requires 0 <= i < |vs| && !Passes(vs[i], wanted)
    ensures 0 <= k <= i && PassedBefore(vs, wanted, k) && !Passes(vs[k], wanted)
    decreases i
  {
    if PassedBefore(vs, wanted, i) {
      k := i;
    } else {
      var j :| 0 <= j < i && !Passes(vs[j], wanted);
      k := FirstFailing(vs, wanted, j);
    }
  }

  /** The file name is the app string followed by ".xapk" exactly when the
      asset type is "XAPK", and by ".apk" otherwise. */
  lemma XapkExactly(appString: string, kind: string)
    ensures FileNameFor(appString, kind)[..|appString|] == appString
    ensures FileNameFor(appString, kind)[|appString|..] == (if kind == "XAPK" then ".xapk" else ".apk")
    ensures FileNameFor(appString, kind)[|appString|..] == ".xapk" <==> kind == "XAPK"
  {
    assert ".apk" != ".xapk";
    assert (appString + ".apk")[|appString|..] == ".apk";
    assert (appString + ".xapk")[|appString|..] == ".xapk";
  }

  /** A chosen download has a non-empty URL, picked by the scan, and its
      file name follows the asset type. */
  lemma ChoiceOk(status: nat, body: Option<Json>, appString: string, wanted: Option<string>, c: Chosen)
    ensures Choice(status, body, appString, wanted) == Ok(c) <==>
      && status == 200 && body.Some?
      && exists kind :: ScanOf(body.value, wanted) == Picked(c.url, kind) && c.url != "" && c.fileName == FileNameFor(appString, kind)
  {
    if status == 200 && body.Some? && ScanOf(body.value, wanted).Picked? {
      var kind := ScanOf(body.value, wanted).kind;
      assert ScanOf(body.value, wanted) == Picked(ScanOf(body.value, wanted).url, kind);
    }
  }

  /** A bad status or a body that is not JSON is reported for the app and
      nothing further is looked at. */
  lemma ResponseErrors(status: nat, body: Option<Json>, appString: string, wanted: Option<string>)
    ensures Choice(status, body, appString, wanted) == Err(InvalidAppResponse) <==> status != 200
    ensures Choice(status, body, appString, wanted) == Err(InvalidAppJson) <==> status == 200 && body.None?
  {
  }

  /** Without a requested version the choice never aborts. */
  lemma NoAbortWithoutVersion(status: nat, body: Option<Json>, appString: string)
    ensures Choice(status, body, appString, None) != Err(Aborted)
  {
    if status == 200 && body.Some? {
      match Get(body.value, "version_list")
      case Some(Array(vs)) => AbortsIsFirstBadName(vs, None);
      case _ =>
    }
  }

  /** Each app's outcome depends only on the answer to its own request. */
  lemma OutcomePerApp(options: Options, app: (string, Option<string>),
                      respond1: string -> (nat, Option<Json>), respond2: string -> (nat, Option<Json>))
    requires respond1(VersionsUrl(app.0)) == respond2(VersionsUrl(app.0))
    ensures AppOutcome(options, app, respond1) == AppOutcome(options, app, respond2)
  {
  }

  // -------------------------------------------------------------------
  // Listing versions.

  /** The string `version_name`s of the body's `version_list`. */
  function ListedNames(body: Json): set<string> {
    match Get(body, "version_list")
    case Some(Array(vs)) => set i | 0 <= i < |vs| && GetStr(vs[i], "version_name").Some? :: GetStr(vs[i], "version_name").value
    case _ => {}
  }

  /** `list_versions` for one app: the names collected into a set, sorted
      and reversed. */
  method ListVersions(status: nat, body: Option<Json>) returns (r: Result<seq<string>, Failure>)
    ensures r == Err(InvalidAppResponse) <==> status != 200
    ensures r == Err(InvalidAppJson) <==> status == 200 && body.None?
    ensures r.Ok? <==> status == 200 && body.Some?
    ensures r.Ok? ==> StrictlyDescending(r.value) && forall y :: y in r.value <==> y in ListedNames(body.value)
  {
    if status != 200 {
      return Err(InvalidAppResponse);
    }
    if body.None? {
      return Err(InvalidAppJson);
    }
    var versions: set<string> := {};
    var list := Get(body.value, "version_list");
    if list.Some? && list.value.Array? {
      var vs := list.value.items;
      for i := 0 to |vs|
        invariant versions == set k | 0 <= k < i && GetStr(vs[k], "version_name").Some? :: GetStr(vs[k], "version_name").value
      {
        var name := GetStr(vs[i], "version_name");
        if name.Some? {
          versions := versions + {name.value};
        }
      }
    }
    var sorted := SortedFromSet(versions);
    ReverseAscending(sorted);
    return Ok(Reverse(sorted));
  }
}
