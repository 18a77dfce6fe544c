/** The app lists the downloader can start from (`fetch_list`), and the
    clean-up of a displayed file name before it is used on disk. */
module AppList {
  import opened Wrappers
  import opened Text

  // -------------------------------------------------------------------
  // App lists.

  datatype ListSource = AndroidRank | Isdi

  const AndroidRankUrl := "https://www.androidrank.org/applist.csv"
  const IsdiUrl := "https://raw.githubusercontent.com/stopipv/isdi/master/static_data/app-flags.csv"

  function ListUrl(source: ListSource): string {
    match source
    case AndroidRank => AndroidRankUrl
    case Isdi => IsdiUrl
  }

  /** The comma-separated fields of a line, the line trimmed first; the
      fields themselves are not trimmed. */
  function Fields(line: string): seq<string> {
    Split(Trim(line), ',')
  }

  /** What one line of the list yields: nothing unless it has more than two
      fields; then the first field, and for ISDi only when the second field
      is exactly "playstore". */
  function LineEntry(source: ListSource, line: string): Option<string> {
    var fields := Fields(line);
    if |fields| <= 2 then None
    else match source
      case AndroidRank => Some(fields[0])
      case Isdi => if fields[1] == "playstore" then Some(fields[0]) else None
  }

  /** The present values, in order (`filter_map` followed by `collect`). */
  function Present(xs: seq<Option<string>>): seq<string>
    decreases |xs|
  {
    if xs == [] then []
    else (if xs[0].Some? then [xs[0].value] else []) + Present(xs[1..])
  }

  /** What each line yields, line by line. */
  function LineEntries(source: ListSource, lines: seq<string>): (r: seq<Option<string>>)
    ensures |r| == |lines| && forall i :: 0 <= i < |lines| ==> r[i] == LineEntry(source, lines[i])
  {
    seq(|lines|, i requires 0 <= i < |lines| => LineEntry(source, lines[i]))
  }

  /** The entries of the lines, in line order. */
  function Entries(source: ListSource, lines: seq<string>): seq<string> {
    Present(LineEntries(source, lines))
  }

  datatype ListError = ListUnavailable // the request, its status or its body failed

  /** `fetch_list`: `get` stands for the request, `None` when it fails or
      the status is an error. */
  function FetchList(source: ListSource, get: string -> Option<string>): Result<seq<string>, ListError> {
    match get(ListUrl(source))
    case None => Err(ListUnavailable)
    case Some(body) => Ok(Entries(source, Split(body, '\n')))
  }

  // ---------------------------------------------------------- properties

  lemma {:induction false} PresentAppend(a: seq<Option<string>>, b: seq<Option<string>>)
    ensures Present(a + b) == Present(a) + Present(b)
    decreases |a|
  {
    if a == [] {
      assert a + b == b;
    } else {
      assert (a + b)[0] == a[0] && (a + b)[1..] == a[1..] + b;
      PresentAppend(a[1..], b);
    }
  }

  lemma {:induction false} PresentMembers(xs: seq<Option<string>>, id: string)
    ensures id in Present(xs) <==> exists i :: 0 <= i < |xs| && xs[i] == Some(id)
    decreases |xs|
  {
    if xs != [] {
      PresentMembers(xs[1..], id);
      if exists i :: 0 <= i < |xs| && xs[i] == Some(id) {
        var i :| 0 <= i < |xs| && xs[i] == Some(id);
        if i > 0 { assert xs[1..][i - 1] == xs[i]; }
      }
      if exists i :: 0 <= i < |xs[1..]| && xs[1..][i] == Some(id) {
        var i :| 0 <= i < |xs[1..]| && xs[1..][i] == Some(id);
        assert xs[i + 1] == xs[1..][i];
      }
    }
  }

  /** The entries of two runs of lines are the entries of each, in order. */
  lemma EntriesAppend(source: ListSource, a: seq<string>, b: seq<string>)
    ensures Entries(source, a + b) == Entries(source, a) + Entries(source, b)
  {
    LineEntriesAppend(source, a, b);
    PresentAppend(LineEntries(source, a), LineEntries(source, b));
  }

  lemma LineEntriesAppend(source: ListSource, a: seq<string>, b: seq<string>)
    ensures LineEntries(source, a + b) == LineEntries(source, a) + LineEntries(source, b)
  {
    var ab, ea, eb := LineEntries(source, a + b), LineEntries(source, a), LineEntries(source, b);
    forall i | 0 <= i < |ab|
      ensures ab[i] == (ea + eb)[i]
    {
      if i < |a| {
        assert (a + b)[i] == a[i];
      } else {
        assert (a + b)[i] == b[i - |a|];
      }
    }
  }

  /** An id is listed exactly when some line yields it. */
  lemma EntriesMembers(source: ListSource, lines: seq<string>, id: string)
    ensures id in Entries(source, lines) <==> exists i :: 0 <= i < |lines| && LineEntry(source, lines[i]) == Some(id)
  {
    PresentMembers(LineEntries(source, lines), id);
  }

  /** A yielded id is the text of the trimmed line before its first comma. */
  lemma FirstFieldOfLine(source: ListSource, line: string, id: string)
    requires LineEntry(source, line) == Some(id)
    ensures ',' !in id
    ensures |id| < |Trim(line)| && Trim(line)[..|id|] == id && Trim(line)[|id|] == ','
  {
    var fields := Fields(line);
    JoinSplit(Trim(line), ',');
    assert Join(fields, ',') == fields[0] + [','] + Join(fields[1..], ',');
  }

  /** ISDi yields a line's id exactly when AndroidRank would and the second
      field is "playstore". */
  lemma IsdiNarrowsAndroidRank(line: string, id: string)
    ensures LineEntry(Isdi, line) == Some(id) <==>
      LineEntry(AndroidRank, line) == Some(id) && Fields(line)[1] == "playstore"
  {
  }

  /** A second field with a leading space is not "playstore". */
  lemma PaddedPlaystoreRejected(line: string, id: string)
    requires |Fields(line)| > 2 && Fields(line)[1] == " playstore"
    ensures LineEntry(Isdi, line) == None
    ensures LineEntry(AndroidRank, line) == Some(Fields(line)[0])
  {
    assert " playstore" != "playstore";
  }

  /** A failed request is an error, not an empty list. */
  lemma FailedRequestIsError(source: ListSource, get: string -> Option<string>)
    ensures FetchList(source, get).Err? <==> get(ListUrl(source)).None?
  {
  }

  // -------------------------------------------------------------------
  // The size suffix of a displayed file name.

  predicate SizeChar(c: char) {
    '0' <= c <= '9' || c == '.'
  }

  /** A text the pattern ` \([0-9.]+ MB\)` matches as a whole. */
  predicate SizeSuffix(t: string) {
    && |t| >= 7
    && t[..2] == " (" && t[|t| - 4..] == " MB)"
    && forall i :: 2 <= i < |t| - 4 ==> SizeChar(t[i])
  }

  /** Where the run of size characters that ends at `j` starts. */
  function RunStart(s: string, j: nat): (k: nat)
    requires j <= |s|
    ensures k <= j && forall i :: k <= i < j ==> SizeChar(s[i])
    ensures k == 0 || !SizeChar(s[k - 1])
    decreases j
  {
    if j > 0 && SizeChar(s[j - 1]) then RunStart(s, j - 1) else j
  }

  /** The name with a final ` (<digits and dots> MB)` removed (the pattern
      is anchored at the end, so only a suffix can go). */
  function StripSizeSuffix(name: string): (r: string)
    ensures |r| <= |name| && r == name[..|r|]
  {
    if |name| < 7 || name[|name| - 4..] != " MB)" then name
    else
      var j := |name| - 4;
      var k := RunStart(name, j);
      if 2 <= k < j && name[k - 2..k] == " (" then name[..k - 2] else name
  }

  lemma RunStartUnique(s: string, j: nat, k: nat)
    requires k <= j <= |s| && (forall i :: k <= i < j ==> SizeChar(s[i])) && (k == 0 || !SizeChar(s[k - 1]))
    ensures RunStart(s, j) == k
  {
  }

  /** A size suffix is removed, whatever comes before it. */
  lemma StripRemovesSuffix(prefix: string, t: string)
    requires SizeSuffix(t)
    ensures StripSizeSuffix(prefix + t) == prefix
  {
    var s := prefix + t;
    var n := |prefix|;
    assert s[|s| - 4..] == t[|t| - 4..];
    assert forall i :: n + 2 <= i < |s| - 4 ==> s[i] == t[i - n];
    assert s[n + 1] == t[1] == '(';
    RunStartUnique(s, |s| - 4, n + 2);
    assert s[n..n + 2] == t[..2];
    StripAt(s, n + 2);
    assert s[..n] == prefix;
  }

  /** The suffix goes when the run of size characters before " MB)" is
      non-empty and follows " (". */
  lemma StripAt(name: string, k: nat)
    requires |name| >= 7 && name[|name| - 4..] == " MB)"
    requires RunStart(name, |name| - 4) == k && 2 <= k < |name| - 4 && name[k - 2..k] == " ("
    ensures StripSizeSuffix(name) == name[..k - 2]
  {
  }

  /** What is removed is a size suffix. */
  lemma StripRemovesOnlySuffix(name: string)
    requires StripSizeSuffix(name) != name
    ensures SizeSuffix(name[|StripSizeSuffix(name)|..])
  {
    var j := |name| - 4;
    var k := RunStart(name, j);
    var t := name[k - 2..];
    assert t[..2] == name[k - 2..k];
    assert t[|t| - 4..] == name[|name| - 4..];
    assert forall i :: 2 <= i < |t| - 4 ==> t[i] == name[k - 2 + i];
  }

  /** The name changes exactly when it ends with a size suffix, and then
      exactly that suffix goes. */
  lemma StripOnlySuffix(name: string)
    ensures StripSizeSuffix(name) != name <==> exists k :: 0 <= k <= |name| && SizeSuffix(name[k..])
    ensures StripSizeSuffix(name) != name ==> SizeSuffix(name[|StripSizeSuffix(name)|..])
  {
    if StripSizeSuffix(name) != name {
      StripRemovesOnlySuffix(name);
    }
    if exists k :: 0 <= k <= |name| && SizeSuffix(name[k..]) {
      var k :| 0 <= k <= |name| && SizeSuffix(name[k..]);
      SuffixAtStripped(name, k);
    }
  }

  lemma SuffixAtStripped(name: string, k: nat)
    requires k <= |name| && SizeSuffix(name[k..])
    ensures StripSizeSuffix(name) == name[..k] != name
  {
    StripRemovesSuffix(name[..k], name[k..]);
    assert name[..k] + name[k..] == name;
  }
}
