/** The scanner host's scan listing as this system reads it: picking the
    latest scan (`_get_latest_scan_info`) and matching a requested artifact
    name against the enclosure links (`download_file`). The listing is the
    already-parsed `_embedded` collection, in its JSON order. */
module ScanDirectory {
  import opened Common

  /** One entry of the listing: its `name`, its `recordingTime` (missing or
      null is `None`) and its `_links.enclosure.href` (missing or null is
      `None`). */
  datatype ScanRecord = ScanRecord(name: Option<string>, recordingTime: Option<int>, enclosureHref: Option<string>)

  /** The ordering key: a missing or null `recordingTime` counts as -1. */
  function TimeOf(r: ScanRecord): (t: int)
    ensures r.recordingTime.None? ==> t == -1
    ensures r.recordingTime.Some? ==> t == r.recordingTime.value
  {
    if r.recordingTime.None? then -1 else r.recordingTime.value
  }

  /** The enclosure link, with a missing one read as "". */
  function HrefOf(r: ScanRecord): (h: string)
    ensures r.enclosureHref.None? ==> h == ""
    ensures r.enclosureHref.Some? ==> h == r.enclosureHref.value
  {
    if r.enclosureHref.None? then "" else r.enclosureHref.value
  }

  /** The running maximum of the selection loop, over the records in listing
      order: a record replaces the current choice only when its time is
      strictly greater, starting from the time -1. Gives the index chosen. */
  function Latest(rs: seq<ScanRecord>): (r: Option<nat>)
    ensures r.Some? ==> r.value < |rs| && TimeOf(rs[r.value]) > -1
    ensures r.Some? ==> forall j :: 0 <= j < |rs| ==> TimeOf(rs[j]) <= TimeOf(rs[r.value])
    ensures r.Some? ==> forall j :: 0 <= j < r.value ==> TimeOf(rs[j]) < TimeOf(rs[r.value])
    ensures r.None? <==> forall j :: 0 <= j < |rs| ==> TimeOf(rs[j]) <= -1
  {
    if rs == [] then None
    else
      var best := Latest(rs[..|rs| - 1]);
      var bestTime := if best.None? then -1 else TimeOf(rs[best.value]);
      if TimeOf(rs[|rs| - 1]) > bestTime then Some(|rs| - 1) else best
  }

  /** `href.split("/")[-1]`: the text after the last `/`, or all of it. */
  function LastSegment(s: string): (r: string)
    ensures |r| <= |s| && forall i :: 0 <= i < |r| ==> r[i] == s[|s| - |r| + i]
    ensures forall i :: 0 <= i < |r| ==> r[i] != '/'
    ensures |r| < |s| ==> s[|s| - |r| - 1] == '/'
  {
    if s == [] then []
    else if s[|s| - 1] == '/' then []
    else LastSegment(s[..|s| - 1]) + [s[|s| - 1]]
  }

  /** The download name derived from an enclosure link: none when the link
      is missing or empty. */
  function DownloadName(href: Option<string>): (r: Option<string>)
    ensures r.None? <==> href.None? || href.value == ""
    ensures r.Some? ==> r.value == LastSegment(href.value)
  {
    if href.None? || href.value == "" then None else Some(LastSegment(href.value))
  }

  /** `_get_latest_scan_info` on a fetched listing: (display name, download
      name) of the latest scan, or (None, None). */
  function LatestScanInfo(rs: seq<ScanRecord>): (r: (Option<string>, Option<string>))
    ensures rs == [] ==> r == (None, None)
    ensures (forall j :: 0 <= j < |rs| ==> TimeOf(rs[j]) <= -1) ==> r == (None, None)
    ensures r.1.Some? ==>
      exists i :: 0 <= i < |rs| && r.1 == DownloadName(rs[i].enclosureHref)
                 && (forall j :: 0 <= j < |rs| ==> TimeOf(rs[j]) <= TimeOf(rs[i]))
    ensures Latest(rs).None? ==> r == (None, None)
    ensures Latest(rs).Some? ==>
      r == (rs[Latest(rs).value].name, DownloadName(rs[Latest(rs).value].enclosureHref))
  {
    match Latest(rs)
    case None => (None, None)
    case Some(i) => (rs[i].name, DownloadName(rs[i].enclosureHref))
  }

  /** The record's enclosure file name is `fileName`. */
  predicate NamesFile(r: ScanRecord, fileName: string)
  {
    LastSegment(HrefOf(r)) == fileName
  }

  /** The matching loop of `download_file`, from position `from` on: the
      index of the first record whose enclosure file name is `fileName`. */
  function FirstEnclosureMatch(rs: seq<ScanRecord>, fileName: string, from: nat): (r: Option<nat>)
    requires from <= |rs|
    ensures r.Some? ==> from <= r.value < |rs| && NamesFile(rs[r.value], fileName)
    ensures r.Some? ==> forall j :: from <= j < r.value ==> !NamesFile(rs[j], fileName)
    ensures r.None? ==> forall j :: from <= j < |rs| ==> !NamesFile(rs[j], fileName)
    decreases |rs| - from
  {
    if from == |rs| then None
    else if NamesFile(rs[from], fileName) then Some(from)
    else FirstEnclosureMatch(rs, fileName, from + 1)
  }

  /** How the listing request of `download_file` came back. */
  datatype ListingReply =
    | ListingNotOk                       // answered with a status other than 200
    | ListingRaised                      // the request raised, or the body is not JSON
    | ListingOk(records: seq<ScanRecord>)

  /** What `download_file` does with a request, up to the artifact fetch. */
  datatype DownloadDecision =
    | MissingName          // 400: no `name` argument
    | ListingUnavailable   // 502: the listing request did not answer 200
    | ListingError         // 500: the listing request raised
    | RemoteNotFound       // 404: no enclosure has that file name
    | Fetch(href: string)  // GET this enclosure link

  function ResolveDownload(fileName: Option<string>, listing: ListingReply): (d: DownloadDecision)
    ensures fileName.None? || fileName.value == "" <==> d == MissingName
    ensures d == ListingUnavailable <==> fileName.Some? && fileName.value != "" && listing.ListingNotOk?
    ensures d == ListingError <==> fileName.Some? && fileName.value != "" && listing.ListingRaised?
    ensures d.Fetch? ==>
      && listing.ListingOk? && d.href != "" && LastSegment(d.href) == fileName.value
      && exists i :: 0 <= i < |listing.records| && HrefOf(listing.records[i]) == d.href
           && forall j :: 0 <= j < i ==> !NamesFile(listing.records[j], fileName.value)
    ensures d == RemoteNotFound <==>
      && fileName.Some? && fileName.value != "" && listing.ListingOk?
      && forall i :: 0 <= i < |listing.records| ==> !NamesFile(listing.records[i], fileName.value)
  {
    if fileName.None? || fileName.value == "" then MissingName
    else if listing.ListingNotOk? then ListingUnavailable
    else if listing.ListingRaised? then ListingError
    else match FirstEnclosureMatch(listing.records, fileName.value, 0)
      case None => RemoteNotFound
      case Some(i) => Fetch(HrefOf(listing.records[i]))
  }

  /** The download name reported for the latest scan can be downloaded: the
      same listing resolves it to an enclosure with that file name. */
  lemma LatestIsDownloadable(rs: seq<ScanRecord>)
    requires LatestScanInfo(rs).1.Some? && LatestScanInfo(rs).1.value != ""
    ensures ResolveDownload(LatestScanInfo(rs).1, ListingOk(rs)).Fetch?
  {
  }

  /** A listing of scans A (time 5), B (time 9) and C (no time). */
  function ThreeScans(): seq<ScanRecord>
  {
    [ScanRecord(Some("A"), Some(5), Some("/scans/A.fls.zip")),
     ScanRecord(Some("B"), Some(9), Some("/scans/B.fls.zip")),
     ScanRecord(Some("C"), None, Some("/scans/C.fls.zip"))]
  }

  /** In that listing B is the latest scan. */
  lemma LatestOfThree()
    ensures LatestScanInfo(ThreeScans()) == (Some("B"), Some("B.fls.zip"))
  {
    var rs := ThreeScans();
    assert Latest(rs[..1]) == Some(0) by {
      assert rs[..1][..0] == [];
    }
    assert Latest(rs[..2]) == Some(1) by {
      assert rs[..2][..1] == rs[..1];
    }
    assert Latest(rs) == Some(1) by {
      assert rs[..2] == rs[..|rs| - 1];
    }
    FileNameOfB();
  }

  lemma FileNameOfB()
    ensures LastSegment("/scans/B.fls.zip") == "B.fls.zip"
  {
    var dir, file := "/scans", "B.fls.zip";
    assert forall i :: 0 <= i < |file| ==> file[i] != '/';
    LastSegmentAfterSlash(dir, file);
    assert dir + "/" + file == "/scans/B.fls.zip";
  }

  lemma LastSegmentSnoc(s: string, c: char)
    ensures LastSegment(s + [c]) == if c == '/' then [] else LastSegment(s) + [c]
  {
  }

  /** The last segment of `dir + "/" + file` is `file` when `file` has no `/`. */
  lemma {:induction false} LastSegmentAfterSlash(dir: string, file: string)
    requires forall i :: 0 <= i < |file| ==> file[i] != '/'
    ensures LastSegment(dir + "/" + file) == file
    decreases |file|
  {
    if file == [] {
      assert dir + "/" + file == dir + ['/'];
      LastSegmentSnoc(dir, '/');
    } else {
      var init, c := file[..|file| - 1], file[|file| - 1];
      assert file == init + [c];
      LastSegmentAfterSlash(dir, init);
      var p := dir + "/" + init;
      assert dir + "/" + file == p + [c];
      LastSegmentSnoc(p, c);
    }
  }
}
