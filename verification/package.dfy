/**
 * The statistics `pypi stat` prints for one package, computed from its
 * release listing: per-version download totals (`version_downloads`), the
 * version keys (`versions`), the overall total (`downloads`), the versions
 * with the fewest and the most downloads, and the truncated average.
 */
module Package {
  import opened Wrappers
  import opened Releases
  import Arith

  /** One entry of the `version_downloads` ordered dict. */
  datatype VersionCount = VersionCount(version: string, downloads: nat)

  /** The `(version, downloads)` pair `min_version` / `max_version` return; `(None, 0)` when there is no version. */
  datatype Extreme = Extreme(version: Option<string>, downloads: nat)

  /** Why `stat` gives up on a package. */
  datatype StatError = NoReleases

  /** The figures `stat` prints for a package that has releases. */
  datatype Summary = Summary(
    minVersion: string, minDownloads: nat,
    maxVersion: string, maxDownloads: nat,
    average: nat, total: nat)

  /** `sum(file_['downloads'] for file_ in files)`. */
  function FileDownloads(files: seq<FileInfo>): nat
    decreases |files|
  {
    if |files| == 0 then 0 else files[0].downloads + FileDownloads(files[1..])
  }

  /** The downloads of every file of every release in s, releases without files included. */
  function AllFileDownloads(s: seq<Release>): nat
    decreases |s|
  {
    if |s| == 0 then 0 else FileDownloads(s[0].files) + AllFileDownloads(s[1..])
  }

  /** The loop of `version_downloads` over an ordered listing. */
  function CountsOf(info: seq<Release>): (vd: seq<VersionCount>)
    ensures |vd| == |info|
    ensures forall i :: 0 <= i < |vd| ==>
      vd[i].version == info[i].version && vd[i].downloads == FileDownloads(info[i].files)
    decreases |info|
  {
    if |info| == 0 then []
    else [VersionCount(info[0].version, FileDownloads(info[0].files))] + CountsOf(info[1..])
  }

  /** `Package.version_downloads`. */
  function VersionDownloads(raw: seq<Release>): seq<VersionCount>
  {
    CountsOf(ReleaseInfo(raw))
  }

  /** The keys of an ordered count dict, in order. */
  function Keys(vd: seq<VersionCount>): (ks: seq<string>)
    ensures |ks| == |vd|
  {
    seq(|vd|, i requires 0 <= i < |vd| => vd[i].version)
  }

  /** `Package.versions`: the version of every `release_info` entry, in order. */
  function Versions(raw: seq<Release>): (vs: seq<string>)
    ensures |vs| == |ReleaseInfo(raw)|
  {
    var info := ReleaseInfo(raw);
    seq(|info|, i requires 0 <= i < |info| => info[i].version)
  }

  /**
   * `version_downloads` has one entry per `release_info` entry, in the same
   * order, each summing its release's files; its keys are `versions`, and
   * they are distinct when the input's versions are.
   */
  lemma VersionDownloadsShape(raw: seq<Release>)
    ensures var vd, info := VersionDownloads(raw), ReleaseInfo(raw);
      && |vd| == |info|
      && (forall i :: 0 <= i < |vd| ==>
            vd[i] == VersionCount(info[i].version, FileDownloads(info[i].files)))
      && Keys(vd) == Versions(raw)
    ensures DistinctVersions(raw) ==>
      var ks := Keys(VersionDownloads(raw));
      forall i, j :: 0 <= i < j < |ks| ==> ks[i] != ks[j]
  {
    if DistinctVersions(raw) {
      ReleaseInfoDistinct(raw);
    }
  }

  /** `sum(d.values())` for an ordered count dict. */
  function Total(vd: seq<VersionCount>): (t: nat)
    ensures forall i :: 0 <= i < |vd| ==> vd[i].downloads <= t
    ensures |vd| == 0 ==> t == 0
    decreases |vd|
  {
    if |vd| == 0 then 0 else vd[0].downloads + Total(vd[1..])
  }

  /** `Package.downloads`. */
  function Downloads(raw: seq<Release>): nat
  {
    Total(VersionDownloads(raw))
  }

  lemma {:induction false} TotalOfCounts(info: seq<Release>)
    ensures Total(CountsOf(info)) == AllFileDownloads(info)
    decreases |info|
  {
    if |info| > 0 {
      TotalOfCounts(info[1..]);
      assert CountsOf(info)[1..] == CountsOf(info[1..]);
    }
  }

  lemma {:induction false} WithFilesDownloads(raw: seq<Release>)
    ensures AllFileDownloads(WithFiles(raw)) == AllFileDownloads(raw)
    decreases |raw|
  {
    if |raw| > 0 {
      WithFilesDownloads(raw[1..]);
      if raw[0].files != [] {
        assert ([raw[0]] + WithFiles(raw[1..]))[1..] == WithFiles(raw[1..]);
      }
    }
  }

  lemma {:induction false} InsertDownloads(x: Release, t: seq<Release>)
    requires x.files != [] && AllHaveFiles(t)
    ensures AllFileDownloads(Insert(x, t)) == FileDownloads(x.files) + AllFileDownloads(t)
    decreases |t|
  {
    var s := Insert(x, t);
    if |t| > 0 {
      if Text.LessEq(FirstUpload(x), FirstUpload(t[0])) {
        assert s[1..] == t;
      } else {
        InsertDownloads(x, t[1..]);
        assert s[1..] == Insert(x, t[1..]);
      }
    }
  }

  lemma {:induction false} SortDownloads(s: seq<Release>)
    requires AllHaveFiles(s)
    ensures AllFileDownloads(SortByUpload(s)) == AllFileDownloads(s)
    decreases |s|
  {
    if |s| > 0 {
      SortDownloads(s[1..]);
      InsertDownloads(s[0], SortByUpload(s[1..]));
    }
  }

  /**
   * `downloads` counts every file of the input exactly once: dropping the
   * versions without files and reordering the rest loses nothing. With no
   * releases at all it is 0.
   */
  lemma DownloadsCountsEveryFile(raw: seq<Release>)
    ensures Downloads(raw) == AllFileDownloads(raw)
    ensures |ReleaseInfo(raw)| == 0 ==> Downloads(raw) == 0
  {
    TotalOfCounts(ReleaseInfo(raw));
    SortDownloads(WithFiles(raw));
    WithFilesDownloads(raw);
  }

  /** k is the first entry with the fewest downloads (CPython's `min` keeps the first). */
  predicate IsFirstMin(vd: seq<VersionCount>, k: int)
  {
    && 0 <= k < |vd|
    && (forall j :: 0 <= j < |vd| ==> vd[k].downloads <= vd[j].downloads)
    && (forall j :: 0 <= j < k ==> vd[j].downloads > vd[k].downloads)
  }

  /** k is the first entry with the most downloads (CPython's `max` keeps the first). */
  predicate IsFirstMax(vd: seq<VersionCount>, k: int)
  {
    && 0 <= k < |vd|
    && (forall j :: 0 <= j < |vd| ==> vd[j].downloads <= vd[k].downloads)
    && (forall j :: 0 <= j < k ==> vd[j].downloads < vd[k].downloads)
  }

  /** The left-to-right scan of `min`, replacing the candidate only on a strictly smaller count. */
  function MinIndex(vd: seq<VersionCount>): (k: nat)
    requires |vd| > 0
    ensures IsFirstMin(vd, k)
    decreases |vd|
  {
    if |vd| == 1 then 0
    else
      var k := MinIndex(vd[..|vd| - 1]);
      if vd[|vd| - 1].downloads < vd[k].downloads then |vd| - 1 else k
  }

  /** The left-to-right scan of `max`, replacing the candidate only on a strictly larger count. */
  function MaxIndex(vd: seq<VersionCount>): (k: nat)
    requires |vd| > 0
    ensures IsFirstMax(vd, k)
    decreases |vd|
  {
    if |vd| == 1 then 0
    else
      var k := MaxIndex(vd[..|vd| - 1]);
      if vd[|vd| - 1].downloads > vd[k].downloads then |vd| - 1 else k
  }

  /** `min(data.items(), key=count)`, or `(None, 0)` for an empty dict. */
  function MinOf(vd: seq<VersionCount>): (m: Extreme)
    ensures |vd| == 0 <==> m == Extreme(None, 0)
    ensures |vd| > 0 ==>
      exists k :: IsFirstMin(vd, k) && m == Extreme(Some(vd[k].version), vd[k].downloads)
  {
    if |vd| == 0 then Extreme(None, 0)
    else
      var k := MinIndex(vd);
      Extreme(Some(vd[k].version), vd[k].downloads)
  }

  /** `max(data.items(), key=count)`, or `(None, 0)` for an empty dict. */
  function MaxOf(vd: seq<VersionCount>): (m: Extreme)
    ensures |vd| == 0 <==> m == Extreme(None, 0)
    ensures |vd| > 0 ==>
      exists k :: IsFirstMax(vd, k) && m == Extreme(Some(vd[k].version), vd[k].downloads)
  {
    if |vd| == 0 then Extreme(None, 0)
    else
      var k := MaxIndex(vd);
      Extreme(Some(vd[k].version), vd[k].downloads)
  }

  /** `Package.min_version`. */
  function MinVersion(raw: seq<Release>): Extreme
  {
    MinOf(VersionDownloads(raw))
  }

  /** `Package.max_version`. */
  function MaxVersion(raw: seq<Release>): Extreme
  {
    MaxOf(VersionDownloads(raw))
  }

  /** Integer division of a non-negative total by a positive count, as `int(total / n)` truncates it. */
  function TruncatedDiv(total: nat, n: nat): (q: nat)
    requires n > 0
    ensures q * n <= total < (q + 1) * n
  {
    var q := total / n;
    assert total == q * n + total % n;
    q
  }

  /**
   * `Package.average_downloads`: `int(downloads / len(versions))`, the
   * average truncated toward zero. Python raises on an empty listing.
   */
  function AverageDownloads(raw: seq<Release>): (avg: nat)
    requires |ReleaseInfo(raw)| > 0
    ensures avg * |Versions(raw)| <= Downloads(raw) < (avg + 1) * |Versions(raw)|
  {
    TruncatedDiv(Downloads(raw), |Versions(raw)|)
  }

  /** A truncated quotient of a total bounded by n * lo and n * hi lies between lo and hi. */
  lemma QuotientBetween(t: nat, n: nat, lo: nat, hi: nat)
    requires n > 0
    requires n * lo <= t <= n * hi
    ensures lo <= TruncatedDiv(t, n) <= hi
  {
    var q := TruncatedDiv(t, n);
    QuotientAtLeast(t, n, q, lo);
    QuotientAtMost(t, n, q, hi);
  }

  lemma QuotientAtLeast(t: nat, n: nat, q: nat, lo: nat)
    requires n > 0 && n * lo <= t < (q + 1) * n
    ensures lo <= q
  {
    if q + 1 <= lo {
      Arith.MulMonotone(q + 1, lo, n);
    }
  }

  lemma QuotientAtMost(t: nat, n: nat, q: nat, hi: nat)
    requires n > 0 && q * n <= t <= n * hi
    ensures q <= hi
  {
    if hi + 1 <= q {
      Arith.MulMonotone(hi + 1, q, n);
    }
  }

  /** The total lies between the count of entries times the least and times the greatest download count. */
  lemma {:induction false} TotalBounds(vd: seq<VersionCount>, lo: nat, hi: nat)
    requires forall i :: 0 <= i < |vd| ==> lo <= vd[i].downloads <= hi
    ensures |vd| * lo <= Total(vd) <= |vd| * hi
    decreases |vd|
  {
    if |vd| > 0 {
      var n := |vd[1..]|;
      TotalBounds(vd[1..], lo, hi);
      assert Total(vd) == vd[0].downloads + Total(vd[1..]);
      Arith.MulSucc(n, lo);
      Arith.MulSucc(n, hi);
    }
  }

  /** The average never leaves the range from the fewest to the most downloads of a version. */
  lemma AverageOfCounts(vd: seq<VersionCount>)
    requires |vd| > 0
    ensures vd[MinIndex(vd)].downloads <= TruncatedDiv(Total(vd), |vd|) <= vd[MaxIndex(vd)].downloads
  {
    var kMin, kMax := MinIndex(vd), MaxIndex(vd);
    assert IsFirstMin(vd, kMin) && IsFirstMax(vd, kMax);
    var lo, hi := vd[kMin].downloads, vd[kMax].downloads;
    TotalBounds(vd, lo, hi);
    QuotientBetween(Total(vd), |vd|, lo, hi);
  }

  lemma AverageBetweenMinAndMax(raw: seq<Release>)
    requires |ReleaseInfo(raw)| > 0
    ensures MinVersion(raw).downloads <= AverageDownloads(raw) <= MaxVersion(raw).downloads
  {
    var vd := VersionDownloads(raw);
    assert |Versions(raw)| == |vd|;
    assert AverageDownloads(raw) == TruncatedDiv(Total(vd), |vd|);
    assert MinVersion(raw).downloads == vd[MinIndex(vd)].downloads;
    assert MaxVersion(raw).downloads == vd[MaxIndex(vd)].downloads;
    AverageOfCounts(vd);
  }

  /** The figures `stat` prints, once both extremes are known to exist. */
  function Figures(raw: seq<Release>): Summary
    requires MinVersion(raw).version.Some? && MaxVersion(raw).version.Some?
  {
    var lo, hi := MinVersion(raw), MaxVersion(raw);
    assert |VersionDownloads(raw)| > 0;
    Summary(lo.version.value, lo.downloads, hi.version.value, hi.downloads,
            AverageDownloads(raw), Downloads(raw))
  }

  /** With no version left, no release has a file. */
  lemma NoExtremeNoFiles(raw: seq<Release>)
    requires MinVersion(raw).version.None? || MaxVersion(raw).version.None?
    ensures forall i :: 0 <= i < |raw| ==> raw[i].files == []
  {
    ReleaseInfoContents(raw);
    forall i | 0 <= i < |raw|
      ensures raw[i].files == []
    {
      assert raw[i] in raw;
    }
  }

  /** The printed versions are versions of the listing that have files. */
  lemma FiguresVersions(raw: seq<Release>)
    requires MinVersion(raw).version.Some? && MaxVersion(raw).version.Some?
    ensures var v := Figures(raw);
      && (exists i :: 0 <= i < |raw| && raw[i].version == v.minVersion && raw[i].files != [])
      && (exists i :: 0 <= i < |raw| && raw[i].version == v.maxVersion && raw[i].files != [])
  {
    var info, vd := ReleaseInfo(raw), VersionDownloads(raw);
    ReleaseInfoContents(raw);
    var kmin, kmax := MinIndex(vd), MaxIndex(vd);
    assert info[kmin] in info && info[kmax] in info;
  }

  /** The printed extremes are the first fewest- and most-downloaded entries of `version_downloads`. */
  lemma FiguresExtremes(raw: seq<Release>)
    requires MinVersion(raw).version.Some? && MaxVersion(raw).version.Some?
    ensures var vd, v := VersionDownloads(raw), Figures(raw);
      && (exists k :: IsFirstMin(vd, k) && vd[k] == VersionCount(v.minVersion, v.minDownloads))
      && (exists k :: IsFirstMax(vd, k) && vd[k] == VersionCount(v.maxVersion, v.maxDownloads))
  {
    var vd := VersionDownloads(raw);
    var kmin, kmax := MinIndex(vd), MaxIndex(vd);
    assert IsFirstMin(vd, kmin) && IsFirstMax(vd, kmax);
  }

  /**
   * The printed total counts every file, and the printed average is that total
   * over the number of versions, truncated, between the two extremes.
   */
  lemma FiguresAverage(raw: seq<Release>)
    requires MinVersion(raw).version.Some? && MaxVersion(raw).version.Some?
    ensures var vd, v := VersionDownloads(raw), Figures(raw);
      && v.minDownloads <= v.average <= v.maxDownloads
      && v.total == AllFileDownloads(raw)
      && |vd| > 0 && v.average == TruncatedDiv(v.total, |vd|)
  {
    assert |ReleaseInfo(raw)| == |VersionDownloads(raw)| == |Versions(raw)|;
    AverageBetweenMinAndMax(raw);
    DownloadsCountsEveryFile(raw);
  }

  /**
   * The `stat` command's guard and figures for one fetched package: it fails
   * exactly when no version has any file; otherwise the extremes are the
   * first fewest- and most-downloaded entries of `version_downloads`, the
   * average is the total divided by the number of versions and truncated,
   * it sits between the extremes, and the total counts every file.
   */
  function Stat(raw: seq<Release>): (r: Result<Summary, StatError>)
    ensures r.Failure? <==> forall i :: 0 <= i < |raw| ==> raw[i].files == []
    ensures r.Success? ==>
      && (exists i :: 0 <= i < |raw| && raw[i].version == r.value.minVersion && raw[i].files != [])
      && (exists i :: 0 <= i < |raw| && raw[i].version == r.value.maxVersion && raw[i].files != [])
      && r.value.minDownloads <= r.value.average <= r.value.maxDownloads
      && r.value.total == AllFileDownloads(raw)
    ensures r.Success? ==>
      var vd, v := VersionDownloads(raw), r.value;
      && (exists k :: IsFirstMin(vd, k) && vd[k] == VersionCount(v.minVersion, v.minDownloads))
      && (exists k :: IsFirstMax(vd, k) && vd[k] == VersionCount(v.maxVersion, v.maxDownloads))
      && |vd| > 0 && v.average == TruncatedDiv(v.total, |vd|)
  {
    if MinVersion(raw).version.None? || MaxVersion(raw).version.None? then
      NoExtremeNoFiles(raw);
      Failure(NoReleases)
    else
      FiguresVersions(raw);
      FiguresExtremes(raw);
      FiguresAverage(raw);
      Success(Figures(raw))
  }
}
