/**
 * The release listing of a package: the decoded `releases` object of the
 * index's JSON (version -> list of uploaded files), and `Package.release_info`,
 * which drops the versions without files and orders the rest by the upload
 * time of their first file.
 */
module Releases {
  import Text

  /** One uploaded file of a release: its download count and raw `upload_time` string. */
  datatype FileInfo = FileInfo(downloads: nat, uploadTime: string)

  /** One entry of the `releases` mapping: a version and its files, in the order the index lists them. */
  datatype Release = Release(version: string, files: seq<FileInfo>)

  /** The sort key of `release_info`: the raw upload-time string of the first file. */
  function FirstUpload(r: Release): string
    requires r.files != []
  {
    r.files[0].uploadTime
  }

  predicate AllHaveFiles(s: seq<Release>)
  {
    forall i :: 0 <= i < |s| ==> s[i].files != []
  }

  /** Non-decreasing by first upload time, under Python's string ordering. */
  predicate SortedByUpload(s: seq<Release>)
  {
    && AllHaveFiles(s)
    && forall i, j :: 0 <= i < j < |s| ==> Text.LessEq(FirstUpload(s[i]), FirstUpload(s[j]))
  }

  /** The releases that have files and whose first upload time is k, in their order in s. */
  function WithUpload(s: seq<Release>, k: string): (t: seq<Release>)
    ensures forall r :: r in t ==> r in s && r.files != [] && FirstUpload(r) == k
    decreases |s|
  {
    if |s| == 0 then []
    else if s[0].files != [] && FirstUpload(s[0]) == k then [s[0]] + WithUpload(s[1..], k)
    else WithUpload(s[1..], k)
  }

  /** Two listings order the releases of each upload time alike. */
  ghost predicate SameTieOrder(a: seq<Release>, b: seq<Release>)
  {
    forall k :: WithUpload(a, k) == WithUpload(b, k)
  }

  /** The list comprehension that keeps the versions whose file list is non-empty. */
  function WithFiles(raw: seq<Release>): (s: seq<Release>)
    ensures AllHaveFiles(s)
    ensures forall r :: r in s <==> r in raw && r.files != []
    ensures forall k :: WithUpload(s, k) == WithUpload(raw, k)
    decreases |raw|
  {
    if |raw| == 0 then []
    else if raw[0].files != [] then [raw[0]] + WithFiles(raw[1..])
    else WithFiles(raw[1..])
  }

  /** Places x before the first release whose first upload is not earlier than x's. */
  function Insert(x: Release, t: seq<Release>): (s: seq<Release>)
    requires x.files != [] && AllHaveFiles(t)
    ensures AllHaveFiles(s)
    ensures multiset(s) == multiset(t) + multiset{x}
    decreases |t|
  {
    if |t| == 0 then [x]
    else if Text.LessEq(FirstUpload(x), FirstUpload(t[0])) then [x] + t
    else
      assert t == [t[0]] + t[1..];
      [t[0]] + Insert(x, t[1..])
  }

  /** `sorted(s, key=first upload time)`: a stable sort, written as insertion sort. */
  function SortByUpload(s: seq<Release>): (t: seq<Release>)
    requires AllHaveFiles(s)
    ensures AllHaveFiles(t)
    ensures multiset(t) == multiset(s)
    decreases |s|
  {
    if |s| == 0 then []
    else
      assert s == [s[0]] + s[1..];
      Insert(s[0], SortByUpload(s[1..]))
  }

  /** `Package.release_info`. */
  function ReleaseInfo(raw: seq<Release>): seq<Release>
  {
    SortByUpload(WithFiles(raw))
  }

  lemma {:induction false} InsertSorted(x: Release, t: seq<Release>)
    requires x.files != [] && SortedByUpload(t)
    ensures SortedByUpload(Insert(x, t))
    decreases |t|
  {
    if |t| == 0 {
      ConsSorted(x, t);
    } else if Text.LessEq(FirstUpload(x), FirstUpload(t[0])) {
      var kx := FirstUpload(x);
      forall j | 0 <= j < |t|
        ensures Text.LessEq(kx, FirstUpload(t[j]))
      {
        Text.LessEqTotalOrder(kx, FirstUpload(t[0]), FirstUpload(t[j]));
      }
      ConsSorted(x, t);
    } else {
      InsertSorted(x, t[1..]);
      InsertSortedLater(x, t);
    }
  }

  /** A release no later than every release of a sorted listing can head it. */
  lemma ConsSorted(y: Release, s: seq<Release>)
    requires y.files != [] && SortedByUpload(s)
    requires forall j :: 0 <= j < |s| ==> Text.LessEq(FirstUpload(y), FirstUpload(s[j]))
    ensures SortedByUpload([y] + s)
  {
    var c := [y] + s;
    forall i, j | 0 <= i < j < |c|
      ensures Text.LessEq(FirstUpload(c[i]), FirstUpload(c[j]))
    {
      assert c[j] == s[j - 1];
      if i > 0 {
        assert c[i] == s[i - 1];
      }
    }
  }

  /** Every release of an insertion is x or a release of t. */
  lemma {:induction false} InsertMember(x: Release, t: seq<Release>, r: Release)
    requires x.files != [] && AllHaveFiles(t)
    requires r in Insert(x, t)
    ensures r == x || r in t
    decreases |t|
  {
    if |t| > 0 && !Text.LessEq(FirstUpload(x), FirstUpload(t[0])) && r != t[0] {
      assert Insert(x, t) == [t[0]] + Insert(x, t[1..]);
      InsertMember(x, t[1..], r);
      assert t == [t[0]] + t[1..];
    }
  }

  /** The head of a sorted listing is uploaded no later than any release after it. */
  lemma SortedHeadLeast(t: seq<Release>, r: Release)
    requires SortedByUpload(t) && |t| > 0 && r in t[1..]
    ensures Text.LessEq(FirstUpload(t[0]), FirstUpload(r))
  {
    var i :| 0 <= i < |t| - 1 && t[1..][i] == r;
    assert t[i + 1] == r;
  }

  /** The step of InsertSorted when x goes after the head of t. */
  lemma InsertSortedLater(x: Release, t: seq<Release>)
    requires x.files != [] && SortedByUpload(t) && |t| > 0
    requires !Text.LessEq(FirstUpload(x), FirstUpload(t[0]))
    requires SortedByUpload(Insert(x, t[1..]))
    ensures SortedByUpload(Insert(x, t))
  {
    var rest := Insert(x, t[1..]);
    var k0 := FirstUpload(t[0]);
    forall j | 0 <= j < |rest|
      ensures Text.LessEq(k0, FirstUpload(rest[j]))
    {
      InsertMember(x, t[1..], rest[j]);
      if rest[j] == x {
        Text.LessEqTotalOrder(FirstUpload(x), k0, FirstUpload(x));
      } else {
        SortedHeadLeast(t, rest[j]);
      }
    }
    ConsSorted(t[0], rest);
  }

  lemma {:induction false} SortSorted(s: seq<Release>)
    requires AllHaveFiles(s)
    ensures SortedByUpload(SortByUpload(s))
    decreases |s|
  {
    if |s| > 0 {
      SortSorted(s[1..]);
      InsertSorted(s[0], SortByUpload(s[1..]));
    }
  }

  lemma {:induction false} InsertTieOrder(x: Release, t: seq<Release>, k: string)
    requires x.files != [] && AllHaveFiles(t)
    ensures WithUpload(Insert(x, t), k)
         == (if FirstUpload(x) == k then [x] else []) + WithUpload(t, k)
    decreases |t|
  {
    var s := Insert(x, t);
    if |t| == 0 {
      assert s == [x] && s[1..] == [];
      WithUploadHead(s, k);
    } else if Text.LessEq(FirstUpload(x), FirstUpload(t[0])) {
      assert s == [x] + t && s[1..] == t;
      WithUploadHead(s, k);
    } else {
      InsertTieOrder(x, t[1..], k);
      InsertTieOrderLater(x, t, k);
    }
  }

  /** The step of InsertTieOrder when x goes after the head of t. */
  lemma InsertTieOrderLater(x: Release, t: seq<Release>, k: string)
    requires x.files != [] && AllHaveFiles(t) && |t| > 0
    requires !Text.LessEq(FirstUpload(x), FirstUpload(t[0]))
    requires WithUpload(Insert(x, t[1..]), k)
          == (if FirstUpload(x) == k then [x] else []) + WithUpload(t[1..], k)
    ensures WithUpload(Insert(x, t), k)
         == (if FirstUpload(x) == k then [x] else []) + WithUpload(t, k)
  {
    var s, rest := Insert(x, t), Insert(x, t[1..]);
    var ofX: seq<Release> := if FirstUpload(x) == k then [x] else [];
    assert s == [t[0]] + rest && s[1..] == rest;
    WithUploadHead(s, k);
    WithUploadHead(t, k);
    if FirstUpload(t[0]) == k {
      Text.LessIrreflexive(k);
      assert ofX == [];
      assert WithUpload(s, k) == [t[0]] + WithUpload(rest, k);
      assert WithUpload(rest, k) == WithUpload(t[1..], k);
    } else {
      assert WithUpload(s, k) == WithUpload(rest, k);
      assert WithUpload(t, k) == WithUpload(t[1..], k);
    }
  }

  lemma {:induction false} SortTieOrder(s: seq<Release>, k: string)
    requires AllHaveFiles(s)
    ensures WithUpload(SortByUpload(s), k) == WithUpload(s, k)
    decreases |s|
  {
    if |s| > 0 {
      SortTieOrder(s[1..], k);
      InsertTieOrder(s[0], SortByUpload(s[1..]), k);
    }
  }

  /** The first release of a non-empty listing heads the group of its own upload time. */
  lemma WithUploadHead(s: seq<Release>, k: string)
    requires |s| > 0 && s[0].files != []
    ensures FirstUpload(s[0]) == k ==> WithUpload(s, k) == [s[0]] + WithUpload(s[1..], k)
    ensures FirstUpload(s[0]) != k ==> WithUpload(s, k) == WithUpload(s[1..], k)
  {
  }

  /** Sorted listings with the same tie order start with the same release. */
  lemma SortedSameHead(a: seq<Release>, b: seq<Release>)
    requires SortedByUpload(a) && SortedByUpload(b)
    requires SameTieOrder(a, b)
    requires |a| > 0
    ensures |b| > 0 && a[0] == b[0]
  {
    var ka := FirstUpload(a[0]);
    WithUploadHead(a, ka);
    assert a[0] in WithUpload(b, ka) by {
      assert WithUpload(a, ka) == WithUpload(b, ka);
    }
    var j :| 0 <= j < |b| && b[j] == a[0];
    var kb := FirstUpload(b[0]);
    WithUploadHead(b, kb);
    assert b[0] in WithUpload(a, kb) by {
      assert WithUpload(a, kb) == WithUpload(b, kb);
    }
    var i :| 0 <= i < |a| && a[i] == b[0];
    Text.LessEqTotalOrder(ka, kb, ka);
    assert Text.LessEq(ka, kb) by {
      if i > 0 {
        assert Text.LessEq(FirstUpload(a[0]), FirstUpload(a[i]));
      }
    }
    assert Text.LessEq(kb, ka) by {
      if j > 0 {
        assert Text.LessEq(FirstUpload(b[0]), FirstUpload(b[j]));
      }
    }
    assert ka == kb;
    assert WithUpload(a, ka) == WithUpload(b, ka);
  }

  lemma SameTieOrderTail(a: seq<Release>, b: seq<Release>)
    requires |a| > 0 && |b| > 0 && a[0] == b[0] && a[0].files != []
    requires SameTieOrder(a, b)
    ensures SameTieOrder(a[1..], b[1..])
  {
    forall k
      ensures WithUpload(a[1..], k) == WithUpload(b[1..], k)
    {
      WithUploadHead(a, k);
      WithUploadHead(b, k);
      assert WithUpload(a, k) == WithUpload(b, k);
      if FirstUpload(a[0]) == k {
        assert WithUpload(a[1..], k) == WithUpload(a, k)[1..];
        assert WithUpload(b[1..], k) == WithUpload(b, k)[1..];
      }
    }
  }

  /**
   * A sorted listing is determined by its releases' tie order: two sorted
   * listings that order every group of equal upload times alike are equal.
   */
  lemma {:induction false} SortedUnique(a: seq<Release>, b: seq<Release>)
    requires SortedByUpload(a) && SortedByUpload(b)
    requires SameTieOrder(a, b)
    ensures a == b
    decreases |a|
  {
    if |a| > 0 {
      SortedSameHead(a, b);
      SameTieOrderTail(a, b);
      SortedUnique(a[1..], b[1..]);
      assert a == [a[0]] + a[1..] && b == [b[0]] + b[1..];
    } else if |b| > 0 {
      SortedSameHead(b, a);
    }
  }

  /**
   * `release_info` is exactly the stable sort of the versions with files:
   * a listing equals it if and only if it holds only releases with files,
   * is ordered by first upload time, and keeps the input order among
   * releases uploaded at the same time. Any stable sort, Python's included,
   * therefore yields this listing.
   */
  lemma ReleaseInfoCharacterised(raw: seq<Release>, c: seq<Release>)
    ensures c == ReleaseInfo(raw) <==> SortedByUpload(c) && SameTieOrder(c, raw)
  {
    var w := WithFiles(raw);
    SortSorted(w);
    forall k
      ensures WithUpload(ReleaseInfo(raw), k) == WithUpload(raw, k)
    {
      SortTieOrder(w, k);
    }
    if SortedByUpload(c) && SameTieOrder(c, raw) {
      SortedUnique(c, ReleaseInfo(raw));
    }
  }

  /** `release_info` holds exactly the input versions that have files, each with its own file list, once each. */
  lemma ReleaseInfoContents(raw: seq<Release>)
    ensures forall r :: r in ReleaseInfo(raw) <==> r in raw && r.files != []
    ensures multiset(ReleaseInfo(raw)) == multiset(WithFiles(raw))
  {
    var w := WithFiles(raw);
    assert forall r :: r in ReleaseInfo(raw) <==> r in multiset(w);
  }

  /** Keys of a Python dict are unique: no version appears twice. */
  predicate DistinctVersions(s: seq<Release>)
  {
    forall i, j :: 0 <= i < j < |s| ==> s[i].version != s[j].version
  }

  lemma {:induction false} WithFilesDistinct(raw: seq<Release>)
    requires DistinctVersions(raw)
    ensures DistinctVersions(WithFiles(raw))
    decreases |raw|
  {
    if |raw| > 0 {
      WithFilesDistinct(raw[1..]);
      var rest := WithFiles(raw[1..]);
      forall j | 0 <= j < |rest|
        ensures raw[0].version != rest[j].version
      {
        assert rest[j] in raw[1..];
      }
    }
  }

  lemma {:induction false} InsertDistinct(x: Release, t: seq<Release>)
    requires x.files != [] && AllHaveFiles(t)
    requires DistinctVersions(t)
    requires forall y :: y in t ==> y.version != x.version
    ensures DistinctVersions(Insert(x, t))
    decreases |t|
  {
    if |t| > 0 && !Text.LessEq(FirstUpload(x), FirstUpload(t[0])) {
      var rest := Insert(x, t[1..]);
      InsertDistinct(x, t[1..]);
      forall j | 0 <= j < |rest|
        ensures t[0].version != rest[j].version
      {
        assert rest[j] in multiset(rest);
        if rest[j] != x {
          assert rest[j] in t[1..];
        }
      }
    }
  }

  lemma {:induction false} SortDistinct(s: seq<Release>)
    requires AllHaveFiles(s) && DistinctVersions(s)
    ensures DistinctVersions(SortByUpload(s))
    decreases |s|
  {
    if |s| > 0 {
      var rest := SortByUpload(s[1..]);
      SortDistinct(s[1..]);
      forall y | y in rest
        ensures y.version != s[0].version
      {
        assert y in multiset(s[1..]);
      }
      InsertDistinct(s[0], rest);
    }
  }

  /**
   * The ordered listing keeps dict-key uniqueness, so the `OrderedDict`
   * built from it has one key per release.
   */
  lemma ReleaseInfoDistinct(raw: seq<Release>)
    requires DistinctVersions(raw)
    ensures DistinctVersions(ReleaseInfo(raw))
  {
    WithFilesDistinct(raw);
    SortDistinct(WithFiles(raw));
  }
}
