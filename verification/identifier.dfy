/**
 * The package identifiers `pypi stat` accepts, as `PYPI_RE` matches them:
 * an optional index prefix `http(s)://host/pypi/`, a name made of
 * letters, digits, `-` and `.`, and an optional `/version`, with nothing
 * after it but at most one final newline (Python's `$`).
 */
module Identifier {
  import opened Wrappers

  /** `DEFAULT_PYPI`: the index used when the identifier names none. */
  const DefaultIndex: string := "http://pypi.python.org/pypi"

  /** The three groups of a match: `pypi` (optional), `name`, `version` (optional). */
  datatype Identifier = Identifier(index: Option<string>, name: string, version: Option<string>)

  /** What `stat` goes on to fetch: the index URL and the package name. */
  datatype Target = Target(index: string, name: string)

  /** `[-A-Za-z0-9.]`. */
  predicate IsNameChar(c: char)
  {
    c == '-' || c == '.' || ('A' <= c <= 'Z') || ('a' <= c <= 'z') || ('0' <= c <= '9')
  }

  /** `[-A-Za-z0-9.]+`. */
  predicate IsName(s: string)
  {
    |s| > 0 && forall i :: 0 <= i < |s| ==> IsNameChar(s[i])
  }

  /** `[^/]+`. */
  predicate IsHost(s: string)
  {
    |s| > 0 && forall i :: 0 <= i < |s| ==> s[i] != '/'
  }

  predicate StartsWith(s: string, p: string)
  {
    |p| <= |s| && s[..|p|] == p
  }

  /** `https?://[^/]+/pypi`. */
  predicate IsIndexUrl(u: string)
  {
    && |u| >= 5 && u[|u| - 5..] == "/pypi"
    && (|| (12 <= |u| && StartsWith(u, "http://") && IsHost(u[7..|u| - 5]))
        || (13 <= |u| && StartsWith(u, "https://") && IsHost(u[8..|u| - 5])))
  }

  /** The identifiers the pattern can produce. */
  predicate WellFormed(id: Identifier)
  {
    && IsName(id.name)
    && (id.version.Some? ==> IsName(id.version.value))
    && (id.index.Some? ==> IsIndexUrl(id.index.value))
  }

  /** The text an identifier is written as on the command line. */
  function Format(id: Identifier): string
  {
    (if id.index.Some? then id.index.value + "/" else "")
      + id.name
      + (if id.version.Some? then "/" + id.version.value else "")
  }

  /** Length of the longest prefix of name characters (the greedy `[-A-Za-z0-9.]+`). */
  function SpanName(s: string): (n: nat)
    ensures n <= |s|
    ensures forall i :: 0 <= i < n ==> IsNameChar(s[i])
    ensures n < |s| ==> !IsNameChar(s[n])
    decreases |s|
  {
    if |s| > 0 && IsNameChar(s[0]) then 1 + SpanName(s[1..]) else 0
  }

  /** Length of the longest prefix without a slash (the greedy `[^/]+`). */
  function SpanHost(s: string): (n: nat)
    ensures n <= |s|
    ensures forall i :: 0 <= i < n ==> s[i] != '/'
    ensures n < |s| ==> s[n] == '/'
    decreases |s|
  {
    if |s| > 0 && s[0] != '/' then 1 + SpanHost(s[1..]) else 0
  }

  /** `name(/version)?` against the whole of t. */
  function MatchNameVersion(t: string): Option<(string, Option<string>)>
  {
    var n := SpanName(t);
    if n == 0 then None
    else if n == |t| then Some((t, None))
    else if t[n] == '/' && n + 1 < |t| && SpanName(t[n + 1..]) == |t| - (n + 1) then
      Some((t[..n], Some(t[n + 1..])))
    else None
  }

  /** Length of the URL scheme b starts with: 8 for `https://`, 7 for `http://`, 0 for neither. */
  function SchemeLength(b: string): nat
  {
    if StartsWith(b, "https://") then 8 else if StartsWith(b, "http://") then 7 else 0
  }

  /** The parts of `https?://[^/]+/pypi/` at the start of b: scheme, host and what follows. */
  datatype Prefix = Prefix(scheme: string, host: string, tail: string)

  /** Splits the index prefix off b, taking the longest host, or None when b does not start with one. */
  function SplitPrefix(b: string): Option<Prefix>
  {
    var scheme := SchemeLength(b);
    if scheme == 0 then None
    else
      var rest := b[scheme..];
      var h := SpanHost(rest);
      if h == 0 || !StartsWith(rest[h..], "/pypi/") then None
      else Some(Prefix(b[..scheme], rest[..h], rest[h + 6..]))
  }

  /** The branch that takes the optional `https?://host/pypi/` prefix. */
  function MatchIndexed(b: string): Option<Identifier>
  {
    match SplitPrefix(b)
    case None => None
    case Some(p) =>
      match MatchNameVersion(p.tail)
      case None => None
      case Some(nv) => Some(Identifier(Some(p.scheme + p.host + "/pypi"), nv.0, nv.1))
  }

  /**
   * `PYPI_RE.match(s)`: the prefixed branch first, then the bare one. The
   * match may stop before one final newline, as `$` allows.
   */
  function Parse(s: string): Option<Identifier>
  {
    MatchWhole(Body(s))
  }

  /** Both branches of the pattern against the whole of b. */
  function MatchWhole(b: string): Option<Identifier>
  {
    match MatchIndexed(b)
    case Some(id) => Some(id)
    case None =>
      match MatchNameVersion(b)
      case None => None
      case Some(nv) => Some(Identifier(None, nv.0, nv.1))
  }

  /**
   * The name and index `stat` uses for one argument, or None when the
   * argument is reported as invalid and skipped. The version is ignored.
   */
  function StatTarget(s: string): (t: Option<Target>)
    ensures t.None? <==> Parse(s).None?
  {
    match Parse(s)
    case None => None
    case Some(id) => Some(Target(id.index.GetOr(DefaultIndex), id.name))
  }

  /** The text of the `name(/version)?` part. */
  function NameVersionText(name: string, version: Option<string>): string
  {
    name + (if version.Some? then "/" + version.value else "")
  }

  lemma {:induction false} SpanNameStops(a: string, rest: string)
    requires forall i :: 0 <= i < |a| ==> IsNameChar(a[i])
    requires |rest| == 0 || !IsNameChar(rest[0])
    ensures SpanName(a + rest) == |a|
    decreases |a|
  {
    if |a| == 0 {
      assert a + rest == rest;
    } else {
      assert (a + rest)[1..] == a[1..] + rest;
      SpanNameStops(a[1..], rest);
    }
  }

  lemma {:induction false} SpanHostStops(a: string, rest: string)
    requires forall i :: 0 <= i < |a| ==> a[i] != '/'
    requires |rest| > 0 && rest[0] == '/'
    ensures SpanHost(a + rest) == |a|
    decreases |a|
  {
    if |a| == 0 {
      assert a + rest == rest;
    } else {
      assert (a + rest)[1..] == a[1..] + rest;
      SpanHostStops(a[1..], rest);
    }
  }

  lemma MatchNameVersionComplete(name: string, version: Option<string>)
    requires IsName(name) && (version.Some? ==> IsName(version.value))
    ensures MatchNameVersion(NameVersionText(name, version)) == Some((name, version))
  {
    var t := NameVersionText(name, version);
    if version.Some? {
      var v := version.value;
      SpanNameStops(name, "/" + v);
      assert t == name + ("/" + v);
      assert t[|name| + 1..] == v;
      assert t[..|name|] == name;
      SpanNameStops(v, "");
      assert v + "" == v;
    } else {
      SpanNameStops(name, "");
      assert name + "" == name;
    }
  }

  lemma MatchNameVersionSound(t: string)
    requires MatchNameVersion(t).Some?
    ensures var nv := MatchNameVersion(t).value;
      && IsName(nv.0) && (nv.1.Some? ==> IsName(nv.1.value))
      && t == NameVersionText(nv.0, nv.1)
  {
    var n := SpanName(t);
    if n < |t| {
      var v := t[n + 1..];
      assert forall i :: 0 <= i < |v| ==> IsNameChar(v[i]) by {
        assert SpanName(v) == |v|;
      }
      assert t == t[..n] + "/" + v;
    }
  }

  /** Text with no index prefix holds no ':', as neither names nor versions do. */
  lemma BareHasNoScheme(name: string, version: Option<string>)
    requires IsName(name) && (version.Some? ==> IsName(version.value))
    ensures SchemeLength(NameVersionText(name, version)) == 0
    ensures MatchIndexed(NameVersionText(name, version)) == None
  {
    var t := NameVersionText(name, version);
    forall i | 0 <= i < |t|
      ensures t[i] != ':'
    {
      if i < |name| {
        assert t[i] == name[i];
      } else if i > |name| {
        assert t[i] == ("/" + version.value)[i - |name|];
        assert t[i] == version.value[i - |name| - 1];
      }
    }
    assert !StartsWith(t, "http://") by {
      assert |t| < 7 || t[..7][4] == t[4];
    }
    assert !StartsWith(t, "https://") by {
      assert |t| < 8 || t[..8][5] == t[5];
    }
  }

  /** A scheme, a host and `/pypi` make an index URL. */
  lemma IndexUrlOf(scheme: string, host: string)
    requires scheme == "http://" || scheme == "https://"
    requires IsHost(host)
    ensures IsIndexUrl(scheme + host + "/pypi")
  {
    var u := scheme + host + "/pypi";
    assert u[..|scheme|] == scheme;
    assert u[|scheme|..|u| - 5] == host;
    assert u[|u| - 5..] == "/pypi";
  }

  lemma SchemeLengthSound(b: string)
    requires SchemeLength(b) > 0
    ensures b[..SchemeLength(b)] == "http://" || b[..SchemeLength(b)] == "https://"
  {
  }

  lemma SplitRest(rest: string, h: nat)
    requires h <= |rest| && StartsWith(rest[h..], "/pypi/")
    ensures rest == rest[..h] + "/pypi/" + rest[h + 6..]
  {
    var r := rest[h..];
    assert r == r[..6] + r[6..];
    assert r[6..] == rest[h + 6..];
    assert rest == rest[..h] + r;
  }

  lemma SplitPrefixSound(b: string)
    requires SplitPrefix(b).Some?
    ensures var p := SplitPrefix(b).value;
      && (p.scheme == "http://" || p.scheme == "https://")
      && IsHost(p.host)
      && b == p.scheme + p.host + "/pypi/" + p.tail
  {
    var scheme := SchemeLength(b);
    SchemeLengthSound(b);
    var rest := b[scheme..];
    var h := SpanHost(rest);
    assert scheme != 0 && h != 0 && StartsWith(rest[h..], "/pypi/");
    SplitRest(rest, h);
    var p := SplitPrefix(b).value;
    assert p == Prefix(b[..scheme], rest[..h], rest[h + 6..]);
    assert b == b[..scheme] + rest;
  }

  lemma SchemeOf(scheme: string, more: string)
    requires scheme == "http://" || scheme == "https://"
    ensures SchemeLength(scheme + more) == |scheme|
    ensures (scheme + more)[..|scheme|] == scheme && (scheme + more)[|scheme|..] == more
  {
    var b := scheme + more;
    assert b[..|scheme|] == scheme;
    if scheme == "http://" {
      assert b[4] == ':';
      assert !StartsWith(b, "https://") by {
        assert |b| < 8 || b[..8][4] == ':';
      }
    }
  }

  lemma SplitPrefixComplete(scheme: string, host: string, tail: string)
    requires scheme == "http://" || scheme == "https://"
    requires IsHost(host)
    ensures SplitPrefix(scheme + host + "/pypi/" + tail) == Some(Prefix(scheme, host, tail))
  {
    var rest := host + ("/pypi/" + tail);
    var b := scheme + rest;
    assert scheme + host + "/pypi/" + tail == b;
    SchemeOf(scheme, rest);
    AfterHost(host, tail);
    var n := SchemeLength(b);
    assert n == |scheme| && b[..n] == scheme && b[n..] == rest;
    assert SpanHost(b[n..]) == |host|;
  }

  /** After a host the longest host span stops at `/pypi/`, and the tail follows it. */
  lemma AfterHost(host: string, tail: string)
    requires IsHost(host)
    ensures var rest := host + ("/pypi/" + tail);
      && SpanHost(rest) == |host|
      && rest[..|host|] == host
      && StartsWith(rest[|host|..], "/pypi/")
      && rest[|host| + 6..] == tail
  {
    var rest := host + ("/pypi/" + tail);
    SpanHostStops(host, "/pypi/" + tail);
    assert rest[|host|..] == "/pypi/" + tail;
    assert ("/pypi/" + tail)[..6] == "/pypi/";
  }

  lemma MatchIndexedComplete(id: Identifier)
    requires WellFormed(id) && id.index.Some?
    ensures MatchIndexed(Format(id)) == Some(id)
  {
    var u := id.index.value;
    var nv := NameVersionText(id.name, id.version);
    var scheme := if StartsWith(u, "https://") then "https://" else "http://";
    var host := u[|scheme|..|u| - 5];
    assert IsHost(host) by {
      if StartsWith(u, "https://") {
        assert !StartsWith(u, "http://") by {
          assert u[..8][4] == 's';
        }
      }
    }
    assert u == scheme + host + "/pypi" by {
      assert u[..|scheme|] == scheme;
      assert u[|u| - 5..] == "/pypi";
      ThreeParts(u, |scheme|, |u| - 5);
    }
    assert Format(id) == u + "/" + nv;
    PypiSlash(scheme + host, nv);
    SplitPrefixComplete(scheme, host, nv);
    MatchNameVersionComplete(id.name, id.version);
  }

  lemma ThreeParts(u: string, i: nat, j: nat)
    requires i <= j <= |u|
    ensures u == u[..i] + u[i..j] + u[j..]
  {
  }

  lemma PypiSlash(x: string, t: string)
    ensures x + "/pypi/" + t == x + "/pypi" + "/" + t
  {
    assert "/pypi/" == "/pypi" + "/";
  }

  lemma FormatIndexed(id: Identifier)
    requires id.index.Some?
    ensures Format(id) == id.index.value + "/" + NameVersionText(id.name, id.version)
  {
  }

  lemma MatchIndexedSound(b: string)
    requires MatchIndexed(b).Some?
    ensures var id := MatchIndexed(b).value;
      WellFormed(id) && id.index.Some? && b == Format(id)
  {
    var p := SplitPrefix(b).value;
    SplitPrefixSound(b);
    var nv := MatchNameVersion(p.tail).value;
    MatchNameVersionSound(p.tail);
    var u := p.scheme + p.host + "/pypi";
    IndexUrlOf(p.scheme, p.host);
    var id := Identifier(Some(u), nv.0, nv.1);
    assert MatchIndexed(b) == Some(id);
    FormatIndexed(id);
    assert NameVersionText(nv.0, nv.1) == p.tail;
    PypiSlash(p.scheme + p.host, p.tail);
  }

  /** Formatting ends in a version or a name, never in a newline. */
  lemma FormatEndsInName(id: Identifier)
    requires WellFormed(id)
    ensures |Format(id)| > 0 && IsNameChar(Format(id)[|Format(id)| - 1])
  {
    var f := Format(id);
    if id.version.Some? {
      var v := id.version.value;
      assert f[|f| - 1] == v[|v| - 1];
    } else {
      assert f[|f| - 1] == id.name[|id.name| - 1];
    }
  }

  /**
   * Every well-formed identifier, written out, matches the pattern and gives
   * back its own groups, with or without one final newline.
   */
  lemma ParseFormat(id: Identifier)
    requires WellFormed(id)
    ensures Parse(Format(id)) == Some(id)
    ensures Parse(Format(id) + "\n") == Some(id)
  {
    var f := Format(id);
    FormatEndsInName(id);
    assert Body(f) == f;
    assert Body(f + "\n") == f by {
      assert (f + "\n")[..|f + "\n"| - 1] == f;
    }
    if id.index.Some? {
      MatchIndexedComplete(id);
    } else {
      assert f == NameVersionText(id.name, id.version);
      BareHasNoScheme(id.name, id.version);
      MatchNameVersionComplete(id.name, id.version);
    }
  }

  /** The text the pattern must match in full: s less one final newline. */
  function Body(s: string): (b: string)
    ensures s == b || s == b + "\n"
  {
    if |s| > 0 && s[|s| - 1] == '\n' then s[..|s| - 1] else s
  }

  /**
   * The pattern accepts nothing else: a match is a well-formed identifier
   * written out, possibly followed by one newline.
   */
  lemma ParseSound(s: string)
    requires Parse(s).Some?
    ensures WellFormed(Parse(s).value)
    ensures s == Format(Parse(s).value) || s == Format(Parse(s).value) + "\n"
  {
    MatchWholeSound(Body(s));
  }

  lemma MatchWholeSound(b: string)
    requires MatchWhole(b).Some?
    ensures WellFormed(MatchWhole(b).value) && b == Format(MatchWhole(b).value)
  {
    if MatchIndexed(b).Some? {
      MatchIndexedSound(b);
    } else {
      MatchBareSound(b);
    }
  }

  /** Without an index, a whole match is a bare name and optional version. */
  lemma MatchBareSound(b: string)
    requires MatchIndexed(b).None? && MatchNameVersion(b).Some?
    ensures WellFormed(MatchWhole(b).value) && b == Format(MatchWhole(b).value)
  {
    var nv := MatchNameVersion(b).value;
    MatchNameVersionSound(b);
    var id := Identifier(None, nv.0, nv.1);
    assert MatchWhole(b) == Some(id);
    assert Format(id) == NameVersionText(nv.0, nv.1);
  }

  /**
   * `stat` fetches from the identifier's index, or the default one when it
   * names none, and ignores the version part.
   */
  lemma StatTargetOfFormat(id: Identifier)
    requires WellFormed(id)
    ensures StatTarget(Format(id)) == Some(Target(id.index.GetOr(DefaultIndex), id.name))
    ensures StatTarget(Format(id)) == StatTarget(Format(id.(version := None)))
  {
    ParseFormat(id);
    ParseFormat(id.(version := None));
  }
}
