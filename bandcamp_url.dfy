/**
 * `urlIsApplicable(urlString)` of utils.js: an unanchored test of
 * `https:\/\/[a-zA-Z0-9-]+\.bandcamp\.com\/(album|track)\/[a-zA-Z0-9-]+`,
 * true when some substring of the URL matches the pattern.
 */
module BandcampUrl {
  import opened Ascii

  const Scheme: string := "https://"
  const Host: string := ".bandcamp.com/"

  predicate IsSegment(w: string) {
    |w| > 0 && forall i :: 0 <= i < |w| ==> IsSegmentChar(w[i])
  }

  predicate IsKind(kind: string) {
    kind == "album" || kind == "track"
  }

  /** The URL the pattern describes, for a subdomain, a kind and a slug. */
  function Url(sub: string, kind: string, slug: string): string {
    Scheme + sub + HostPath(kind, slug)
  }

  function HostPath(kind: string, slug: string): string {
    Host + kind + "/" + slug
  }

  /** The text `t` is, as a whole, in the language of the pattern. */
  ghost predicate IsMatch(t: string) {
    exists sub, kind, slug {:trigger Url(sub, kind, slug)} ::
      IsSegment(sub) && IsKind(kind) && IsSegment(slug) && t == Url(sub, kind, slug)
  }

  /** The length of the run of `[a-zA-Z0-9-]` that starts `s`. */
  function SegmentLength(s: string): (n: nat)
    ensures n <= |s|
    ensures forall i :: 0 <= i < n ==> IsSegmentChar(s[i])
    ensures n < |s| ==> !IsSegmentChar(s[n])
  {
    if s != [] && IsSegmentChar(s[0]) then 1 + SegmentLength(s[1..]) else 0
  }

  /** The part of the pattern after the subdomain: `\.bandcamp\.com\/(album|track)\/[a-zA-Z0-9-]`. */
  predicate HostPathAt(u: string) {
    |u| > |Host| + 6 && u[..|Host|] == Host
    && (u[|Host|..|Host| + 6] == "album/" || u[|Host|..|Host| + 6] == "track/")
    && IsSegmentChar(u[|Host| + 6])
  }

  /**
   * A match of the pattern starts at the beginning of `t`. The subdomain run
   * can only end where `.bandcamp.com/` begins, since `.` is not in
   * `[a-zA-Z0-9-]`, so its longest run is the only one to try; one slug
   * character is enough for `+`.
   */
  predicate MatchesAt(t: string) {
    |t| >= |Scheme| && t[..|Scheme|] == Scheme
    && var n := SegmentLength(t[|Scheme|..]);
    n > 0 && HostPathAt(t[|Scheme| + n..])
  }

  /** urlIsApplicable: some position of the URL starts a match. */
  predicate UrlIsApplicable(url: string) {
    exists i :: 0 <= i <= |url| && MatchesAt(url[i..])
  }

  /** The length of the shortest match that starts at the beginning of `t`. */
  function MatchLength(t: string): nat
    requires MatchesAt(t)
  {
    |Scheme| + SegmentLength(t[|Scheme|..]) + |Host| + 7
  }

  /** A match found by the matcher: its first `MatchLength(t)` characters are a URL of the pattern. */
  lemma MatchesAtSound(t: string) returns (sub: string, kind: string, slug: string)
    requires MatchesAt(t)
    ensures IsSegment(sub) && IsKind(kind) && IsSegment(slug)
    ensures MatchLength(t) <= |t| && t[..MatchLength(t)] == Url(sub, kind, slug)
  {
    var n := SegmentLength(t[|Scheme|..]);
    sub := t[|Scheme|..|Scheme| + n];
    var u := t[|Scheme| + n..];
    kind := u[|Host|..|Host| + 5];
    slug := u[|Host| + 6..|Host| + 7];
    assert IsKind(kind) by {
      assert kind == u[|Host|..|Host| + 6][..5];
    }
    var j := MatchLength(t);
    var m := |Scheme| + n;
    assert m + |Host| + 7 == j <= |t|;
    SliceSplit(t, 0, m, j);
    SliceSplit(t, 0, |Scheme|, m);
    assert t[m..j] == u[..|Host| + 7];
    assert u[..|Host| + 7] == u[..|Host|] + kind + [u[|Host| + 5]] + slug;
    assert u[|Host| + 5] == '/';
  }

  lemma SliceSplit(t: string, a: nat, b: nat, c: nat)
    requires a <= b <= c <= |t|
    ensures t[a..c] == t[a..b] + t[b..c]
  {
  }

  lemma SegmentLengthOfRun(s: string, n: nat)
    requires n < |s| && !IsSegmentChar(s[n])
    requires forall i :: 0 <= i < n ==> IsSegmentChar(s[i])
    ensures SegmentLength(s) == n
  {
  }

  /** The host and path part of a match is a prefix property. */
  lemma HostPathAtExtends(u: string, more: string)
    requires HostPathAt(u)
    ensures HostPathAt(u + more)
  {
    assert (u + more)[..|Host|] == u[..|Host|];
    assert (u + more)[|Host|..|Host| + 6] == u[|Host|..|Host| + 6];
    assert (u + more)[|Host| + 6] == u[|Host| + 6];
  }

  /** A match at the start of `t` only looks at `t` up to the first slug character. */
  lemma MatchesAtExtends(t: string, more: string)
    requires MatchesAt(t)
    ensures MatchesAt(t + more)
  {
    var w := t + more;
    var n := SegmentLength(t[|Scheme|..]);
    var u := t[|Scheme| + n..];
    assert w[..|Scheme|] == t[..|Scheme|];
    assert w[|Scheme|..] == t[|Scheme|..] + more;
    SegmentLengthOfRun(w[|Scheme|..], n);
    assert w[|Scheme| + n..] == u + more;
    HostPathAtExtends(u, more);
  }

  lemma MatchesAtUrl(sub: string, kind: string, slug: string)
    requires IsSegment(sub) && IsKind(kind) && IsSegment(slug)
    ensures MatchesAt(Url(sub, kind, slug))
  {
    var t := Url(sub, kind, slug);
    var p := HostPath(kind, slug);
    assert t[..|Scheme|] == Scheme;
    assert t[|Scheme|..] == sub + p;
    assert p[0] == '.';
    SegmentLengthOfRun(sub + p, |sub|);
    assert t[|Scheme| + |sub|..] == p;
    assert p[..|Host|] == Host;
    assert p[|Host|..|Host| + 6] == kind + "/";
    assert p[|Host| + 6] == slug[0];
  }

  lemma MatchAt(url: string, i: nat) returns (j: nat, sub: string, kind: string, slug: string)
    requires i <= |url| && MatchesAt(url[i..])
    ensures i <= j <= |url| && IsSegment(sub) && IsKind(kind) && IsSegment(slug)
    ensures url[i..j] == Url(sub, kind, slug)
  {
    var t := url[i..];
    sub, kind, slug := MatchesAtSound(t);
    j := i + MatchLength(t);
    assert url[i..j] == t[..MatchLength(t)];
  }

  lemma MatchMakesApplicable(url: string, i: nat, j: nat, sub: string, kind: string, slug: string)
    requires i <= j <= |url| && IsSegment(sub) && IsKind(kind) && IsSegment(slug)
                           && url[i..j] == Url(sub, kind, slug)
    ensures MatchesAt(url[i..])
  {
    var t := url[i..j];
    MatchesAtUrl(sub, kind, slug);
    MatchesAtExtends(t, url[j..]);
    assert t + url[j..] == url[i..];
  }

  /**
   * urlIsApplicable holds exactly when some substring of the URL is, as a
   * whole, a URL of the pattern's shape.
   */
  lemma ApplicableIffSomeSubstringMatches(url: string)
    ensures UrlIsApplicable(url)
            <==> exists i, j :: 0 <= i <= j <= |url| && IsMatch(url[i..j])
  {
    if UrlIsApplicable(url) {
      var i :| 0 <= i <= |url| && MatchesAt(url[i..]);
      var j, sub, kind, slug := MatchAt(url, i);
      assert IsMatch(url[i..j]);
    }
    if exists i, j :: 0 <= i <= j <= |url| && IsMatch(url[i..j]) {
      var i, j :| 0 <= i <= j <= |url| && IsMatch(url[i..j]);
      var sub, kind, slug :| IsSegment(sub) && IsKind(kind) && IsSegment(slug) && url[i..j] == Url(sub, kind, slug);
      MatchMakesApplicable(url, i, j, sub, kind, slug);
    }
  }

  /** Text around an applicable URL keeps it applicable. */
  lemma ApplicableUnderContext(pre: string, url: string, post: string)
    requires UrlIsApplicable(url)
    ensures UrlIsApplicable(pre + url + post)
  {
    var i :| 0 <= i <= |url| && MatchesAt(url[i..]);
    MatchUnderContext(pre, url, post, i);
    assert 0 <= |pre| + i <= |pre + url + post|;
  }

  lemma MatchUnderContext(pre: string, url: string, post: string, i: nat)
    requires i <= |url| && MatchesAt(url[i..])
    ensures MatchesAt((pre + url + post)[|pre| + i..])
  {
    var w := pre + url + post;
    MatchesAtExtends(url[i..], post);
    assert w[|pre| + i..] == url[i..] + post;
  }

  /** Every URL of the pattern's shape is applicable. */
  lemma AlbumAndTrackUrlsApplicable(sub: string, kind: string, slug: string)
    requires IsSegment(sub) && IsKind(kind) && IsSegment(slug)
    ensures UrlIsApplicable(Url(sub, kind, slug))
  {
    var url := Url(sub, kind, slug);
    MatchesAtUrl(sub, kind, slug);
    assert url[0..] == url;
  }

  /** Every match has the `:` of `https:` at its sixth character. */
  lemma MatchHasColon(url: string, i: nat)
    requires i <= |url| && MatchesAt(url[i..])
    ensures i + 5 < |url| && url[i + 5] == ':'
  {
    assert url[i..][..|Scheme|] == Scheme;
    assert url[i..][5] == Scheme[5];
  }

  /** A URL of the right shape but with the plain `http` scheme is not applicable. */
  lemma PlainHttpNotApplicable(sub: string, kind: string, slug: string)
    requires IsSegment(sub) && IsKind(kind) && IsSegment(slug)
    ensures !UrlIsApplicable("http://" + sub + HostPath(kind, slug))
  {
    var rest := "//" + sub + HostPath(kind, slug);
    var url := "http:" + rest;
    assert url == "http://" + sub + HostPath(kind, slug);
    assert ':' !in sub;
    assert ':' !in slug;
    assert ':' !in rest;
    if i :| 0 <= i <= |url| && MatchesAt(url[i..]) {
      MatchHasColon(url, i);
      assert url[i + 5] == rest[i];
    }
  }

  /** Without a slug the text ends where the pattern still needs a character. */
  lemma NoSlugNoMatchAtStart(sub: string, kind: string)
    requires IsSegment(sub) && IsKind(kind)
    ensures !MatchesAt(Scheme + sub + Host + kind + "/")
  {
    var p := Host + kind + "/";
    var t := Scheme + sub + p;
    assert t[|Scheme|..] == sub + p;
    assert p[0] == '.';
    SegmentLengthOfRun(sub + p, |sub|);
    assert t[|Scheme| + |sub|..] == p;
  }

  /** A URL of the right shape with no slug after `album/` or `track/` is not applicable. */
  lemma MissingSlugNotApplicable(sub: string, kind: string)
    requires IsSegment(sub) && IsKind(kind)
    ensures !UrlIsApplicable(Scheme + sub + Host + kind + "/")
  {
    var rest := "//" + sub + Host + kind + "/";
    var url := "https:" + rest;
    assert url == Scheme + sub + Host + kind + "/";
    assert ':' !in sub;
    assert ':' !in rest;
    forall i | 0 <= i <= |url| ensures !MatchesAt(url[i..]) {
      if MatchesAt(url[i..]) {
        MatchHasColon(url, i);
        if i == 0 {
          NoSlugNoMatchAtStart(sub, kind);
        }
      }
    }
  }
}
