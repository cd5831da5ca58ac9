/**
 * `normalizeTrackName(trackName)` of utils.js: five whole-string replaces in
 * a fixed order, each one a function here, then `toLowerCase`.
 */
module TrackNames {
  import opened Ascii

  /** The characters a JavaScript `\s` matches (white space and line terminators). */
  predicate IsSpace(c: char) {
    var n := c as int;
    (9 <= n <= 13) || n == 32 || n == 0xA0 || n == 0x1680 || (0x2000 <= n <= 0x200A)
    || n == 0x2028 || n == 0x2029 || n == 0x202F || n == 0x205F || n == 0x3000 || n == 0xFEFF
  }

  /** `replace(/\s+/g, '-')`; `inRun` tells whether the previous character was white space. */
  function DashSpaces(s: string, inRun: bool): string
  {
    if s == [] then []
    else if IsSpace(s[0]) then (if inRun then [] else ['-']) + DashSpaces(s[1..], true)
    else [s[0]] + DashSpaces(s[1..], false)
  }

  /** `replace(/&/g, 'and')` */
  function ExpandAmpersands(s: string): string
  {
    if s == [] then [] else (if s[0] == '&' then "and" else [s[0]]) + ExpandAmpersands(s[1..])
  }

  /** `replace(/[^a-zA-Z0-9-]/g, '')` */
  function KeepSegmentChars(s: string): (r: string)
    ensures |r| <= |s|
    ensures forall i :: 0 <= i < |r| ==> IsSegmentChar(r[i])
  {
    if s == [] then []
    else if IsSegmentChar(s[0]) then [s[0]] + KeepSegmentChars(s[1..])
    else KeepSegmentChars(s[1..])
  }

  predicate NoDoubleDash(s: string) {
    forall i :: 0 <= i < |s| - 1 ==> !(s[i] == '-' && s[i + 1] == '-')
  }

  predicate SegmentChars(s: string) {
    forall i :: 0 <= i < |s| ==> IsSegmentChar(s[i])
  }

  /**
   * `replace(/-{2,}/g, '-')`: a run of two or more dashes becomes one, so
   * every run of dashes leaves a single dash; `inRun` tells whether the
   * previous character was a dash already written.
   */
  function CollapseDashes(s: string, inRun: bool): (r: string)
    ensures NoDoubleDash(r)
    ensures inRun && r != [] ==> r[0] != '-'
    ensures SegmentChars(s) ==> SegmentChars(r)
  {
    if s == [] then []
    else if s[0] == '-' then
      var rest := CollapseDashes(s[1..], true);
      (if inRun then [] else ['-']) + rest
    else
      var rest := CollapseDashes(s[1..], false);
      assert SegmentChars(s) ==> SegmentChars(s[1..]);
      [s[0]] + rest
  }

  predicate IsDash(c: char) { c == '-' }

  /** The length of the run of characters satisfying `p` that starts `s`. */
  function RunLength(s: string, p: char -> bool): (n: nat)
    ensures n <= |s|
    ensures forall i :: 0 <= i < n ==> p(s[i])
    ensures n < |s| ==> !p(s[n])
    ensures s != [] && p(s[0]) ==> n >= 1
  {
    if s != [] && p(s[0]) then 1 + RunLength(s[1..], p) else 0
  }

  /**
   * Reference for the run-collapsing replaces: every maximal run of
   * characters satisfying `p` becomes the single character `d`, and every
   * other character is kept.
   */
  function RunsReplaced(s: string, p: char -> bool, d: char): string
    decreases |s|
  {
    if s == [] then []
    else if p(s[0]) then [d] + RunsReplaced(s[RunLength(s, p)..], p, d)
    else [s[0]] + RunsReplaced(s[1..], p, d)
  }

  /** Inside a run of white space, the scan of `\s+` skips to the end of the run. */
  lemma {:induction false} DashSpacesInRun(s: string)
    ensures DashSpaces(s, true) == DashSpaces(s[RunLength(s, IsSpace)..], false)
  {
    if s != [] && IsSpace(s[0]) {
      DashSpacesInRun(s[1..]);
      assert s[1..][RunLength(s[1..], IsSpace)..] == s[RunLength(s, IsSpace)..];
    }
  }

  /** `replace(/\s+/g, '-')` turns every maximal run of white space into one dash. */
  lemma {:induction false} DashSpacesIsRunwise(s: string)
    ensures DashSpaces(s, false) == RunsReplaced(s, IsSpace, '-')
    decreases |s|
  {
    if s != [] {
      if IsSpace(s[0]) {
        DashSpacesInRun(s[1..]);
        assert s[1..][RunLength(s[1..], IsSpace)..] == s[RunLength(s, IsSpace)..];
        DashSpacesIsRunwise(s[RunLength(s, IsSpace)..]);
      } else {
        DashSpacesIsRunwise(s[1..]);
      }
    }
  }

  /** Inside a run of dashes already written, the scan of `-{2,}` drops the rest of the run. */
  lemma {:induction false} CollapseInRun(s: string)
    ensures CollapseDashes(s, true) == CollapseDashes(s[RunLength(s, IsDash)..], false)
  {
    if s != [] && IsDash(s[0]) {
      CollapseInRun(s[1..]);
      assert s[1..][RunLength(s[1..], IsDash)..] == s[RunLength(s, IsDash)..];
    }
  }

  /** `replace(/-{2,}/g, '-')` leaves exactly one dash for every maximal run of dashes. */
  lemma {:induction false} CollapseDashesIsRunwise(s: string)
    ensures CollapseDashes(s, false) == RunsReplaced(s, IsDash, '-')
    decreases |s|
  {
    if s != [] {
      if IsDash(s[0]) {
        CollapseInRun(s[1..]);
        assert s[1..][RunLength(s[1..], IsDash)..] == s[RunLength(s, IsDash)..];
        CollapseDashesIsRunwise(s[RunLength(s, IsDash)..]);
      } else {
        CollapseDashesIsRunwise(s[1..]);
      }
    }
  }

  /** The `^-+` alternative of `replace(/^-+|-+$/g, '')`. */
  function DropLeadingDashes(s: string): (r: string)
    ensures |r| <= |s| && r == s[|s| - |r|..]
    ensures forall i :: 0 <= i < |s| - |r| ==> s[i] == '-'
    ensures r == [] || r[0] != '-'
  {
    if s != [] && s[0] == '-' then DropLeadingDashes(s[1..]) else s
  }

  /** The `-+$` alternative of `replace(/^-+|-+$/g, '')`. */
  function DropTrailingDashes(s: string): (r: string)
    ensures |r| <= |s| && r == s[..|r|]
    ensures forall i :: |r| <= i < |s| ==> s[i] == '-'
    ensures r == [] || r[|r| - 1] != '-'
  {
    if s != [] && s[|s| - 1] == '-' then DropTrailingDashes(s[..|s| - 1]) else s
  }

  /** `replace(/^-+|-+$/g, '')`: the leading run is removed at position 0, then the trailing run. */
  function TrimDashes(s: string): string
  {
    DropTrailingDashes(DropLeadingDashes(s))
  }

  /** normalizeTrackName */
  function NormalizeTrackName(name: string): string
  {
    var spaced := DashSpaces(name, false);
    var anded := ExpandAmpersands(spaced);
    var kept := KeepSegmentChars(anded);
    var collapsed := CollapseDashes(kept, false);
    Lower(TrimDashes(collapsed))
  }

  /** A slug: lower-case letters, digits and single dashes, no dash at either end. */
  predicate IsSlug(s: string) {
    (forall i :: 0 <= i < |s| ==> IsLowerLetter(s[i]) || IsDigit(s[i]) || s[i] == '-')
    && NoDoubleDash(s)
    && (s == [] || (s[0] != '-' && s[|s| - 1] != '-'))
  }

  /** The letters and digits of a string, in order, with each `&` read as "and". */
  function Words(s: string): string
  {
    if s == [] then []
    else (if s[0] == '&' then "and" else if IsAlnum(s[0]) then [s[0]] else []) + Words(s[1..])
  }

  /** The letters and digits of a string, in order. */
  function Alnums(s: string): (r: string)
    ensures |r| <= |s|
  {
    if s == [] then [] else (if IsAlnum(s[0]) then [s[0]] else []) + Alnums(s[1..])
  }

  lemma SliceKeepsShape(s: string, lo: nat, hi: nat)
    requires lo <= hi <= |s| && SegmentChars(s) && NoDoubleDash(s)
    ensures SegmentChars(s[lo..hi]) && NoDoubleDash(s[lo..hi])
  {
    var t := s[lo..hi];
    assert forall i :: 0 <= i < |t| ==> t[i] == s[lo + i];
  }

  lemma TrimKeepsShape(s: string)
    requires SegmentChars(s) && NoDoubleDash(s)
    ensures var t := TrimDashes(s);
      SegmentChars(t) && NoDoubleDash(t) && (t == [] || (t[0] != '-' && t[|t| - 1] != '-'))
  {
    var a := DropLeadingDashes(s);
    SliceKeepsShape(s, |s| - |a|, |s|);
    var t := DropTrailingDashes(a);
    SliceKeepsShape(a, 0, |t|);
    if t != [] {
      assert t[0] == a[0];
    }
  }

  /** Every output is a slug: only `a-z`, `0-9` and `-`, no `--`, no dash at either end. */
  lemma NormalizeTrackNameIsSlug(name: string)
    ensures IsSlug(NormalizeTrackName(name))
  {
    var kept := KeepSegmentChars(ExpandAmpersands(DashSpaces(name, false)));
    var collapsed := CollapseDashes(kept, false);
    TrimKeepsShape(collapsed);
    var t := TrimDashes(collapsed);
    var r := Lower(t);
    forall i | 0 <= i < |r|
      ensures IsLowerLetter(r[i]) || IsDigit(r[i]) || r[i] == '-'
    {
      assert IsSegmentChar(t[i]);
    }
    assert forall i :: 0 <= i < |r| ==> (r[i] == '-' <==> t[i] == '-');
  }

  lemma {:induction false} DashSpacesOfNoSpace(s: string, inRun: bool)
    requires forall i :: 0 <= i < |s| ==> !IsSpace(s[i])
    ensures DashSpaces(s, inRun) == s
  {
    if s != [] {
      DashSpacesOfNoSpace(s[1..], false);
    }
  }

  lemma {:induction false} ExpandOfNoAmpersand(s: string)
    requires forall i :: 0 <= i < |s| ==> s[i] != '&'
    ensures ExpandAmpersands(s) == s
  {
    if s != [] {
      ExpandOfNoAmpersand(s[1..]);
    }
  }

  lemma {:induction false} KeepOfSegmentChars(s: string)
    requires SegmentChars(s)
    ensures KeepSegmentChars(s) == s
  {
    if s != [] {
      KeepOfSegmentChars(s[1..]);
    }
  }

  lemma {:induction false} CollapseOfSingleDashes(s: string, inRun: bool)
    requires NoDoubleDash(s)
    requires inRun ==> s == [] || s[0] != '-'
    ensures CollapseDashes(s, inRun) == s
  {
    if s != [] {
      assert NoDoubleDash(s[1..]);
      CollapseOfSingleDashes(s[1..], s[0] == '-');
    }
  }

  /** The last three replaces and the lower-casing leave a slug as it is. */
  lemma SlugPassesTail(s: string)
    requires IsSlug(s)
    ensures Lower(TrimDashes(CollapseDashes(KeepSegmentChars(s), false))) == s
  {
    assert forall i :: 0 <= i < |s| ==> IsSegmentChar(s[i]);
    KeepOfSegmentChars(s);
    CollapseOfSingleDashes(s, false);
    assert DropLeadingDashes(s) == s;
    assert DropTrailingDashes(s) == s;
    LowerOfLowerCase(s);
  }

  /** Text made only of white space and dashes, such as `" - "` between two parts of a title. */
  predicate IsSeparator(s: string) {
    forall i :: 0 <= i < |s| ==> IsSpace(s[i]) || s[i] == '-'
  }

  predicate AllDashes(s: string) {
    forall i :: 0 <= i < |s| ==> s[i] == '-'
  }

  lemma {:induction false} DashSpacesOfSeparator(s: string, inRun: bool)
    requires IsSeparator(s)
    ensures AllDashes(DashSpaces(s, inRun))
    ensures s != [] && !inRun ==> DashSpaces(s, inRun) != []
  {
    if s != [] {
      assert IsSeparator(s[1..]);
      DashSpacesOfSeparator(s[1..], IsSpace(s[0]));
    }
  }

  lemma {:induction false} CollapseOfDashRun(d: string, inRun: bool)
    requires AllDashes(d)
    ensures CollapseDashes(d, inRun) == if inRun || d == [] then [] else ['-']
  {
    if d != [] {
      assert AllDashes(d[1..]);
      CollapseOfDashRun(d[1..], true);
    }
  }

  lemma {:induction false} DashSpacesPastNoSpace(x: string, t: string)
    requires forall i :: 0 <= i < |x| ==> !IsSpace(x[i])
    ensures DashSpaces(x + t, false) == x + DashSpaces(t, false)
  {
    if x == [] {
      assert x + t == t;
    } else {
      assert (x + t)[0] == x[0] && (x + t)[1..] == x[1..] + t;
      DashSpacesPastNoSpace(x[1..], t);
      assert [x[0]] + (x[1..] + DashSpaces(t, false)) == x + DashSpaces(t, false);
    }
  }

  lemma {:induction false} DashSpacesBeforeNoSpace(s: string, y: string, inRun: bool)
    requires forall i :: 0 <= i < |y| ==> !IsSpace(y[i])
    ensures DashSpaces(s + y, inRun) == DashSpaces(s, inRun) + y
  {
    if s == [] {
      assert s + y == y;
      DashSpacesOfNoSpace(y, inRun);
    } else {
      assert (s + y)[0] == s[0] && (s + y)[1..] == s[1..] + y;
      DashSpacesBeforeNoSpace(s[1..], y, IsSpace(s[0]));
    }
  }

  lemma SpacesAroundSeparator(x: string, sep: string, y: string)
    requires forall i :: 0 <= i < |x| ==> !IsSpace(x[i])
    requires forall i :: 0 <= i < |y| ==> !IsSpace(y[i])
    ensures DashSpaces(x + sep + y, false) == x + DashSpaces(sep, false) + y
  {
    assert x + sep + y == x + (sep + y);
    DashSpacesPastNoSpace(x, sep + y);
    DashSpacesBeforeNoSpace(sep, y, false);
  }

  lemma KeptAroundDashRun(x: string, d: string, y: string)
    requires SegmentChars(x) && AllDashes(d) && SegmentChars(y)
    ensures KeepSegmentChars(ExpandAmpersands(x + d + y)) == x + d + y
  {
    var w := x + d + y;
    assert forall i :: 0 <= i < |x| ==> w[i] == x[i];
    assert forall i :: 0 <= i < |d| ==> w[|x| + i] == d[i];
    assert forall i :: 0 <= i < |y| ==> w[|x| + |d| + i] == y[i];
    assert SegmentChars(w);
    ExpandOfNoAmpersand(w);
    KeepOfSegmentChars(w);
  }

  lemma {:induction false} CollapsePastSingleDashes(x: string, t: string, inRun: bool)
    requires NoDoubleDash(x) && x != [] && x[|x| - 1] != '-'
    requires inRun ==> x[0] != '-'
    ensures CollapseDashes(x + t, inRun) == x + CollapseDashes(t, false)
  {
    assert (x + t)[0] == x[0] && (x + t)[1..] == x[1..] + t;
    if |x| == 1 {
      assert x[1..] + t == t;
    } else {
      assert NoDoubleDash(x[1..]) && x[1..][|x[1..]| - 1] == x[|x| - 1];
      CollapsePastSingleDashes(x[1..], t, x[0] == '-');
      assert [x[0]] + (x[1..] + CollapseDashes(t, false)) == x + CollapseDashes(t, false);
    }
  }

  lemma {:induction false} CollapseDashRunBefore(d: string, y: string, inRun: bool)
    requires AllDashes(d)
    requires NoDoubleDash(y) && y != [] && y[0] != '-'
    ensures CollapseDashes(d + y, inRun) == CollapseDashes(d, inRun) + y
  {
    if d == [] {
      assert d + y == y;
      CollapseOfSingleDashes(y, inRun);
    } else {
      assert (d + y)[0] == d[0] && (d + y)[1..] == d[1..] + y;
      assert AllDashes(d[1..]);
      CollapseDashRunBefore(d[1..], y, true);
    }
  }

  lemma CollapseAroundDashRun(x: string, d: string, y: string)
    requires NoDoubleDash(x) && x != [] && x[|x| - 1] != '-'
    requires AllDashes(d) && d != []
    requires NoDoubleDash(y) && y != [] && y[0] != '-'
    ensures CollapseDashes(x + d + y, false) == x + ['-'] + y
  {
    assert x + d + y == x + (d + y);
    CollapsePastSingleDashes(x, d + y, false);
    CollapseDashRunBefore(d, y, false);
    CollapseOfDashRun(d, false);
  }

  lemma JoinIsSlug(x: string, y: string)
    requires IsSlug(x) && IsSlug(y) && x != [] && y != []
    ensures IsSlug(x + ['-'] + y)
  {
    var z := x + ['-'] + y;
    assert forall i :: 0 <= i < |x| ==> z[i] == x[i];
    assert forall i :: 0 <= i < |y| ==> z[|x| + 1 + i] == y[i];
  }

  /**
   * Two slugs with white space and dashes between them are joined by one
   * dash: the white space becomes dashes and the run of dashes collapses.
   */
  lemma SeparatorJoinsSlugs(x: string, sep: string, y: string)
    requires IsSlug(x) && IsSlug(y) && x != [] && y != []
    requires IsSeparator(sep) && sep != []
    ensures NormalizeTrackName(x + sep + y) == x + ['-'] + y
  {
    var d := DashSpaces(sep, false);
    var z := x + ['-'] + y;
    assert SegmentChars(x) && SegmentChars(y);
    SpacesAroundSeparator(x, sep, y);
    DashSpacesOfSeparator(sep, false);
    KeptAroundDashRun(x, d, y);
    CollapseAroundDashRun(x, d, y);
    JoinIsSlug(x, y);
    SlugPassesTail(z);
    KeepOfSegmentChars(z);
    CollapseOfSingleDashes(z, false);
  }

  /** `"intro - outro"` becomes `"intro-outro"`: a spaced dash joins two slugs with one dash. */
  lemma SpacedDashJoinsSlugs(x: string, y: string)
    requires IsSlug(x) && IsSlug(y) && x != [] && y != []
    ensures NormalizeTrackName(x + " - " + y) == x + "-" + y
  {
    assert IsSeparator(" - ");
    SeparatorJoinsSlugs(x, " - ", y);
  }

  /** `[^a-zA-Z0-9-]` matches a character outside the class, which is dropped, not replaced. */
  lemma KeepDropsOther(x: string, c: char, y: string)
    requires !IsSegmentChar(c)
    ensures KeepSegmentChars(x + [c] + y) == KeepSegmentChars(x) + KeepSegmentChars(y)
  {
    KeepAppend(x + [c], y);
    KeepAppend(x, [c]);
    assert [c][1..] == [];
    assert KeepSegmentChars([c]) == [];
  }

  lemma ConcatIsSlug(x: string, y: string)
    requires IsSlug(x) && IsSlug(y)
    ensures IsSlug(x + y)
  {
    var z := x + y;
    assert forall i :: 0 <= i < |x| ==> z[i] == x[i];
    assert forall i :: 0 <= i < |y| ==> z[|x| + i] == y[i];
  }

  /**
   * Punctuation between two slugs, such as the apostrophe of `"don't"`,
   * vanishes without leaving a dash: the two slugs are joined directly.
   */
  lemma PunctuatedPassesFront(x: string, c: char, y: string)
    requires SegmentChars(x) && SegmentChars(y) && !IsSpace(c) && c != '&'
    ensures ExpandAmpersands(DashSpaces(x + [c] + y, false)) == x + [c] + y
  {
    var w := x + [c] + y;
    assert forall i :: 0 <= i < |x| ==> w[i] == x[i];
    assert forall i :: 0 <= i < |y| ==> w[|x| + 1 + i] == y[i];
    assert w[|x|] == c;
    assert forall i :: 0 <= i < |w| ==> !IsSpace(w[i]) && w[i] != '&';
    DashSpacesOfNoSpace(w, false);
    ExpandOfNoAmpersand(w);
  }

  lemma PunctuationBetweenSlugsVanishes(x: string, c: char, y: string)
    requires IsSlug(x) && IsSlug(y)
    requires !IsSpace(c) && c != '&' && !IsSegmentChar(c)
    ensures NormalizeTrackName(x + [c] + y) == x + y
  {
    assert SegmentChars(x) && SegmentChars(y);
    PunctuatedPassesFront(x, c, y);
    KeepDropsOther(x, c, y);
    KeepOfSegmentChars(x);
    KeepOfSegmentChars(y);
    ConcatIsSlug(x, y);
    SlugPassesTail(x + y);
    KeepOfSegmentChars(x + y);
  }

  /** A slug is left as it is, so normalizing twice is normalizing once. */
  lemma NormalizeSlug(s: string)
    requires IsSlug(s)
    ensures NormalizeTrackName(s) == s
  {
    DashSpacesOfNoSpace(s, false);
    ExpandOfNoAmpersand(s);
    SlugPassesTail(s);
  }

  lemma NormalizeTrackNameIdempotent(name: string)
    ensures NormalizeTrackName(NormalizeTrackName(name)) == NormalizeTrackName(name)
  {
    NormalizeTrackNameIsSlug(name);
    NormalizeSlug(NormalizeTrackName(name));
  }

  lemma {:induction false} WordsAppend(a: string, b: string)
    ensures Words(a + b) == Words(a) + Words(b)
  {
    if a != [] {
      assert (a + b)[0] == a[0] && (a + b)[1..] == a[1..] + b;
      WordsAppend(a[1..], b);
    } else {
      assert a + b == b;
    }
  }

  lemma {:induction false} AlnumsAppend(a: string, b: string)
    ensures Alnums(a + b) == Alnums(a) + Alnums(b)
  {
    if a != [] {
      assert (a + b)[0] == a[0] && (a + b)[1..] == a[1..] + b;
      AlnumsAppend(a[1..], b);
    } else {
      assert a + b == b;
    }
  }

  lemma {:induction false} KeepAppend(a: string, b: string)
    ensures KeepSegmentChars(a + b) == KeepSegmentChars(a) + KeepSegmentChars(b)
  {
    if a != [] {
      assert (a + b)[0] == a[0] && (a + b)[1..] == a[1..] + b;
      KeepAppend(a[1..], b);
    } else {
      assert a + b == b;
    }
  }

  lemma {:induction false} AlnumsOfDashes(s: string)
    requires forall i :: 0 <= i < |s| ==> s[i] == '-'
    ensures Alnums(s) == []
  {
    if s != [] {
      AlnumsOfDashes(s[1..]);
    }
  }

  lemma WordsOfDash()
    ensures Words(['-']) == [] && Words([]) == []
  {
    assert ['-'][1..] == [];
  }

  lemma {:induction false} WordsOfDashSpaces(s: string, inRun: bool)
    ensures Words(DashSpaces(s, inRun)) == Words(s)
  {
    if s != [] {
      WordsOfDashSpaces(s[1..], IsSpace(s[0]));
      if IsSpace(s[0]) {
        var head: string := if inRun then [] else ['-'];
        WordsAppend(head, DashSpaces(s[1..], true));
        WordsOfDash();
        assert !IsAlnum(s[0]) && s[0] != '&';
      } else {
        WordsAppend([s[0]], DashSpaces(s[1..], false));
        assert [s[0]][1..] == [];
      }
    }
  }

  lemma {:induction false} AlnumsOfKeptExpansion(s: string)
    ensures Alnums(KeepSegmentChars(ExpandAmpersands(s))) == Words(s)
  {
    if s != [] {
      var head: string := if s[0] == '&' then "and" else [s[0]];
      AlnumsOfKeptExpansion(s[1..]);
      KeepAppend(head, ExpandAmpersands(s[1..]));
      AlnumsAppend(KeepSegmentChars(head), KeepSegmentChars(ExpandAmpersands(s[1..])));
      if s[0] == '&' {
        assert "and"[1..] == "nd" && "nd"[1..] == "d" && "d"[1..] == [];
        assert KeepSegmentChars("and") == "and";
        assert Alnums("and") == "and";
      } else {
        assert [s[0]][1..] == [];
      }
    }
  }

  lemma {:induction false} AlnumsOfCollapse(s: string, inRun: bool)
    ensures Alnums(CollapseDashes(s, inRun)) == Alnums(s)
  {
    if s != [] {
      AlnumsOfCollapse(s[1..], s[0] == '-');
      var rest := CollapseDashes(s[1..], s[0] == '-');
      if s[0] == '-' {
        var head: string := if inRun then [] else ['-'];
        AlnumsAppend(head, rest);
        assert Alnums(head) == [] by {
          if head != [] { assert head[1..] == []; }
        }
      } else {
        AlnumsAppend([s[0]], rest);
        assert [s[0]][1..] == [];
      }
    }
  }

  lemma AlnumsOfDropLeading(s: string)
    ensures Alnums(DropLeadingDashes(s)) == Alnums(s)
  {
    var a := DropLeadingDashes(s);
    var d := s[..|s| - |a|];
    assert s == d + a;
    AlnumsAppend(d, a);
    AlnumsOfDashes(d);
  }

  lemma AlnumsOfDropTrailing(s: string)
    ensures Alnums(DropTrailingDashes(s)) == Alnums(s)
  {
    var t := DropTrailingDashes(s);
    var d := s[|t|..];
    assert s == t + d;
    AlnumsAppend(t, d);
    AlnumsOfDashes(d);
  }

  lemma AlnumsOfTrim(s: string)
    ensures Alnums(TrimDashes(s)) == Alnums(s)
  {
    AlnumsOfDropLeading(s);
    AlnumsOfDropTrailing(DropLeadingDashes(s));
  }

  lemma {:induction false} AlnumsOfLower(s: string)
    ensures Alnums(Lower(s)) == Lower(Alnums(s))
  {
    if s != [] {
      AlnumsOfLower(s[1..]);
      assert Lower(s)[1..] == Lower(s[1..]);
      var head: string := if IsAlnum(s[0]) then [s[0]] else [];
      LowerAppend(head, Alnums(s[1..]));
    }
  }

  /**
   * The output keeps every letter and digit of the name, in order and
   * lower-cased, with each `&` spelled "and"; everything else it holds is
   * dashes.
   */
  lemma NormalizeTrackNameWords(name: string)
    ensures Alnums(NormalizeTrackName(name)) == Lower(Words(name))
  {
    var spaced := DashSpaces(name, false);
    var kept := KeepSegmentChars(ExpandAmpersands(spaced));
    var collapsed := CollapseDashes(kept, false);
    WordsOfDashSpaces(name, false);
    AlnumsOfKeptExpansion(spaced);
    AlnumsOfCollapse(kept, false);
    AlnumsOfTrim(collapsed);
    AlnumsOfLower(TrimDashes(collapsed));
  }

  lemma {:induction false} NoAlnumsIsAllDashes(s: string)
    requires IsSlug(s) && Alnums(s) == []
    ensures s == []
  {
  }

  lemma {:induction false} WordsOfPunctuation(s: string)
    requires forall i :: 0 <= i < |s| ==> !IsAlnum(s[i]) && s[i] != '&'
    ensures Words(s) == []
  {
    if s != [] {
      WordsOfPunctuation(s[1..]);
    }
  }

  /** A name with no letter, digit or `&` normalizes to the empty string. */
  lemma PunctuationOnlyIsEmpty(name: string)
    requires forall i :: 0 <= i < |name| ==> !IsAlnum(name[i]) && name[i] != '&'
    ensures NormalizeTrackName(name) == []
  {
    WordsOfPunctuation(name);
    NormalizeTrackNameWords(name);
    NormalizeTrackNameIsSlug(name);
    NoAlnumsIsAllDashes(NormalizeTrackName(name));
  }

  lemma DashSpacesOfExample(x: char, y: char)
    requires !IsSpace(x) && !IsSpace(y)
    ensures DashSpaces([x, ' ', '&', ' ', y], false) == [x, '-', '&', '-', y]
  {
    assert IsSpace(' ') && !IsSpace('&');
    var s := [x, ' ', '&', ' ', y];
    assert DashSpaces(s[4..], true) == [y];
    assert DashSpaces(s[3..], false) == ['-', y];
    assert DashSpaces(s[2..], true) == ['&', '-', y];
    assert DashSpaces(s[1..], false) == ['-', '&', '-', y];
  }

  lemma ExpandAmpersandsOfExample(x: char, y: char)
    requires x != '&' && y != '&'
    ensures ExpandAmpersands([x, '-', '&', '-', y]) == [x, '-', 'a', 'n', 'd', '-', y]
  {
    var e := [x, '-', '&', '-', y];
    assert ExpandAmpersands(e[4..]) == [y];
    assert ExpandAmpersands(e[3..]) == ['-', y];
    assert ExpandAmpersands(e[2..]) == ['a', 'n', 'd', '-', y];
    assert ExpandAmpersands(e[1..]) == ['-', 'a', 'n', 'd', '-', y];
  }

  /**
   * "x & y" becomes "x-and-y" for lower-case letters or digits `x` and `y`:
   * the spaces around the `&` become dashes.
   */
  lemma AmpersandBecomesAnd(x: char, y: char)
    requires IsLowerLetter(x) || IsDigit(x)
    requires IsLowerLetter(y) || IsDigit(y)
    ensures NormalizeTrackName([x, ' ', '&', ' ', y]) == [x, '-', 'a', 'n', 'd', '-', y]
  {
    DashSpacesOfExample(x, y);
    ExpandAmpersandsOfExample(x, y);
    var r := [x, '-', 'a', 'n', 'd', '-', y];
    assert IsSlug(r);
    SlugPassesTail(r);
  }
}
