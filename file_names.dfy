/**
 * `normalizeFileName(string, repl, directory)` of utils.js.
 *
 * Outside directory mode the name goes through one global replace of
 * `[\\/:*?"<>|\t]| +$` by `repl`, then `toLowerCase`. Directory mode runs the
 * plain mode first, then removes `^\.|\.+$` and lower-cases again.
 */
module FileNames {
  import opened Ascii

  /** The class `[\\/:*?"<>|\t]`. */
  predicate IsIllegal(c: char) {
    c == '\\' || c == '/' || c == ':' || c == '*' || c == '?' || c == '"'
    || c == '<' || c == '>' || c == '|' || c == '\t'
  }

  predicate AllSpaces(s: string) {
    forall i :: 0 <= i < |s| ==> s[i] == ' '
  }

  predicate AllDots(s: string) {
    forall i :: 0 <= i < |s| ==> s[i] == '.'
  }

  predicate NoIllegal(s: string) {
    forall i :: 0 <= i < |s| ==> !IsIllegal(s[i])
  }

  /**
   * The left-to-right scan of `replace(/[\\/:*?"<>|\t]|\ +$/g, repl)`: at each
   * position the first alternative (one illegal character) is tried, then the
   * second (spaces up to the end of the string); otherwise the character is
   * kept. The replacement text is inserted literally.
   */
  function ReplaceIllegal(s: string, repl: string): string
  {
    if s == [] then []
    else if IsIllegal(s[0]) then repl + ReplaceIllegal(s[1..], repl)
    else if AllSpaces(s) then repl
    else [s[0]] + ReplaceIllegal(s[1..], repl)
  }

  /** Reference: every character of `s` replaced one for one, illegal ones by `repl`. */
  function Substituted(s: string, repl: string): string
  {
    if s == [] then [] else (if IsIllegal(s[0]) then repl else [s[0]]) + Substituted(s[1..], repl)
  }

  function Spaces(k: nat): (r: string)
    ensures |r| == k && AllSpaces(r)
  {
    if k == 0 then [] else [' '] + Spaces(k - 1)
  }

  /**
   * The left-to-right scan of `replace(/^\.|\.+$/g, "")`; `atStart` tells
   * whether the scan is at position 0, where `^` can match.
   */
  function StripDots(t: string, atStart: bool): string
  {
    if t == [] then []
    else if atStart && t[0] == '.' then StripDots(t[1..], false)
    else if AllDots(t) then []
    else [t[0]] + StripDots(t[1..], false)
  }

  /** normalizeFileName. */
  function NormalizeFileName(s: string, repl: string, directory: bool): string
  {
    if directory then Lower(StripDots(NormalizeFileName(s, repl, false), true))
    else Lower(ReplaceIllegal(s, repl))
  }

  /**
   * Writing the name as a body `p` that does not end in a space followed by
   * `k` spaces: every character of `p` is replaced one for one, and the
   * trailing run of spaces, when there is one, becomes a single `repl`.
   */
  lemma {:induction false} ReplaceIllegalSpec(p: string, k: nat, repl: string)
    requires p == [] || p[|p| - 1] != ' '
    ensures ReplaceIllegal(p + Spaces(k), repl)
            == Substituted(p, repl) + (if k > 0 then repl else [])
  {
    var s := p + Spaces(k);
    if p == [] {
      assert s == Spaces(k);
      if k > 0 {
        assert !IsIllegal(Spaces(k)[0]);
      }
    } else {
      NotAllSpaces(p, k);
      assert s[0] == p[0] && s[1..] == p[1..] + Spaces(k);
      ReplaceIllegalSpec(p[1..], k, repl);
    }
  }

  /** A body that does not end in a space keeps the whole name from being a run of spaces. */
  lemma NotAllSpaces(p: string, k: nat)
    requires p != [] && p[|p| - 1] != ' '
    ensures !AllSpaces(p + Spaces(k))
  {
    assert (p + Spaces(k))[|p| - 1] == p[|p| - 1];
  }

  lemma {:induction false} ReplaceIllegalIsLegal(s: string, repl: string)
    requires NoIllegal(repl)
    ensures NoIllegal(ReplaceIllegal(s, repl))
  {
    if s != [] {
      ReplaceIllegalIsLegal(s[1..], repl);
      if !IsIllegal(s[0]) && !AllSpaces(s) {
        var r := ReplaceIllegal(s[1..], repl);
        assert [s[0]] + r == ReplaceIllegal(s, repl);
      }
    }
  }

  lemma {:induction false} ReplaceIllegalNoTrailingSpace(s: string, repl: string)
    requires repl != [] && repl[|repl| - 1] != ' '
    ensures var r := ReplaceIllegal(s, repl); r == [] || r[|r| - 1] != ' '
  {
    if s != [] {
      ReplaceIllegalNoTrailingSpace(s[1..], repl);
      if !IsIllegal(s[0]) && !AllSpaces(s) && s[1..] == [] {
        assert s == [s[0]];
      }
    }
  }

  /**
   * Plain mode, with a replacement free of illegal characters that does not
   * end in a space: the name contains no illegal character and does not end
   * in a space.
   */
  lemma FileNameIsLegal(s: string, repl: string)
    requires NoIllegal(repl) && repl != [] && repl[|repl| - 1] != ' '
    ensures var r := NormalizeFileName(s, repl, false);
      NoIllegal(r) && (r == [] || r[|r| - 1] != ' ') && IsLowerCase(r)
  {
    ReplaceIllegalIsLegal(s, repl);
    ReplaceIllegalNoTrailingSpace(s, repl);
  }

  /**
   * Reference for the directory clean-up: with `d` the number of leading dots
   * removed (one when the name starts with a dot, none otherwise), the result
   * is the text after them up to a run of dots that ends the name, and does
   * not itself end in a dot.
   */
  lemma {:induction false} StripDotsSpec(t: string)
    ensures var r := StripDots(t, true);
      var d := if t != [] && t[0] == '.' then 1 else 0;
      d + |r| <= |t| && t[d..d + |r|] == r && AllDots(t[d + |r|..])
      && (r == [] || r[|r| - 1] != '.')
  {
    if t != [] && t[0] == '.' {
      StripDotsTail(t[1..]);
      assert t[1..][|StripDots(t[1..], false)|..] == t[1 + |StripDots(t[1..], false)|..];
    } else {
      StripDotsTail(t);
    }
  }

  lemma {:induction false} StripDotsTail(t: string)
    ensures var r := StripDots(t, false);
      |r| <= |t| && t[..|r|] == r && AllDots(t[|r|..]) && (r == [] || r[|r| - 1] != '.')
  {
    if t != [] && !AllDots(t) {
      StripDotsTail(t[1..]);
      var r' := StripDots(t[1..], false);
      assert t[1..][|r'|..] == t[1 + |r'|..];
      assert AllDots(t[1..]) && t[0] == '.' ==> AllDots(t);
    }
  }

  /** Directory mode: the result is lower-case and never ends with a dot. */
  lemma DirectoryNameShape(s: string, repl: string)
    ensures var r := NormalizeFileName(s, repl, true);
      IsLowerCase(r) && (r == [] || r[|r| - 1] != '.')
  {
    StripDotsSpec(NormalizeFileName(s, repl, false));
  }

  /** Only one leading dot is removed: "..x" becomes ".x". */
  lemma DirectoryKeepsSecondDot()
    ensures NormalizeFileName("..x", "-", true) == ".x"
  {
    assert ReplaceIllegal("x", "-") == "x" by {
      assert !AllSpaces("x");
    }
    assert ReplaceIllegal(".x", "-") == ".x" by {
      assert ".x"[1] != ' ';
      assert ".x"[1..] == "x";
    }
    assert ReplaceIllegal("..x", "-") == "..x" by {
      assert "..x"[2] != ' ';
      assert "..x"[1..] == ".x";
    }
    assert StripDots(".x", false) == ".x" by {
      assert !AllDots(".x");
      assert ".x"[1..] == "x";
      assert StripDots("x", false) == "x" by { assert !AllDots("x"); }
    }
    assert "..x"[1..] == ".x";
  }

  lemma LowerKeepsLegal(s: string)
    requires NoIllegal(s)
    ensures NoIllegal(Lower(s))
  {
  }

  /** Directory mode, with a replacement free of illegal characters: no illegal character (no `/`) survives. */
  lemma DirectoryNameIsLegal(s: string, repl: string)
    requires NoIllegal(repl)
    ensures NoIllegal(NormalizeFileName(s, repl, true))
  {
    var t := NormalizeFileName(s, repl, false);
    ReplaceIllegalIsLegal(s, repl);
    LowerKeepsLegal(ReplaceIllegal(s, repl));
    StripDotsSpec(t);
    var r := StripDots(t, true);
    var d := if t != [] && t[0] == '.' then 1 else 0;
    assert forall i :: 0 <= i < |r| ==> r[i] == t[d + i];
    LowerKeepsLegal(r);
  }
}
