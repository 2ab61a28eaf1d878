/**
 * The pieces of PHP's runtime that the image code leans on, over
 * `string = seq<char>`: `empty()` on strings, `basename`, integer to
 * string conversion, `explode`/`implode` on a one-character separator and
 * `str_replace` with one search string.
 */
module Php {

  datatype Option<T> = None | Some(value: T)

  datatype Result<T, E> = Ok(value: T) | Err(error: E)

  /** `empty($s)` for a string: PHP treats both "" and "0" as empty. */
  predicate IsEmpty(s: string) { s == "" || s == "0" }

  // ---------------------------------------------------------------------
  // basename (POSIX flavour: '/' is the only separator)
  // ---------------------------------------------------------------------

  /** `s` without its trailing run of '/'. */
  function StripTrailingSlashes(s: string): string
    decreases |s|
  {
    if s != [] && s[|s| - 1] == '/' then StripTrailingSlashes(s[..|s| - 1]) else s
  }

  /** What is stripped is exactly the trailing run of '/': the rest is a prefix that does not end in '/'. */
  lemma {:induction false} StripTrailingSlashesSpec(s: string)
    ensures var r := StripTrailingSlashes(s);
      && r <= s
      && (r == [] || r[|r| - 1] != '/')
      && forall i :: |r| <= i < |s| ==> s[i] == '/'
    decreases |s|
  {
    if s != [] && s[|s| - 1] == '/' {
      StripTrailingSlashesSpec(s[..|s| - 1]);
    }
  }

  /** The text after the last '/' of `s` (all of `s` when it has none). */
  function AfterLastSlash(s: string): string
    decreases |s|
  {
    if s == [] || s[|s| - 1] == '/' then [] else AfterLastSlash(s[..|s| - 1]) + [s[|s| - 1]]
  }

  /** The result is the longest suffix of `s` free of '/': it holds no '/' and is preceded by one, if by anything. */
  lemma {:induction false} AfterLastSlashSpec(s: string)
    ensures var r := AfterLastSlash(s);
      && '/' !in r
      && |r| <= |s| && r == s[|s| - |r|..]
      && (|r| < |s| ==> s[|s| - |r| - 1] == '/')
    decreases |s|
  {
    if s != [] && s[|s| - 1] != '/' {
      var s', c := s[..|s| - 1], s[|s| - 1];
      AfterLastSlashSpec(s');
      var r' := AfterLastSlash(s');
      assert AfterLastSlash(s) == r' + [c];
      var k := |s'| - |r'|;
      assert s == s' + [c];
      assert s[k..] == s'[k..] + [c];
      assert k > 0 ==> s[k - 1] == s'[k - 1];
    }
  }

  lemma {:induction false} AfterLastSlashOfPlainName(s: string)
    requires '/' !in s
    ensures AfterLastSlash(s) == s
    decreases |s|
  {
    if s != [] {
      AfterLastSlashOfPlainName(s[..|s| - 1]);
      assert s[..|s| - 1] + [s[|s| - 1]] == s;
    }
  }

  /** PHP's `basename($path)`: trailing slashes are ignored, then the last component is kept. */
  function Basename(path: string): string
  {
    AfterLastSlash(StripTrailingSlashes(path))
  }

  /**
   * A basename holds no '/' and is a piece of the path: the path loses exactly
   * its trailing run of '/', and the basename is what stands after the last
   * '/' of the rest.
   */
  lemma BasenameSpec(path: string)
    ensures var b := Basename(path);
      var t := StripTrailingSlashes(path);
      && '/' !in b
      && t <= path && (t == [] || t[|t| - 1] != '/')
      && (forall i :: |t| <= i < |path| ==> path[i] == '/')
      && |b| <= |t| && t[|t| - |b|..] == b
      && (|b| < |t| ==> t[|t| - |b| - 1] == '/')
  {
    StripTrailingSlashesSpec(path);
    AfterLastSlashSpec(StripTrailingSlashes(path));
  }

  lemma BasenameOfPlainName(s: string)
    requires '/' !in s
    ensures Basename(s) == s
  {
    assert StripTrailingSlashes(s) == s;
    AfterLastSlashOfPlainName(s);
  }

  lemma {:induction false} AfterLastSlashJoin(dir: string, f: string)
    ensures AfterLastSlash(dir + "/" + f) == AfterLastSlash(f)
    decreases |f|
  {
    var s := dir + "/" + f;
    if f == [] {
      assert s[|s| - 1] == '/';
    } else {
      assert s[..|s| - 1] == dir + "/" + f[..|f| - 1];
      AfterLastSlashJoin(dir, f[..|f| - 1]);
    }
  }

  /** Joining a directory in front of a file name does not change its basename. */
  lemma BasenameOfJoin(dir: string, f: string)
    requires f != [] && f[|f| - 1] != '/'
    ensures Basename(dir + "/" + f) == Basename(f)
  {
    var s := dir + "/" + f;
    assert StripTrailingSlashes(s) == s;
    assert StripTrailingSlashes(f) == f;
    AfterLastSlashJoin(dir, f);
  }

  // ---------------------------------------------------------------------
  // integer to string
  // ---------------------------------------------------------------------

  predicate IsDigit(c: char) { '0' <= c <= '9' }

  /** The number a string of decimal digits denotes, most significant digit first. */
  function DigitsValue(r: string): int
    decreases |r|
  {
    if r == [] then 0 else DigitsValue(r[..|r| - 1]) * 10 + (r[|r| - 1] as int - '0' as int)
  }

  /**
   * The decimal form PHP gives a non-negative integer in string context: digits
   * denoting `n`, with no leading zero unless `n` is 0 itself.
   */
  function NatToString(n: nat): (r: string)
    ensures r != []
    ensures forall i :: 0 <= i < |r| ==> IsDigit(r[i])
    ensures DigitsValue(r) == n
    ensures |r| > 1 ==> r[0] != '0'
  {
    if n < 10 then ["0123456789"[n]] else NatToString(n / 10) + ["0123456789"[n % 10]]
  }

  /** A number below 10 is written as its one digit. */
  lemma NatToStringDigit(n: nat)
    requires n < 10
    ensures NatToString(n) == ["0123456789"[n]]
  {
  }

  /** A digit string with a non-zero leading digit denotes at least 1. */
  lemma {:induction false} LeadingDigitPositive(r: string)
    requires r != [] && r[0] != '0' && forall i :: 0 <= i < |r| ==> IsDigit(r[i])
    ensures DigitsValue(r) >= 1
    decreases |r|
  {
    if |r| > 1 {
      LeadingDigitPositive(r[..|r| - 1]);
    }
  }

  /** A digit string with no leading zero is the decimal form of the number it denotes. */
  lemma {:induction false} NatToStringCanonical(r: string)
    requires r != [] && forall i :: 0 <= i < |r| ==> IsDigit(r[i])
    requires |r| > 1 ==> r[0] != '0'
    ensures DigitsValue(r) >= 0 && NatToString(DigitsValue(r)) == r
    decreases |r|
  {
    var c := r[|r| - 1];
    var d := c as int - '0' as int;
    assert 0 <= d < 10 && "0123456789"[d] == c;
    if |r| > 1 {
      var init := r[..|r| - 1];
      NatToStringCanonical(init);
      LeadingDigitPositive(init);
      var v := DigitsValue(r);
      assert v == DigitsValue(init) * 10 + d;
      assert v / 10 == DigitsValue(init) && v % 10 == d;
      assert NatToString(v) == NatToString(DigitsValue(init)) + ["0123456789"[d]];
    }
  }

  /** The decimal form of any integer, with a leading '-' when it is negative. */
  function IntToString(i: int): (r: string)
    ensures r != [] && (r[0] == '-' <==> i < 0)
  {
    if i < 0 then "-" + NatToString(-i) else NatToString(i)
  }

  // ---------------------------------------------------------------------
  // explode / implode on a one-character separator
  // ---------------------------------------------------------------------

  /** `explode(sep, s)`: the pieces between occurrences of `sep`, never an empty list. */
  function Explode(sep: char, s: string): (r: seq<string>)
    ensures |r| >= 1
    ensures forall i :: 0 <= i < |r| ==> sep !in r[i]
    decreases |s|
  {
    if s == [] then [[]]
    else
      var init := Explode(sep, s[..|s| - 1]);
      var c := s[|s| - 1];
      if c == sep then init + [[]]
      else init[..|init| - 1] + [init[|init| - 1] + [c]]
  }

  /** `implode(sep, parts)`: the parts joined with `sep` between neighbours. */
  function Implode(sep: char, parts: seq<string>): string
    decreases |parts|
  {
    if parts == [] then []
    else if |parts| == 1 then parts[0]
    else Implode(sep, parts[..|parts| - 1]) + [sep] + parts[|parts| - 1]
  }

  lemma {:induction false} ImplodeExplode(sep: char, s: string)
    ensures Implode(sep, Explode(sep, s)) == s
    decreases |s|
  {
    if s != [] {
      var s' := s[..|s| - 1];
      var init := Explode(sep, s');
      var c := s[|s| - 1];
      ImplodeExplode(sep, s');
      var r := Explode(sep, s);
      if c == sep {
        assert r[..|r| - 1] == init;
      } else {
        var k := |init| - 1;
        if k > 0 {
          assert r[..|r| - 1] == init[..k];
          assert init[..k][..k - 1] == init[..k - 1];
          assert Implode(sep, init) == Implode(sep, init[..k]) + [sep] + init[k];
        }
      }
      assert s == s' + [c];
    }
  }

  lemma {:induction false} ExplodeWithoutSeparator(sep: char, s: string)
    requires sep !in s
    ensures Explode(sep, s) == [s]
    decreases |s|
  {
    if s != [] {
      ExplodeWithoutSeparator(sep, s[..|s| - 1]);
      assert s[..|s| - 1] + [s[|s| - 1]] == s;
    }
  }

  lemma {:induction false} ExplodeAfterSeparator(sep: char, n: string, e: string)
    requires sep !in e
    ensures Explode(sep, n + [sep] + e) == Explode(sep, n) + [e]
    decreases |e|
  {
    var s := n + [sep] + e;
    if e == [] {
      assert s[..|s| - 1] == n;
    } else {
      var e' := e[..|e| - 1];
      assert s[..|s| - 1] == n + [sep] + e';
      ExplodeAfterSeparator(sep, n, e');
      assert e' + [e[|e| - 1]] == e;
    }
  }

  // ---------------------------------------------------------------------
  // str_replace with one search string
  // ---------------------------------------------------------------------

  /**
   * `str_replace(pat, rep, s)`: every occurrence of `pat`, scanned left to
   * right without overlap, is replaced by `rep`; replaced text is not rescanned.
   */
  function ReplaceAll(s: string, pat: string, rep: string): string
    requires pat != []
    decreases |s|
  {
    if |s| < |pat| then s
    else if s[..|pat|] == pat then rep + ReplaceAll(s[|pat|..], pat, rep)
    else [s[0]] + ReplaceAll(s[1..], pat, rep)
  }

  lemma ReplaceAtStart(pat: string, y: string, rep: string)
    requires pat != []
    ensures ReplaceAll(pat + y, pat, rep) == rep + ReplaceAll(y, pat, rep)
  {
    assert (pat + y)[..|pat|] == pat;
    assert (pat + y)[|pat|..] == y;
  }

  /** Text that does not contain the first character of `pat` passes through unchanged. */
  lemma {:induction false} ReplaceSkipsPlain(c: string, y: string, pat: string, rep: string)
    requires pat != [] && pat[0] !in c
    ensures ReplaceAll(c + y, pat, rep) == c + ReplaceAll(y, pat, rep)
    decreases |c|
  {
    if c != [] {
      var s := c + y;
      if |s| < |pat| {
        assert ReplaceAll(s, pat, rep) == s;
        assert ReplaceAll(y, pat, rep) == y;
      } else {
        assert s[..|pat|][0] == c[0] && c[0] in c;
        assert s[..|pat|] != pat;
        assert s[0] == c[0] && s[1..] == c[1..] + y;
        ReplaceSkipsPlain(c[1..], y, pat, rep);
        assert ReplaceAll(s, pat, rep) == [c[0]] + ReplaceAll(c[1..] + y, pat, rep);
        assert [c[0]] + c[1..] == c;
        assert [c[0]] + (c[1..] + ReplaceAll(y, pat, rep)) == c + ReplaceAll(y, pat, rep);
      }
    } else {
      assert c + y == y;
    }
  }
}
