/**
 The small pieces of Python's string and path library that the catalogue
 server relies on: `str` of an integer, `str.lower`, and the POSIX
 `os.path.basename` and `os.path.splitext`.
 */
module PythonText {

  /** The decimal digit character for `d`. */
  function Digit(d: nat): (c: char)
    requires d < 10
    ensures '0' <= c <= '9'
  {
    (48 + d) as char
  }

  /** Decimal rendering of a natural number, without leading zeros. */
  function NatToString(n: nat): (s: string)
    ensures |s| >= 1
    ensures n >= 10 ==> |s| >= 2
    ensures forall i :: 0 <= i < |s| ==> '0' <= s[i] <= '9'
    decreases n
  {
    if n < 10 then [Digit(n)] else NatToString(n / 10) + [Digit(n % 10)]
  }

  /** Python's `str(i)` for an integer `i`. */
  function Str(i: int): string
  {
    if i < 0 then "-" + NatToString(-i) else NatToString(i)
  }

  lemma {:induction false} NatToStringInjective(a: nat, b: nat)
    requires NatToString(a) == NatToString(b)
    ensures a == b
    decreases a
  {
    if a >= 10 && b >= 10 {
      var sa, sb := NatToString(a / 10), NatToString(b / 10);
      assert NatToString(a) == sa + [Digit(a % 10)];
      assert NatToString(b) == sb + [Digit(b % 10)];
      assert (sa + [Digit(a % 10)])[..|sa|] == sa;
      assert (sb + [Digit(b % 10)])[..|sb|] == sb;
      assert |sa| == |sb|;
      NatToStringInjective(a / 10, b / 10);
    }
  }

  /** Two different integers never print the same: `str` is injective. */
  lemma StrInjective(a: int, b: int)
    requires Str(a) == Str(b)
    ensures a == b
  {
    assert Str(a)[0] == '-' <==> a < 0;
    assert Str(b)[0] == '-' <==> b < 0;
    if a < 0 {
      assert NatToString(-a) == Str(a)[1..];
      assert NatToString(-b) == Str(b)[1..];
      NatToStringInjective(-a, -b);
    } else {
      NatToStringInjective(a, b);
    }
  }

  /** Lower-casing of one character, ASCII letters only. */
  function LowerChar(c: char): char
  {
    if 'A' <= c <= 'Z' then (c as int + 32) as char else c
  }

  /** `s.lower()`, restricted to the ASCII letters. */
  function Lower(s: string): string
  {
    if s == [] then [] else [LowerChar(s[0])] + Lower(s[1..])
  }

  /** `s.rfind(c)`: the last position of `c` in `s`, or -1. */
  function LastIndexOf(s: string, c: char): (k: int)
    ensures -1 <= k < |s|
    ensures k >= 0 ==> s[k] == c
    ensures forall i :: k < i < |s| ==> s[i] != c
  {
    if |s| == 0 then -1
    else if s[|s| - 1] == c then |s| - 1
    else LastIndexOf(s[..|s| - 1], c)
  }

  /** `os.path.basename(p)` on POSIX: everything after the last slash. */
  function Basename(p: string): (b: string)
    ensures '/' !in b
    ensures |b| <= |p| && b == p[|p| - |b|..]
  {
    p[LastIndexOf(p, '/') + 1..]
  }

  /** True when every character of `s` is a dot (vacuously for ""). */
  predicate AllDots(s: string)
  {
    s == [] || (s[|s| - 1] == '.' && AllDots(s[..|s| - 1]))
  }

  /**
   The extension of a final path component `b`: the suffix from its last
   dot, provided that dot is preceded by some character other than a dot
   (so ".jpg" and "..jpg" have none, "a..jpg" has ".jpg").
   */
  function ComponentExtension(b: string): string
  {
    if b == [] then ""
    else
      var init, c := b[..|b| - 1], b[|b| - 1];
      if c == '.' then (if AllDots(init) then "" else ".")
      else
        var e := ComponentExtension(init);
        if e == "" then "" else e + [c]
  }

  /** `os.path.splitext(p)[1]` on POSIX: the extension of the last path component. */
  function Extension(p: string): string
  {
    ComponentExtension(Basename(p))
  }

  lemma {:induction false} ComponentExtensionIsSuffix(b: string)
    ensures |ComponentExtension(b)| <= |b| && ComponentExtension(b) == b[|b| - |ComponentExtension(b)|..]
  {
    if b != [] {
      var init, c := b[..|b| - 1], b[|b| - 1];
      if c == '.' {
        assert b[|b| - 1..] == ".";
      } else {
        ComponentExtensionIsSuffix(init);
        var e := ComponentExtension(init);
        if e != "" {
          assert b[|b| - |e| - 1..] == init[|init| - |e|..] + [c];
        }
      }
    }
  }

  lemma {:induction false} ComponentExtensionHasOneDot(b: string)
    ensures ComponentExtension(b) == "" || (ComponentExtension(b)[0] == '.' && '.' !in ComponentExtension(b)[1..])
  {
    if b != [] {
      var init, c := b[..|b| - 1], b[|b| - 1];
      if c != '.' {
        ComponentExtensionHasOneDot(init);
        var e := ComponentExtension(init);
        if e != "" {
          assert (e + [c])[1..] == e[1..] + [c];
        }
      }
    }
  }

  /**
   An extension is empty or a dot followed by no further dot or slash, and
   it is a suffix of the path.
   */
  lemma ExtensionShape(p: string)
    ensures var ext := Extension(p);
      && (ext == "" || (ext[0] == '.' && '/' !in ext && '.' !in ext[1..]))
      && |ext| <= |p| && ext == p[|p| - |ext|..]
  {
    ComponentExtensionIsSuffix(Basename(p));
    ComponentExtensionHasOneDot(Basename(p));
  }

  /** A name made only of a dot and an extension (a hidden file such as ".jpg") has no extension. */
  lemma {:induction false} HiddenFileHasNoExtension(ext: string)
    requires '.' !in ext && '/' !in ext
    ensures Extension("." + ext) == ""
  {
    var p := "." + ext;
    assert LastIndexOf(p, '/') == -1 by {
      NoSlashLastIndex(p);
    }
    assert Basename(p) == p;
    HiddenComponent(ext);
  }

  lemma {:induction false} NoSlashLastIndex(p: string)
    requires '/' !in p
    ensures LastIndexOf(p, '/') == -1
  {
    if p != [] {
      NoSlashLastIndex(p[..|p| - 1]);
    }
  }

  lemma {:induction false} HiddenComponent(ext: string)
    requires '.' !in ext
    ensures ComponentExtension("." + ext) == ""
  {
    if ext == [] {
      assert "." + ext == ".";
      assert AllDots(""[..0]);
    } else {
      var init := ext[..|ext| - 1];
      assert ("." + ext)[..|ext|] == "." + init;
      HiddenComponent(init);
    }
  }

}
