/** The parts of Python's `posixpath` and `str` that the recorder and the
    renderer rely on: `join` of two parts, `basename`, `splitext`, ASCII
    `lower()` and `str()` of a natural number. */
module Paths {

  /** Index of the last occurrence of `c` in `s`, or -1 (Python's `str.rfind`). */
  function LastIndexOf(s: string, c: char): (i: int)
    ensures -1 <= i < |s|
    ensures i >= 0 ==> s[i] == c
    ensures forall k :: i < k < |s| ==> s[k] != c
    ensures i == -1 <==> c !in s
  {
    if |s| == 0 then -1
    else if s[|s| - 1] == c then |s| - 1
    else LastIndexOf(s[..|s| - 1], c)
  }

  /** `rfind` on a concatenation looks in the right part first. */
  lemma {:induction false} LastIndexOfAppend(s: string, t: string, c: char)
    ensures LastIndexOf(s + t, c) ==
      (if LastIndexOf(t, c) >= 0 then |s| + LastIndexOf(t, c) else LastIndexOf(s, c))
    decreases |t|
  {
    if |t| == 0 {
      assert s + t == s;
    } else if t[|t| - 1] == c {
      assert (s + t)[|s + t| - 1] == c;
    } else {
      var t' := t[..|t| - 1];
      assert (s + t)[..|s + t| - 1] == s + t';
      LastIndexOfAppend(s, t', c);
    }
  }

  /** Python `os.path.basename`: everything after the last '/'. */
  function Basename(p: string): (r: string)
    ensures '/' !in r
    ensures |r| <= |p| && p[|p| - |r|..] == r
    ensures '/' !in p ==> r == p
  {
    p[LastIndexOf(p, '/') + 1..]
  }

  /** Python `os.path.join(a, b)` with two parts on a POSIX system. */
  function Join(a: string, b: string): (r: string)
    ensures |b| <= |r| && r[|r| - |b|..] == b
    ensures (|b| == 0 || b[0] != '/') ==> |a| <= |r| && r[..|a|] == a
  {
    if |b| > 0 && b[0] == '/' then b
    else if |a| == 0 || a[|a| - 1] == '/' then a + b
    else a + "/" + b
  }

  /** A relative name without directory separators comes back out of `basename`
      after being joined onto any directory. */
  lemma BasenameOfJoin(dir: string, name: string)
    requires '/' !in name
    ensures Basename(Join(dir, name)) == name
  {
    var p := Join(dir, name);
    assert LastIndexOf(name, '/') == -1;
    if |dir| == 0 {
      assert p == name;
    } else if dir[|dir| - 1] == '/' {
      assert p == dir + name;
      LastIndexOfAppend(dir, name, '/');
      assert LastIndexOf(dir, '/') == |dir| - 1;
    } else {
      assert p == (dir + "/") + name;
      LastIndexOfAppend(dir + "/", name, '/');
      LastIndexOfAppend(dir, "/", '/');
    }
  }

  /** Joining onto a directory commutes with appending a suffix to the name. */
  lemma JoinAppend(a: string, b: string, c: string)
    requires |b| > 0 && b[0] != '/'
    ensures Join(a, b + c) == Join(a, b) + c
  {
    assert (b + c)[0] == b[0];
    if !(|a| == 0 || a[|a| - 1] == '/') {
      assert a + "/" + (b + c) == (a + "/" + b) + c;
    }
  }

  predicate AllDots(s: string) {
    forall k :: 0 <= k < |s| ==> s[k] == '.'
  }

  /** The last path component holds something other than dots, so `splitext`
      does not mistake a hidden-file dot for an extension. */
  predicate NamedLastComponent(p: string) {
    !AllDots(p[LastIndexOf(p, '/') + 1..])
  }

  /** An extension as `splitext` returns it: a dot followed by no dot or '/'. */
  predicate IsExtension(e: string) {
    |e| >= 1 && e[0] == '.' && '.' !in e[1..] && '/' !in e
  }

  /** Python `os.path.splitext` on a POSIX path: the extension starts at the last
      dot of the last component, unless that component is only dots up to it. */
  function SplitExt(p: string): (r: (string, string))
    ensures r.0 + r.1 == p
    ensures r.1 == [] || IsExtension(r.1)
  {
    var sep := LastIndexOf(p, '/');
    var dot := LastIndexOf(p, '.');
    if dot > sep && !AllDots(p[sep + 1..dot]) then
      assert p[..dot] + p[dot..] == p;
      assert p[dot..][1..] == p[dot + 1..];
      (p[..dot], p[dot..])
    else
      assert p + [] == p;
      (p, [])
  }

  /** Appending an extension to a named base splits back into the two parts. */
  lemma SplitExtAppend(base: string, ext: string)
    requires IsExtension(ext)
    requires NamedLastComponent(base)
    ensures SplitExt(base + ext) == (base, ext)
  {
    var p := base + ext;
    LastIndexOfAppend(base, ext, '/');
    LastIndexOfAppend(base, ext, '.');
    assert ext == [ext[0]] + ext[1..];
    LastIndexOfAppend([ext[0]], ext[1..], '.');
    var sep := LastIndexOf(base, '/');
    assert LastIndexOf(p, '/') == sep;
    assert LastIndexOf(p, '.') == |base|;
    assert p[sep + 1..|base|] == base[sep + 1..];
    assert p[..|base|] == base;
    assert p[|base|..] == ext;
  }

  function LowerChar(c: char): char {
    if 'A' <= c <= 'Z' then (c as int + 32) as char else c
  }

  /** `str.lower()` restricted to ASCII capitals. */
  function Lower(s: string): (r: string)
    ensures |r| == |s|
    ensures forall k :: 0 <= k < |s| ==> r[k] == LowerChar(s[k])
  {
    if |s| == 0 then [] else [LowerChar(s[0])] + Lower(s[1..])
  }

  function DigitChar(d: nat): char
    requires d < 10
  {
    "0123456789"[d]
  }

  predicate IsDigit(c: char) { '0' <= c <= '9' }

  /** Python `str(n)` for a natural number: its decimal digits. */
  function NatToString(n: nat): (r: string)
    ensures |r| >= 1
    ensures forall k :: 0 <= k < |r| ==> IsDigit(r[k])
  {
    if n < 10 then [DigitChar(n)] else NatToString(n / 10) + [DigitChar(n % 10)]
  }

  function Pow10(k: nat): (r: nat)
    ensures r >= 1
  {
    if k == 0 then 1 else 10 * Pow10(k - 1)
  }

  /** A number whose decimal form has at most `k` digits is below 10^k. */
  lemma {:induction false} ShortDecimalIsSmall(n: nat, k: nat)
    requires |NatToString(n)| <= k
    ensures n < Pow10(k)
  {
    if n >= 10 {
      assert |NatToString(n)| == |NatToString(n / 10)| + 1;
      ShortDecimalIsSmall(n / 10, k - 1);
    } else {
      assert Pow10(k) == 10 * Pow10(k - 1);
    }
  }

  /** Python `int(s)` for a string of decimal digits. */
  function DecimalValue(s: string): (n: nat)
    requires forall k :: 0 <= k < |s| ==> IsDigit(s[k])
  {
    if |s| == 0 then 0
    else
      assert IsDigit(s[|s| - 1]);
      10 * DecimalValue(s[..|s| - 1]) + (s[|s| - 1] as int - '0' as int)
  }

  /** `int(str(n)) == n`: reading back the decimal form gives the number. */
  lemma {:induction false} DecimalRoundTrip(n: nat)
    ensures DecimalValue(NatToString(n)) == n
  {
    var s := NatToString(n);
    if n >= 10 {
      DecimalRoundTrip(n / 10);
      assert s[..|s| - 1] == NatToString(n / 10);
    }
  }
}
