/**
 * The .NET string and path primitives the build pipeline relies on, as the
 * Windows editor runs them: Path.Combine, String.LastIndexOf, Path.GetExtension,
 * Int32.ToString and String.Split.
 */
module Paths {

  const DIRECTORY_SEPARATOR: char := '\\'
  const ALT_DIRECTORY_SEPARATOR: char := '/'
  const VOLUME_SEPARATOR: char := ':'

  predicate IsSeparator(c: char) {
    c == DIRECTORY_SEPARATOR || c == ALT_DIRECTORY_SEPARATOR
  }

  /** No separator or volume separator anywhere in `s`. */
  predicate IsPlainSegment(s: string) {
    forall i :: 0 <= i < |s| ==> !IsSeparator(s[i]) && s[i] != VOLUME_SEPARATOR
  }

  predicate EndsWith(s: string, suffix: string) {
    |suffix| <= |s| && s[|s| - |suffix|..] == suffix
  }

  /** Path.IsPathRooted: a leading separator, or a drive letter followed by ':'. */
  predicate IsRooted(p: string) {
    (|p| >= 1 && IsSeparator(p[0])) || (|p| >= 2 && p[1] == VOLUME_SEPARATOR)
  }

  /**
   * Path.Combine(a, b): an empty part is dropped, a rooted `b` replaces `a`,
   * and a separator is inserted unless `a` already ends with one (or with ':').
   */
  function Combine(a: string, b: string): string {
    if b == "" then a
    else if a == "" then b
    else if IsRooted(b) then b
    else if IsSeparator(a[|a| - 1]) || a[|a| - 1] == VOLUME_SEPARATOR then a + b
    else a + [DIRECTORY_SEPARATOR] + b
  }

  /**
   * What Path.Combine keeps: an empty part is dropped, a rooted second part is the
   * result, the second part ends the result, and unless it is rooted the first part
   * starts it, followed by at most one inserted separator, which is a backslash.
   */
  lemma CombineKeepsParts(a: string, b: string)
    ensures b == "" ==> Combine(a, b) == a
    ensures a == "" ==> Combine(a, b) == b
    ensures IsRooted(b) ==> Combine(a, b) == b
    ensures b != "" ==> EndsWith(Combine(a, b), b)
    ensures !IsRooted(b) ==> |a| <= |Combine(a, b)| && Combine(a, b)[..|a|] == a
    ensures a != "" && b != "" && !IsRooted(b) ==>
      |Combine(a, b)| - |a| - |b| == (if IsSeparator(a[|a| - 1]) || a[|a| - 1] == VOLUME_SEPARATOR then 0 else 1)
    ensures a != "" && b != "" && !IsRooted(b) && !IsSeparator(a[|a| - 1]) && a[|a| - 1] != VOLUME_SEPARATOR ==>
      Combine(a, b)[|a|] == DIRECTORY_SEPARATOR
  {
    var r := Combine(a, b);
    if b != "" && a != "" && !IsRooted(b) {
      if IsSeparator(a[|a| - 1]) || a[|a| - 1] == VOLUME_SEPARATOR {
        assert r == a + b;
        assert r[|r| - |b|..] == b;
        assert r[..|a|] == a;
      } else {
        assert r == a + [DIRECTORY_SEPARATOR] + b;
        assert r[|r| - |b|..] == b;
        assert r[..|a|] == a;
      }
    }
  }

  /** Path.Combine(a, b, c), which the framework evaluates as Combine(Combine(a, b), c). */
  function Combine3(a: string, b: string, c: string): string {
    Combine(Combine(a, b), c)
  }

  /** String.LastIndexOf(c): the index of the last `c`, or -1 when there is none. */
  function LastIndexOf(s: string, c: char): (i: int)
    ensures -1 <= i < |s|
    ensures i >= 0 ==> s[i] == c
    ensures forall j :: i < j < |s| ==> s[j] != c
    decreases |s|
  {
    if s == [] then -1
    else if s[|s| - 1] == c then |s| - 1
    else LastIndexOf(s[..|s| - 1], c)
  }

  /** s.Substring(s.LastIndexOf("\\") + 1): the text after the last backslash, or all of `s`. */
  function AfterLastBackslash(s: string): (name: string)
    ensures DIRECTORY_SEPARATOR !in name
    ensures EndsWith(s, name)
    ensures |name| < |s| ==> s[|s| - |name| - 1] == DIRECTORY_SEPARATOR
  {
    s[LastIndexOf(s, DIRECTORY_SEPARATOR) + 1..]
  }

  /**
   * Where Path.GetExtension's backward scan stops: the index of the last '.',
   * or -1 when a separator, a ':' or the start of the string comes first.
   */
  function ExtensionStart(s: string): (i: int)
    ensures -1 <= i < |s|
    ensures i >= 0 ==> s[i] == '.'
    ensures i >= 0 ==> forall j :: i < j < |s| ==> s[j] != '.' && !IsSeparator(s[j]) && s[j] != VOLUME_SEPARATOR
    ensures i < 0 ==> forall j :: 0 <= j < |s| && s[j] == '.' ==>
      exists k :: j < k < |s| && (IsSeparator(s[k]) || s[k] == VOLUME_SEPARATOR)
    decreases |s|
  {
    if s == [] then -1
    else
      var c := s[|s| - 1];
      if c == '.' then |s| - 1
      else if IsSeparator(c) || c == VOLUME_SEPARATOR then -1
      else ExtensionStart(s[..|s| - 1])
  }

  /**
   * Path.GetExtension (and FileInfo.Extension): "" when the name ends with '.'
   * or no '.' lies in its final segment; otherwise the text from that segment's
   * last '.', which holds no further '.', separator or ':'.
   */
  function Extension(s: string): (ext: string)
    ensures ext == "" || (|ext| >= 2 && ext[0] == '.' && EndsWith(s, ext))
    ensures ext != "" ==> forall j :: 1 <= j < |ext| ==>
      ext[j] != '.' && !IsSeparator(ext[j]) && ext[j] != VOLUME_SEPARATOR
    ensures ext == "" <==> ((|s| > 0 && s[|s| - 1] == '.') ||
      forall j :: 0 <= j < |s| && s[j] == '.' ==>
        exists k :: j < k < |s| && (IsSeparator(s[k]) || s[k] == VOLUME_SEPARATOR))
  {
    var i := ExtensionStart(s);
    if i < 0 || i == |s| - 1 then "" else s[i..]
  }

  lemma {:induction false} ExtensionStartSkips(p: string, q: string)
    requires IsPlainSegment(q) && '.' !in q
    ensures ExtensionStart(p + q) == ExtensionStart(p)
    decreases |q|
  {
    if q != [] {
      var q' := q[..|q| - 1];
      assert (p + q)[..|p + q| - 1] == p + q';
      assert (p + q)[|p + q| - 1] == q[|q| - 1];
      ExtensionStartSkips(p, q');
    } else {
      assert p + q == p;
    }
  }

  /** A name has the extension ".manifest" exactly when it ends with ".manifest". */
  lemma ManifestExtensionIsSuffix(name: string)
    ensures Extension(name) == ".manifest" <==> EndsWith(name, ".manifest")
  {
    if EndsWith(name, ".manifest") {
      var p := name[..|name| - 9];
      assert name == (p + ".") + "manifest";
      ExtensionStartSkips(p + ".", "manifest");
      assert ExtensionStart(p + ".") == |p|;
    }
  }

  function DigitChar(d: nat): char
    requires d < 10
  {
    "0123456789"[d]
  }

  function DigitValue(c: char): nat {
    if '0' <= c <= '9' then (c as int - '0' as int) as nat else 0
  }

  /** The decimal digits of `n`, most significant first, without leading zeros. */
  function NatToDecimal(n: nat): (s: string)
    ensures |s| >= 1
    ensures forall i :: 0 <= i < |s| ==> '0' <= s[i] <= '9'
    decreases n
  {
    if n < 10 then [DigitChar(n)] else NatToDecimal(n / 10) + [DigitChar(n % 10)]
  }

  /** Int32.ToString() with the invariant culture's '-' sign. */
  function IntToDecimal(n: int): (s: string)
    ensures |s| >= 1 && IsPlainSegment(s) && DIRECTORY_SEPARATOR !in s
  {
    if n < 0 then "-" + NatToDecimal(-n) else NatToDecimal(n)
  }

  /** Reads back a string of decimal digits. */
  function DecimalValue(s: string): nat
    decreases |s|
  {
    if s == [] then 0 else DecimalValue(s[..|s| - 1]) * 10 + DigitValue(s[|s| - 1])
  }

  /** Reads back what IntToDecimal writes. */
  function ParseDecimal(s: string): int {
    if |s| > 0 && s[0] == '-' then 0 - DecimalValue(s[1..]) else DecimalValue(s)
  }

  lemma DigitRoundTrip(d: nat)
    requires d < 10
    ensures DigitValue(DigitChar(d)) == d && '0' <= DigitChar(d) <= '9'
  {
  }

  lemma {:induction false} NatToDecimalRoundTrip(n: nat)
    ensures DecimalValue(NatToDecimal(n)) == n
    decreases n
  {
    if n < 10 {
      DigitRoundTrip(n);
      assert DecimalValue([DigitChar(n)]) == DecimalValue([]) * 10 + DigitValue(DigitChar(n));
    } else {
      var q, d := n / 10, n % 10;
      var s := NatToDecimal(q);
      var t := s + [DigitChar(d)];
      NatToDecimalRoundTrip(q);
      DigitRoundTrip(d);
      assert NatToDecimal(n) == t;
      assert t[..|s|] == s && t[|s|] == DigitChar(d);
      assert DecimalValue(t) == DecimalValue(s) * 10 + DigitValue(DigitChar(d));
      assert q * 10 + d == n;
    }
  }

  /** Int32.ToString is an invertible encoding: distinct versions give distinct texts. */
  lemma IntToDecimalRoundTrip(n: int)
    ensures ParseDecimal(IntToDecimal(n)) == n
  {
    var m: nat := if n < 0 then -n else n;
    var digits := NatToDecimal(m);
    NatToDecimalRoundTrip(m);
    if n < 0 {
      var s := "-" + digits;
      assert IntToDecimal(n) == s;
      assert s[0] == '-' && s[1..] == digits;
      assert ParseDecimal(s) == 0 - m;
    } else {
      assert IntToDecimal(n) == digits;
      assert digits[0] != '-';
    }
  }

  /**
   * String.Split(sep) without options: every separator cuts, so empty pieces
   * are kept and the result always has one more piece than `s` has separators.
   */
  function Split(s: string, sep: char): (parts: seq<string>)
    ensures |parts| >= 1
    ensures forall i :: 0 <= i < |parts| ==> sep !in parts[i]
    decreases |s|
  {
    if s == [] then [""]
    else
      var rest := Split(s[1..], sep);
      if s[0] == sep then [""] + rest else [[s[0]] + rest[0]] + rest[1..]
  }

  /** String.Join(sep, parts). */
  function Join(parts: seq<string>, sep: char): string
    requires |parts| >= 1
    decreases |parts|
  {
    if |parts| == 1 then parts[0] else parts[0] + [sep] + Join(parts[1..], sep)
  }

  /** Splitting loses nothing: joining the pieces back gives the original text. */
  lemma {:induction false} SplitJoinRoundTrip(s: string, sep: char)
    ensures Join(Split(s, sep), sep) == s
    decreases |s|
  {
    if s != [] {
      var rest := Split(s[1..], sep);
      SplitJoinRoundTrip(s[1..], sep);
      if s[0] == sep {
        assert ([""] + rest)[1..] == rest;
      } else {
        var parts := [[s[0]] + rest[0]] + rest[1..];
        if |rest| > 1 {
          assert parts[1..] == rest[1..];
        }
        assert s == [s[0]] + s[1..];
      }
    }
  }
}
