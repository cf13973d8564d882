/** The few Python string operations the core relies on: `str.strip()`,
    `str.split(sep)` and the ordering of `str` values. */
module Text {

  /** Python's `str.isspace()` for one character. */
  predicate IsSpace(c: char) {
    var n := c as int;
    || (0x09 <= n <= 0x0D)
    || (0x1C <= n <= 0x20)
    || n == 0x85 || n == 0xA0 || n == 0x1680
    || (0x2000 <= n <= 0x200A)
    || n == 0x2028 || n == 0x2029 || n == 0x202F || n == 0x205F || n == 0x3000
  }

  predicate AllSpace(s: string) {
    forall k :: 0 <= k < |s| ==> IsSpace(s[k])
  }

  /** Neither end of `s` is whitespace. */
  predicate IsStripped(s: string) {
    s == [] || (!IsSpace(s[0]) && !IsSpace(s[|s| - 1]))
  }

  /** `s.lstrip()`: drops leading whitespace. */
  function TrimLeft(s: string): string {
    if s != [] && IsSpace(s[0]) then TrimLeft(s[1..]) else s
  }

  /** `s.rstrip()`: drops trailing whitespace. */
  function TrimRight(s: string): string {
    if s != [] && IsSpace(s[|s| - 1]) then TrimRight(s[..|s| - 1]) else s
  }

  /** `s.strip()`: `s` without its leading and trailing whitespace. */
  function Strip(s: string): string {
    TrimRight(TrimLeft(s))
  }

  /** `lstrip` keeps the longest suffix that does not start with whitespace. */
  lemma {:induction false} TrimLeftSpec(s: string)
    ensures |TrimLeft(s)| <= |s| && TrimLeft(s) == s[|s| - |TrimLeft(s)|..]
    ensures AllSpace(s[..|s| - |TrimLeft(s)|])
    ensures TrimLeft(s) != [] ==> !IsSpace(TrimLeft(s)[0])
  {
    if s != [] && IsSpace(s[0]) {
      TrimLeftSpec(s[1..]);
      var n := |s| - |TrimLeft(s)|;
      assert s[..n] == [s[0]] + s[1..][..n - 1];
    }
  }

  /** `rstrip` keeps the longest prefix that does not end with whitespace. */
  lemma {:induction false} TrimRightSpec(s: string)
    ensures |TrimRight(s)| <= |s| && TrimRight(s) == s[..|TrimRight(s)|]
    ensures AllSpace(s[|TrimRight(s)|..])
    ensures TrimRight(s) != [] ==> !IsSpace(TrimRight(s)[|TrimRight(s)| - 1])
  {
    if s != [] && IsSpace(s[|s| - 1]) {
      var p := s[..|s| - 1];
      TrimRightSpec(p);
      var n := |TrimRight(s)|;
      assert s[n..] == p[n..] + [s[|s| - 1]];
    }
  }

  /** `strip` removes whitespace only, and all of it at both ends: the result
      is a slice of `s` with nothing but whitespace on either side of it. */
  lemma StripSpec(s: string)
    ensures IsStripped(Strip(s))
    ensures exists i, j :: 0 <= i <= j <= |s| && Strip(s) == s[i..j] && AllSpace(s[..i]) && AllSpace(s[j..])
  {
    var l := TrimLeft(s);
    var r := TrimRight(l);
    TrimLeftSpec(s);
    TrimRightSpec(l);
    var i := |s| - |l|;
    assert r == s[i..i + |r|] && AllSpace(s[..i]);
    assert s[i + |r|..] == l[|r|..];
    if r != [] {
      assert r[0] == l[0];
    }
  }

  /** Stripping twice is stripping once. */
  lemma StripIdempotent(s: string)
    ensures Strip(Strip(s)) == Strip(s)
  {
    var r := Strip(s);
    StripSpec(s);
    StrippedUnchanged(r);
  }

  /** A string with no whitespace at either end is its own `strip`. */
  lemma StrippedUnchanged(s: string)
    requires IsStripped(s)
    ensures Strip(s) == s
  {
  }

  /** A string made only of whitespace strips to the empty string. */
  lemma {:induction false} StripAllSpace(s: string)
    requires AllSpace(s)
    ensures Strip(s) == ""
  {
    TrimLeftAllSpace(s);
  }

  lemma {:induction false} TrimLeftAllSpace(s: string)
    requires AllSpace(s)
    ensures TrimLeft(s) == ""
  {
    if s != [] {
      TrimLeftAllSpace(s[1..]);
    }
  }

  // ---------------------------------------------------------------------
  // str.split(sep)

  /** `s.split(sep)` for a one-character separator: the maximal runs between
      separators, so `""` gives `[""]` and `"a//b"` gives `["a", "", "b"]`. */
  function Split(s: string, sep: char): (parts: seq<string>)
    ensures |parts| >= 1
    ensures forall p :: p in parts ==> sep !in p
  {
    if s == [] then [[]]
    else
      var rest := Split(s[1..], sep);
      if s[0] == sep then [[]] + rest
      else [[s[0]] + rest[0]] + rest[1..]
  }

  /** `sep.join(parts)`. */
  function Join(parts: seq<string>, sep: char): string
    requires |parts| >= 1
  {
    if |parts| == 1 then parts[0] else parts[0] + [sep] + Join(parts[1..], sep)
  }

  /** Splitting loses nothing: joining the parts gives back the string. */
  lemma {:induction false} JoinSplit(s: string, sep: char)
    ensures Join(Split(s, sep), sep) == s
  {
    if s != [] {
      JoinSplit(s[1..], sep);
      var rest := Split(s[1..], sep);
      if s[0] != sep && |rest| > 1 {
        assert rest == [rest[0]] + rest[1..];
      }
    }
  }

  /** A string without the separator is a single part. */
  lemma {:induction false} SplitNoSep(w: string, sep: char)
    requires sep !in w
    ensures Split(w, sep) == [w]
  {
    if w != [] {
      SplitNoSep(w[1..], sep);
      assert w[0] != sep;
      assert w == [w[0]] + w[1..];
    }
  }

  /** Splitting at a separator splits the two sides independently. */
  lemma {:induction false} SplitConcat(a: string, b: string, sep: char)
    ensures Split(a + [sep] + b, sep) == Split(a, sep) + Split(b, sep)
  {
    if a == [] {
      assert a + [sep] + b == [sep] + b;
      assert ([sep] + b)[1..] == b;
    } else {
      assert (a + [sep] + b)[1..] == a[1..] + [sep] + b;
      SplitConcat(a[1..], b, sep);
    }
  }

  /** Three separator-free parts joined by two separators split back into those parts. */
  lemma SplitThree(a: string, b: string, c: string, sep: char)
    requires sep !in a && sep !in b && sep !in c
    ensures Split(a + [sep] + b + [sep] + c, sep) == [a, b, c]
  {
    assert a + [sep] + b + [sep] + c == a + [sep] + (b + [sep] + c);
    SplitConcat(b, c, sep);
    SplitConcat(a, b + [sep] + c, sep);
    SplitNoSep(a, sep);
    SplitNoSep(b, sep);
    SplitNoSep(c, sep);
  }

  lemma {:induction false} JoinAppend(p: seq<string>, q: seq<string>, sep: char)
    requires |p| >= 1 && |q| >= 1
    ensures Join(p + q, sep) == Join(p, sep) + [sep] + Join(q, sep)
  {
    if |p| > 1 {
      assert (p + q)[1..] == p[1..] + q;
      JoinAppend(p[1..], q, sep);
    } else {
      assert (p + q)[1..] == q;
    }
  }

  /** `w` occurs in `s` as a whole `sep`-delimited segment: it holds no
      separator, and it is bounded on each side by a separator or an end of `s`. */
  ghost predicate IsSegmentOf(w: string, s: string, sep: char) {
    sep !in w && exists a, b :: SegmentAt(a, w, b, s, sep)
  }

  /** `s` is `a + w + b` with `a` empty or ending in `sep`, and `b` empty or starting with it. */
  predicate SegmentAt(a: string, w: string, b: string, s: string, sep: char) {
    s == a + w + b && (a == [] || a[|a| - 1] == sep) && (b == [] || b[0] == sep)
  }

  /** Membership in the result of `split` is exactly whole-segment occurrence. */
  lemma SplitMembership(w: string, s: string, sep: char)
    ensures w in Split(s, sep) <==> IsSegmentOf(w, s, sep)
  {
    if w in Split(s, sep) {
      SplitGivesSegment(w, s, sep);
    }
    if IsSegmentOf(w, s, sep) {
      var a, b :| SegmentAt(a, w, b, s, sep);
      SegmentInSplit(w, a, b, sep);
    }
  }

  lemma SplitGivesSegment(w: string, s: string, sep: char)
    requires w in Split(s, sep)
    ensures IsSegmentOf(w, s, sep)
  {
    var parts := Split(s, sep);
    var k :| 0 <= k < |parts| && parts[k] == w;
    JoinSplit(s, sep);
    assert parts[k] in parts;
    var a, b := JoinAt(parts, k, sep);
    assert SegmentAt(a, w, b, s, sep);
  }

  /** Where the `k`-th part sits inside the joined string. */
  lemma JoinAt(parts: seq<string>, k: nat, sep: char) returns (a: string, b: string)
    requires k < |parts|
    ensures Join(parts, sep) == a + parts[k] + b
    ensures a == [] || a[|a| - 1] == sep
    ensures b == [] || b[0] == sep
  {
    if k == |parts| - 1 {
      b := [];
    } else {
      b := [sep] + Join(parts[k + 1..], sep);
    }
    assert Join(parts[k..], sep) == parts[k] + b by {
      if k < |parts| - 1 {
        assert parts[k..][1..] == parts[k + 1..];
      }
    }
    if k == 0 {
      a := [];
      assert parts == parts[k..];
    } else {
      a := Join(parts[..k], sep) + [sep];
      assert parts == parts[..k] + parts[k..];
      JoinAppend(parts[..k], parts[k..], sep);
    }
  }

  lemma SegmentInSplit(w: string, a: string, b: string, sep: char)
    requires sep !in w
    requires a == [] || a[|a| - 1] == sep
    requires b == [] || b[0] == sep
    ensures w in Split(a + w + b, sep)
  {
    SplitNoSep(w, sep);
    var wb := w + b;
    assert w in Split(wb, sep) by {
      if b != [] {
        assert wb == w + [sep] + b[1..];
        SplitConcat(w, b[1..], sep);
      } else {
        assert wb == w;
      }
    }
    if a != [] {
      var a' := a[..|a| - 1];
      assert a + w + b == a' + [sep] + wb;
      SplitConcat(a', wb, sep);
    } else {
      assert a + w + b == wb;
    }
  }

  // ---------------------------------------------------------------------
  // Ordering of str values

  /** Python's `a < b` on `str`: code-point lexicographic order, a proper
      prefix sorting first. (Dafny's own `<` on sequences is "proper prefix".) */
  predicate StrLess(a: string, b: string) {
    if b == [] then false
    else if a == [] then true
    else if a[0] != b[0] then a[0] < b[0]
    else StrLess(a[1..], b[1..])
  }

  lemma {:induction false} StrLessIrreflexive(a: string)
    ensures !StrLess(a, a)
  {
    if a != [] {
      StrLessIrreflexive(a[1..]);
    }
  }

  lemma {:induction false} StrLessAsymmetric(a: string, b: string)
    ensures !(StrLess(a, b) && StrLess(b, a))
  {
    if a != [] && b != [] && a[0] == b[0] {
      StrLessAsymmetric(a[1..], b[1..]);
    }
  }

  lemma {:induction false} StrLessTransitive(a: string, b: string, c: string)
    requires StrLess(a, b) && StrLess(b, c)
    ensures StrLess(a, c)
  {
    if a != [] && a[0] == b[0] && b[0] == c[0] {
      StrLessTransitive(a[1..], b[1..], c[1..]);
    }
  }

  lemma {:induction false} StrLessTotal(a: string, b: string)
    ensures a == b || StrLess(a, b) || StrLess(b, a)
  {
    if a != [] && b != [] && a[0] == b[0] {
      StrLessTotal(a[1..], b[1..]);
      if a[1..] == b[1..] {
        assert a == [a[0]] + a[1..] && b == [b[0]] + b[1..];
      }
    }
  }
}
