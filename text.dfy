/**
  The string operations the segment parser relies on: Python's `str.strip`,
  `str.rstrip`, `str.split(sep)` and `str.isidentifier`, restricted to ASCII.
 */
module Text {

  /** The characters below 128 for which Python's `str.isspace` holds:
      tab, line feed, vertical tab, form feed, carriage return, the four
      information separators 0x1C-0x1F, and the space. */
  predicate IsSpace(c: char) {
    c == ' ' || ('\U{9}' <= c <= '\U{D}') || ('\U{1C}' <= c <= '\U{1F}')
  }

  predicate AllSpace(s: string) {
    forall k :: 0 <= k < |s| ==> IsSpace(s[k])
  }

  /** Neither end of `s` is whitespace (true of the empty string). */
  predicate Trimmed(s: string) {
    s == [] || (!IsSpace(s[0]) && !IsSpace(s[|s| - 1]))
  }

  /** `s.lstrip()`: the longest suffix of `s` that does not start with whitespace. */
  function LStrip(s: string): (r: string)
    ensures |r| <= |s| && r == s[|s| - |r|..]
    ensures AllSpace(s[..|s| - |r|])
    ensures r == [] || !IsSpace(r[0])
  {
    if s != [] && IsSpace(s[0]) then
      var r := LStrip(s[1..]);
      assert s[..|s| - |r|] == [s[0]] + s[1..][..|s| - 1 - |r|];
      r
    else s
  }

  /** `s.rstrip()`: the longest prefix of `s` that does not end with whitespace. */
  function RStrip(s: string): (r: string)
    ensures |r| <= |s| && r == s[..|r|]
    ensures AllSpace(s[|r|..])
    ensures r == [] || !IsSpace(r[|r| - 1])
  {
    if s != [] && IsSpace(s[|s| - 1]) then
      var r := RStrip(s[..|s| - 1]);
      assert s[|r|..] == s[..|s| - 1][|r|..] + [s[|s| - 1]];
      r
    else s
  }

  /** `s.strip()`: `s` without its leading and trailing whitespace. */
  function Strip(s: string): (r: string)
    ensures Trimmed(r) && |r| <= |s|
  {
    var l := LStrip(s);
    var r := RStrip(l);
    assert Trimmed(r) by {
      if r != [] {
        assert r[0] == l[0];
      }
    }
    r
  }

  /** What `strip` removes is whitespace: the input is some whitespace, the
      result, and some more whitespace. */
  lemma StripSpaced(s: string)
    ensures exists w1, w2 :: AllSpace(w1) && AllSpace(w2) && s == w1 + Strip(s) + w2
  {
    var l := LStrip(s);
    var r := RStrip(l);
    var w1, w2 := s[..|s| - |l|], l[|r|..];
    Decompose(s, l, r);
    assert AllSpace(w1) && AllSpace(w2) && s == w1 + Strip(s) + w2;
  }

  /** A suffix `l` of `s`, and a prefix `r` of `l`, cut `s` into three parts. */
  lemma Decompose<T>(s: seq<T>, l: seq<T>, r: seq<T>)
    requires |l| <= |s| && l == s[|s| - |l|..]
    requires |r| <= |l| && r == l[..|r|]
    ensures s == s[..|s| - |l|] + r + l[|r|..]
  {
    assert l == r + l[|r|..];
    assert s == s[..|s| - |l|] + l;
  }

  /** Removing whitespace that pads an already trimmed string gives it back. */
  lemma {:induction false} RStripPadded(x: string, w: string)
    requires x == [] || !IsSpace(x[|x| - 1])
    requires AllSpace(w)
    ensures RStrip(x + w) == x
    decreases |w|
  {
    if w != [] {
      assert (x + w)[..|x + w| - 1] == x + w[..|w| - 1];
      RStripPadded(x, w[..|w| - 1]);
    } else {
      assert x + w == x;
    }
  }

  lemma {:induction false} LStripPadded(w: string, x: string)
    requires x == [] || !IsSpace(x[0])
    requires AllSpace(w)
    ensures LStrip(w + x) == x
    decreases |w|
  {
    if w != [] {
      assert (w + x)[1..] == w[1..] + x;
      LStripPadded(w[1..], x);
    } else {
      assert w + x == x;
    }
  }

  /** Whitespace around a trimmed string is exactly what `strip` removes. */
  lemma StripPadded(w1: string, x: string, w2: string)
    requires AllSpace(w1) && AllSpace(w2) && Trimmed(x)
    ensures Strip(w1 + x + w2) == x
  {
    if x == [] {
      assert w1 + x + w2 == w1 + w2;
      assert AllSpace(w1 + w2);
      LStripAllSpace(w1 + w2);
    } else {
      assert w1 + x + w2 == w1 + (x + w2);
      LStripPadded(w1, x + w2);
      RStripPadded(x, w2);
    }
  }

  lemma {:induction false} LStripAllSpace(w: string)
    requires AllSpace(w)
    ensures LStrip(w) == []
    decreases |w|
  {
    if w != [] {
      LStripAllSpace(w[1..]);
    }
  }

  /** `sep.join(parts)`, the inverse of `Split`. */
  function Join(parts: seq<string>, sep: char): (r: string)
    requires |parts| >= 1
    ensures |r| >= |parts| - 1
  {
    if |parts| == 1 then parts[0] else parts[0] + [sep] + Join(parts[1..], sep)
  }

  /** `s.split(sep)` for a one-character separator: always at least one part,
      possibly empty ones; no part contains the separator, and joining the
      parts with it gives `s` back. */
  function Split(s: string, sep: char): (r: seq<string>)
    ensures |r| >= 1
    ensures forall k :: 0 <= k < |r| ==> sep !in r[k]
    ensures Join(r, sep) == s
    decreases |s|
  {
    if s == [] then [[]]
    else
      var rest := Split(s[1..], sep);
      if s[0] == sep then [[]] + rest
      else [[s[0]] + rest[0]] + rest[1..]
  }

  /** Splitting on a separator that occurs in none of the parts undoes `Join`. */
  lemma {:induction false} SplitJoin(parts: seq<string>, sep: char)
    requires |parts| >= 1
    requires forall k :: 0 <= k < |parts| ==> sep !in parts[k]
    ensures Split(Join(parts, sep), sep) == parts
    decreases |Join(parts, sep)|
  {
    var s := Join(parts, sep);
    if parts[0] == [] {
      if |parts| > 1 {
        assert s == [sep] + Join(parts[1..], sep);
        assert s[1..] == Join(parts[1..], sep);
        SplitJoin(parts[1..], sep);
        assert parts == [[]] + parts[1..];
      }
    } else {
      var tail := [parts[0][1..]] + parts[1..];
      assert Join(tail, sep) == s[1..] by {
        if |parts| == 1 {
        } else {
          assert Join(tail, sep) == parts[0][1..] + [sep] + Join(parts[1..], sep);
          assert s == parts[0] + [sep] + Join(parts[1..], sep);
        }
      }
      assert s[0] == parts[0][0];
      assert sep !in parts[0][1..] by {
        assert forall k :: 0 <= k < |parts[0][1..]| ==> parts[0][1..][k] == parts[0][k + 1];
      }
      assert forall k :: 0 <= k < |tail| ==> sep !in tail[k] by {
        forall k | 0 <= k < |tail| ensures sep !in tail[k] {
          if k > 0 { assert tail[k] == parts[k]; }
        }
      }
      SplitJoin(tail, sep);
      assert [parts[0][0]] + parts[0][1..] == parts[0];
      assert parts == [[s[0]] + tail[0]] + tail[1..];
    }
  }

  predicate IsIdStart(c: char) {
    ('a' <= c <= 'z') || ('A' <= c <= 'Z') || c == '_'
  }

  predicate IsIdChar(c: char) {
    IsIdStart(c) || ('0' <= c <= '9')
  }

  /** `s.isidentifier()` over ASCII: a letter or underscore, then letters,
      digits and underscores. Keywords count as identifiers, as in Python. */
  predicate IsIdentifier(s: string) {
    |s| >= 1 && IsIdStart(s[0]) && forall k :: 1 <= k < |s| ==> IsIdChar(s[k])
  }

  /** An identifier never has whitespace at either end. */
  lemma IdentifierTrimmed(s: string)
    requires IsIdentifier(s)
    ensures Trimmed(s) && s != []
  {
    assert !IsSpace(s[0]);
    if |s| > 1 {
      assert IsIdChar(s[|s| - 1]);
    }
  }
}
