/** String operations of JavaScript that the application relies on, on `seq<char>`:
    `String.prototype.trim`, `toLowerCase` (ASCII letters only), `includes`,
    `split('\n')` and the default order of `Array.prototype.sort` on strings. */
module Text {

  /** The characters `trim` removes: ECMAScript WhiteSpace (TAB, VT, FF, SP, NBSP,
      ZWNBSP and the Unicode space separators) and LineTerminator (LF, CR, LS, PS). */
  predicate IsSpace(c: char) {
    || c == '\t' || c == '\n' || c == '\U{000B}' || c == '\U{000C}' || c == '\r'
    || c == ' ' || c == '\U{00A0}' || c == '\U{1680}'
    || ('\U{2000}' <= c <= '\U{200A}')
    || c == '\U{2028}' || c == '\U{2029}' || c == '\U{202F}' || c == '\U{205F}'
    || c == '\U{3000}' || c == '\U{FEFF}'
  }

  predicate AllSpace(s: string) {
    forall k :: 0 <= k < |s| ==> IsSpace(s[k])
  }

  /** Number of whitespace characters at the start of `s`. */
  function LeadingSpaces(s: string): (n: nat)
    ensures n <= |s|
    ensures AllSpace(s[..n])
    ensures n < |s| ==> !IsSpace(s[n])
  {
    if |s| > 0 && IsSpace(s[0]) then
      var m := LeadingSpaces(s[1..]);
      assert s[1..][..m] == s[1..m + 1];
      1 + m
    else 0
  }

  /** Number of whitespace characters at the end of `s`. */
  function TrailingSpaces(s: string): (n: nat)
    ensures n <= |s|
    ensures forall k :: |s| - n <= k < |s| ==> IsSpace(s[k])
    ensures n < |s| ==> !IsSpace(s[|s| - n - 1])
  {
    if |s| > 0 && IsSpace(s[|s| - 1]) then
      1 + TrailingSpaces(s[..|s| - 1])
    else 0
  }

  /** `s.trim()`: `s` with its leading and trailing whitespace removed. */
  function Trim(s: string): (r: string)
    ensures |r| <= |s|
    ensures r == [] <==> AllSpace(s)
    ensures r != [] ==> !IsSpace(r[0]) && !IsSpace(r[|r| - 1])
  {
    var a := LeadingSpaces(s);
    var b := TrailingSpaces(s[a..]);
    assert a < |s| ==> b < |s| - a by {
      if a < |s| { assert s[a..][0] == s[a]; }
    }
    s[a..|s| - b]
  }

  /** What `trim` removes is whitespace on both sides and nothing in between. */
  lemma TrimSlice(s: string)
    ensures var a := LeadingSpaces(s);
            a + |Trim(s)| <= |s| && Trim(s) == s[a..a + |Trim(s)|]
            && AllSpace(s[..a]) && AllSpace(s[a + |Trim(s)|..])
  {
    var a := LeadingSpaces(s);
    var t := s[a..];
    var b := TrailingSpaces(t);
    var r := Trim(s);
    assert r == s[a..|s| - b];
    assert a + |r| == |s| - b;
    var tail := s[|s| - b..];
    forall k | 0 <= k < |tail| ensures IsSpace(tail[k]) {
      assert tail[k] == t[|t| - b + k];
    }
  }

  /** The lower-case form of one character (ASCII letters only). */
  function LowerChar(c: char): (d: char)
    ensures 'A' <= c <= 'Z' ==> 'a' <= d <= 'z' && d as int == c as int + 32
    ensures !('A' <= c <= 'Z') ==> d == c
  {
    if 'A' <= c <= 'Z' then (c as int + 32) as char else c
  }

  /** `s.toLowerCase()`, with case mapping restricted to ASCII letters. */
  function Lower(s: string): (r: string)
    ensures |r| == |s|
    ensures forall k :: 0 <= k < |s| ==> r[k] == LowerChar(s[k])
  {
    seq(|s|, k requires 0 <= k < |s| => LowerChar(s[k]))
  }

  lemma LowerIdempotent(s: string)
    ensures Lower(Lower(s)) == Lower(s)
  {
    assert forall k :: 0 <= k < |s| ==> LowerChar(LowerChar(s[k])) == LowerChar(s[k]);
  }

  /** `hay.includes(needle)`: `needle` occurs in `hay` at some offset. */
  predicate Contains(hay: string, needle: string): (b: bool)
    ensures b <==> exists k :: 0 <= k && k + |needle| <= |hay| && OccursAt(hay, needle, k)
    decreases |hay|
  {
    if needle <= hay then
      assert OccursAt(hay, needle, 0);
      true
    else if |hay| == 0 then false
    else
      var tail := Contains(hay[1..], needle);
      assert tail ==> exists k :: 1 <= k && k + |needle| <= |hay| && OccursAt(hay, needle, k) by {
        if tail {
          var k :| 0 <= k && k + |needle| <= |hay[1..]| && OccursAt(hay[1..], needle, k);
          assert hay[1..][k..k + |needle|] == hay[k + 1..k + 1 + |needle|];
          assert OccursAt(hay, needle, k + 1);
        }
      }
      assert (exists k :: 1 <= k && k + |needle| <= |hay| && OccursAt(hay, needle, k)) ==> tail by {
        if exists k :: 1 <= k && k + |needle| <= |hay| && OccursAt(hay, needle, k) {
          var k :| 1 <= k && k + |needle| <= |hay| && OccursAt(hay, needle, k);
          assert hay[1..][k - 1..k - 1 + |needle|] == hay[k..k + |needle|];
          assert OccursAt(hay[1..], needle, k - 1);
        }
      }
      tail
  }

  /** `needle` sits in `hay` starting at offset `k`. */
  predicate OccursAt(hay: string, needle: string, k: nat) {
    k + |needle| <= |hay| && hay[k..k + |needle|] == needle
  }

  /** `s.split('\n')`: the pieces between newline characters, at least one. */
  function SplitLines(s: string): (lines: seq<string>)
    ensures |lines| >= 1
    ensures forall i :: 0 <= i < |lines| ==> '\n' !in lines[i]
    decreases |s|
  {
    if |s| == 0 then [""]
    else
      var rest := SplitLines(s[1..]);
      if s[0] == '\n' then [""] + rest
      else [[s[0]] + rest[0]] + rest[1..]
  }

  /** `lines.join('\n')`. */
  function JoinLines(lines: seq<string>): string
    requires |lines| >= 1
  {
    if |lines| == 1 then lines[0] else lines[0] + "\n" + JoinLines(lines[1..])
  }

  /** Splitting at newlines loses nothing: joining the pieces gives the text back. */
  lemma {:induction false} SplitJoin(s: string)
    ensures JoinLines(SplitLines(s)) == s
    decreases |s|
  {
    if |s| > 0 {
      var rest := SplitLines(s[1..]);
      SplitJoin(s[1..]);
      if s[0] == '\n' {
        assert [""] + rest == [""] + rest;
        calc {
          JoinLines([""] + rest);
          "" + "\n" + JoinLines(rest);
          [s[0]] + s[1..];
        }
      } else {
        var lines := [[s[0]] + rest[0]] + rest[1..];
        if |rest| == 1 {
          assert JoinLines(lines) == [s[0]] + rest[0];
        } else {
          assert lines[1..] == rest[1..];
          assert JoinLines(rest) == rest[0] + "\n" + JoinLines(rest[1..]);
          assert JoinLines(lines) == [s[0]] + rest[0] + "\n" + JoinLines(rest[1..]);
        }
        assert [s[0]] + s[1..] == s;
      }
    }
  }

  /** A first line without newlines is glued onto the first piece of what follows. */
  lemma {:induction false} SplitLinesPrefix(a: string, s: string)
    requires '\n' !in a
    ensures SplitLines(a + s) == [a + SplitLines(s)[0]] + SplitLines(s)[1..]
  {
    if a == [] {
      var pieces := SplitLines(s);
      assert a + s == s && a + pieces[0] == pieces[0];
      assert pieces == [pieces[0]] + pieces[1..];
    } else {
      var t, pieces := a + s, SplitLines(s);
      assert a[0] in a && t[0] == a[0];
      assert t[1..] == a[1..] + s;
      SplitLinesPrefix(a[1..], s);
      var rest := SplitLines(t[1..]);
      assert rest[0] == a[1..] + pieces[0] && rest[1..] == pieces[1..];
      assert SplitLines(t) == [[t[0]] + rest[0]] + rest[1..];
      assert [a[0]] + (a[1..] + pieces[0]) == a + pieces[0];
    }
  }

  /** Lines without newlines, joined with newlines, split back into the same lines. */
  lemma {:induction false} JoinSplit(lines: seq<string>)
    requires |lines| >= 1
    requires forall i :: 0 <= i < |lines| ==> '\n' !in lines[i]
    ensures SplitLines(JoinLines(lines)) == lines
  {
    if |lines| == 1 {
      SplitLinesPrefix(lines[0], "");
      assert lines[0] + "" == lines[0];
    } else {
      var rest := JoinLines(lines[1..]);
      JoinSplit(lines[1..]);
      var tail := "\n" + rest;
      assert tail[0] == '\n' && tail[1..] == rest;
      assert SplitLines(tail) == [""] + SplitLines(rest);
      SplitLinesPrefix(lines[0], tail);
      assert JoinLines(lines) == lines[0] + tail;
      assert lines[0] + "" == lines[0];
      assert lines == [lines[0]] + lines[1..];
    }
  }

  /** The order JavaScript's default `sort` puts strings in: code unit by code
      unit, a proper prefix first. */
  predicate LexLess(a: string, b: string)
    decreases |a|
  {
    if |a| == 0 then |b| > 0
    else if |b| == 0 then false
    else if a[0] != b[0] then a[0] < b[0]
    else LexLess(a[1..], b[1..])
  }

  lemma {:induction false} LexLessIrreflexive(a: string)
    ensures !LexLess(a, a)
    decreases |a|
  {
    if |a| > 0 { LexLessIrreflexive(a[1..]); }
  }

  lemma {:induction false} LexLessTransitive(a: string, b: string, c: string)
    requires LexLess(a, b) && LexLess(b, c)
    ensures LexLess(a, c)
    decreases |a|
  {
    if |a| > 0 && a[0] == b[0] && b[0] == c[0] {
      LexLessTransitive(a[1..], b[1..], c[1..]);
    }
  }

  lemma {:induction false} LexLessTotal(a: string, b: string)
    requires a != b
    ensures LexLess(a, b) || LexLess(b, a)
    decreases |a|
  {
    if |a| > 0 && |b| > 0 && a[0] == b[0] {
      assert a == [a[0]] + a[1..] && b == [b[0]] + b[1..];
      LexLessTotal(a[1..], b[1..]);
    }
  }

  /** Strictly increasing in `LexLess`, hence also free of duplicates. */
  predicate StrictlySorted(s: seq<string>) {
    forall i, j :: 0 <= i < j < |s| ==> LexLess(s[i], s[j])
  }
}
