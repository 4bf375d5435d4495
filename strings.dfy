/**
 * The JavaScript string operations the keybinding parser and the release
 * script rely on: `split` on a one-character separator, `join`, ASCII
 * `toLowerCase`, and a global literal `replace`.
 */
module Strings {

  /** Number of occurrences of `c` in `s`. */
  function Count(s: string, c: char): nat
  {
    if s == [] then 0 else (if s[0] == c then 1 else 0) + Count(s[1..], c)
  }

  /**
   * `s.split(c)`: the pieces between the occurrences of `c`. The empty string
   * gives one empty piece, so there is always one more piece than separators.
   */
  function Split(s: string, c: char): (pieces: seq<string>)
    ensures |pieces| == Count(s, c) + 1
  {
    if s == [] then [""]
    else
      var rest := Split(s[1..], c);
      if s[0] == c then [""] + rest
      else [[s[0]] + rest[0]] + rest[1..]
  }

  /** No piece contains the separator. */
  lemma {:induction false} SplitPiecesLackSeparator(s: string, c: char)
    ensures forall k :: 0 <= k < |Split(s, c)| ==> c !in Split(s, c)[k]
  {
    if s != [] {
      SplitPiecesLackSeparator(s[1..], c);
    }
  }

  /** `parts.join(sep)`; the empty list joins to the empty string. */
  function Join(parts: seq<string>, sep: string): string
  {
    if |parts| == 0 then ""
    else if |parts| == 1 then parts[0]
    else parts[0] + sep + Join(parts[1..], sep)
  }

  lemma JoinCons(p: string, ps: seq<string>, sep: string)
    requires ps != []
    ensures Join([p] + ps, sep) == p + sep + Join(ps, sep)
  {
    assert ([p] + ps)[1..] == ps;
  }

  /** Prefixing the first part prefixes the join. */
  lemma JoinPrepend(x: string, parts: seq<string>, sep: string)
    requires parts != []
    ensures Join([x + parts[0]] + parts[1..], sep) == x + Join(parts, sep)
  {
    if |parts| > 1 {
      JoinCons(x + parts[0], parts[1..], sep);
      JoinCons(parts[0], parts[1..], sep);
      assert [parts[0]] + parts[1..] == parts;
    }
  }

  /** Joining the pieces with the separator gives back the original string. */
  lemma {:induction false} JoinSplit(s: string, c: char)
    ensures Join(Split(s, c), [c]) == s
  {
    if s != [] {
      var rest := Split(s[1..], c);
      JoinSplit(s[1..], c);
      if s[0] == c {
        JoinCons("", rest, [c]);
      } else {
        JoinPrepend([s[0]], rest, [c]);
      }
      assert s == [s[0]] + s[1..];
    }
  }

  /** A string without the separator is a single piece. */
  lemma {:induction false} SplitNoSeparator(s: string, c: char)
    requires c !in s
    ensures Split(s, c) == [s]
  {
    if s != [] {
      SplitNoSeparator(s[1..], c);
      assert [s[0]] + s[1..] == s;
    }
  }

  /** Splitting at the first separator: the part before it is the first piece. */
  lemma {:induction false} SplitAtFirst(a: string, c: char, b: string)
    requires c !in a
    ensures Split(a + [c] + b, c) == [a] + Split(b, c)
  {
    var s := a + [c] + b;
    if a == [] {
      assert s[1..] == b;
    } else {
      assert s[1..] == a[1..] + [c] + b;
      SplitAtFirst(a[1..], c, b);
      assert [a[0]] + a[1..] == a;
    }
  }

  /** Splitting a join of separator-free pieces gives back the pieces. */
  lemma {:induction false} SplitJoin(parts: seq<string>, c: char)
    requires parts != []
    requires forall k :: 0 <= k < |parts| ==> c !in parts[k]
    ensures Split(Join(parts, [c]), c) == parts
  {
    if |parts| == 1 {
      SplitNoSeparator(parts[0], c);
    } else {
      SplitJoin(parts[1..], c);
      SplitAtFirst(parts[0], c, Join(parts[1..], [c]));
      assert [parts[0]] + parts[1..] == parts;
    }
  }

  /** Every character of a join comes from a part or from the separator. */
  lemma {:induction false} JoinChars(parts: seq<string>, sep: string, ch: char)
    requires ch !in sep
    requires forall k :: 0 <= k < |parts| ==> ch !in parts[k]
    ensures ch !in Join(parts, sep)
  {
    if |parts| > 1 {
      JoinChars(parts[1..], sep, ch);
    }
  }

  /** Joining non-empty parts gives the empty string only for no parts. */
  lemma {:induction false} JoinEmpty(parts: seq<string>, sep: string)
    requires forall k :: 0 <= k < |parts| ==> parts[k] != ""
    ensures Join(parts, sep) == "" <==> parts == []
  {
    if |parts| > 1 {
      JoinEmpty(parts[1..], sep);
    }
  }

  /** Every character of a piece occurs in the split string. */
  lemma {:induction false} SplitChars(s: string, c: char, k: nat, ch: char)
    requires k < |Split(s, c)| && ch in Split(s, c)[k]
    ensures ch in s
  {
    if s != [] {
      var rest := Split(s[1..], c);
      if s[0] == c {
        SplitChars(s[1..], c, k - 1, ch);
      } else if k == 0 {
        if ch != s[0] {
          SplitChars(s[1..], c, 0, ch);
        }
      } else {
        SplitChars(s[1..], c, k, ch);
      }
    }
  }

  predicate IsUpper(ch: char) { 'A' <= ch <= 'Z' }

  /** ASCII `toLowerCase` of one character. */
  function LowerChar(ch: char): char
  {
    if IsUpper(ch) then (ch as int + 32) as char else ch
  }

  /** ASCII `toLowerCase`. */
  function Lower(s: string): string
  {
    seq(|s|, k requires 0 <= k < |s| => LowerChar(s[k]))
  }

  /** `s` has no ASCII upper-case letter. */
  predicate IsLower(s: string)
  {
    forall ch :: ch in s ==> !IsUpper(ch)
  }

  /** Lowercasing yields a lower-case string and fixes exactly the lower-case strings. */
  lemma LowerIsLower(s: string)
    ensures IsLower(Lower(s))
    ensures Lower(s) == s <==> IsLower(s)
  {
    var r := Lower(s);
    forall ch | ch in r ensures !IsUpper(ch) {
      var k :| 0 <= k < |r| && r[k] == ch;
      assert r[k] == LowerChar(s[k]);
    }
    if IsLower(s) {
      forall k | 0 <= k < |s| ensures r[k] == s[k] {
        assert s[k] in s;
      }
    }
  }

  lemma LowerAppend(a: string, b: string)
    ensures Lower(a + b) == Lower(a) + Lower(b)
  {
    assert forall k :: 0 <= k < |a + b| ==> Lower(a + b)[k] == (Lower(a) + Lower(b))[k];
  }

  /** `s` begins with `p`. */
  predicate StartsWith(s: string, p: string)
  {
    |p| <= |s| && s[..|p|] == p
  }

  /** `p` occurs somewhere in `s`. */
  predicate Contains(s: string, p: string)
    decreases |s|
  {
    StartsWith(s, p) || (s != [] && Contains(s[1..], p))
  }

  /**
   * `s.replace(/pat/g, rep)` for a literal, non-empty pattern: occurrences are
   * replaced left to right without overlapping.
   */
  function ReplaceAll(s: string, pat: string, rep: string): string
    requires pat != []
    decreases |s|
  {
    if s == [] then []
    else if StartsWith(s, pat) then rep + ReplaceAll(s[|pat|..], pat, rep)
    else [s[0]] + ReplaceAll(s[1..], pat, rep)
  }

  /** A string in which the pattern does not occur is left unchanged. */
  lemma {:induction false} ReplaceAbsent(s: string, pat: string, rep: string)
    requires pat != [] && !Contains(s, pat)
    ensures ReplaceAll(s, pat, rep) == s
    decreases |s|
  {
    if s != [] {
      ReplaceAbsent(s[1..], pat, rep);
      assert [s[0]] + s[1..] == s;
    }
  }

  /** An occurrence of the pattern contains its first character. */
  lemma {:induction false} ContainsFirstChar(s: string, p: string)
    requires p != [] && Contains(s, p)
    ensures p[0] in s
    decreases |s|
  {
    if !StartsWith(s, p) {
      ContainsFirstChar(s[1..], p);
    } else {
      assert s[0] == p[0];
    }
  }

  /** A character outside the pattern cuts every occurrence. */
  lemma {:induction false} ContainsAcross(a: string, c: char, b: string, p: string)
    requires p != [] && c !in p
    requires !Contains(a, p) && !Contains(b, p)
    ensures !Contains(a + [c] + b, p)
    decreases |a|
  {
    var s := a + [c] + b;
    assert !StartsWith(s, p) by {
      if |a| >= |p| {
        assert a[..|p|] == s[..|p|];
      } else {
        assert s[|a|] == c;
      }
    }
    if a == [] {
      assert s[1..] == b;
    } else {
      assert s[1..] == a[1..] + [c] + b;
      ContainsAcross(a[1..], c, b, p);
    }
  }

  /** The pattern does not occur in a join of pattern-free parts. */
  lemma {:induction false} ContainsJoin(parts: seq<string>, c: char, p: string)
    requires p != [] && c !in p
    requires forall k :: 0 <= k < |parts| ==> !Contains(parts[k], p)
    ensures !Contains(Join(parts, [c]), p)
  {
    if |parts| == 0 {
      assert !StartsWith("", p);
    } else if |parts| > 1 {
      ContainsJoin(parts[1..], c, p);
      ContainsAcross(parts[0], c, Join(parts[1..], [c]), p);
    }
  }
}
