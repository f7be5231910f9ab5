/**
 * The pieces of Python's `str` behaviour that the modelled code relies on:
 * `isspace`, ASCII case and character classes, `split(sep)`, `sep.join(...)`
 * and the substring test `k in t`.
 */
module TextOps {

  /** Python's `str.isspace()` (and the regular-expression class `\s`):
      the ASCII controls 9-13 and 28-31, the space, and the Unicode spaces. */
  predicate IsSpace(c: char)
  {
    var n := c as int;
    (9 <= n <= 13) || (28 <= n <= 32) || n == 0x85 || n == 0xA0 || n == 0x1680
    || (0x2000 <= n <= 0x200A) || n == 0x2028 || n == 0x2029 || n == 0x202F
    || n == 0x205F || n == 0x3000
  }

  predicate IsUpper(c: char) { 'A' <= c <= 'Z' }

  predicate IsLetter(c: char) { 'A' <= c <= 'Z' || 'a' <= c <= 'z' }

  predicate IsDigit(c: char) { '0' <= c <= '9' }

  predicate IsAlnum(c: char) { IsLetter(c) || IsDigit(c) }

  /** `c.lower()` on ASCII letters. */
  function ToLower(c: char): (r: char)
    ensures !IsUpper(r)
    ensures IsUpper(c) ==> r as int == c as int + 32
    ensures !IsUpper(c) ==> r == c
  {
    if IsUpper(c) then (c as int + 32) as char else c
  }

  /** `s.lower()`, character by character. */
  function Lower(s: string): (r: string)
    ensures |r| == |s|
    ensures forall i :: 0 <= i < |s| ==> r[i] == ToLower(s[i])
  {
    if s == [] then [] else [ToLower(s[0])] + Lower(s[1..])
  }

  /** Python's `s.split(sep)` for a one-character separator: there is always
      at least one part, and empty parts are kept. */
  function Split(s: string, sep: char): (parts: seq<string>)
    ensures |parts| >= 1
    decreases |s|
  {
    if s == [] then [[]]
    else
      var rest := Split(s[1..], sep);
      if s[0] == sep then [[]] + rest
      else [[s[0]] + rest[0]] + rest[1..]
  }

  /** Python's `sep.join(parts)`. */
  function Join(parts: seq<string>, sep: string): string
  {
    if |parts| == 0 then []
    else if |parts| == 1 then parts[0]
    else parts[0] + sep + Join(parts[1..], sep)
  }

  /** Concatenation of all parts (`''.join(parts)`). */
  function Concat(parts: seq<string>): string
  {
    if parts == [] then [] else parts[0] + Concat(parts[1..])
  }

  /** `k` occurs in `t` starting at position `i`. */
  predicate OccursAt(t: string, k: string, i: int)
  {
    0 <= i && i + |k| <= |t| && t[i..i + |k|] == k
  }

  /** Python's substring test `k in t`. */
  predicate Contains(t: string, k: string)
  {
    exists i | 0 <= i <= |t| - |k| :: OccursAt(t, k, i)
  }

  /** A string without the separator is split into itself alone. */
  lemma {:induction false} SplitWithoutSep(s: string, sep: char)
    requires sep !in s
    ensures Split(s, sep) == [s]
  {
    if s != [] {
      SplitWithoutSep(s[1..], sep);
      assert [s[0]] + s[1..] == s;
    }
  }

  /** One step of `Split`: how the parts of `[c] + s` arise from those of `s`. */
  lemma SplitCons(c: char, s: string, sep: char)
    ensures Split([c] + s, sep) ==
      if c == sep then [[]] + Split(s, sep)
      else [[c] + Split(s, sep)[0]] + Split(s, sep)[1..]
  {
    assert ([c] + s)[1..] == s;
  }

  /** Splitting at one occurrence of the separator splits each side apart:
      the parts of `x + sep + y` are the parts of `x` followed by those of `y`. */
  lemma {:induction false} SplitAround(x: string, sep: char, y: string)
    ensures Split(x + [sep] + y, sep) == Split(x, sep) + Split(y, sep)
  {
    if x == [] {
      assert x + [sep] + y == [sep] + y;
      SplitCons(sep, y, sep);
    } else {
      var tail := x[1..] + [sep] + y;
      assert x + [sep] + y == [x[0]] + tail;
      assert x == [x[0]] + x[1..];
      SplitAround(x[1..], sep, y);
      SplitCons(x[0], tail, sep);
      SplitCons(x[0], x[1..], sep);
    }
  }

  /** The part in front of the first separator, for a string of the form `w + sep + r`. */
  lemma SplitFirstPart(w: string, sep: char, r: string)
    requires sep !in w
    ensures Split(w + [sep] + r, sep) == [w] + Split(r, sep)
  {
    SplitAround(w, sep, r);
    SplitWithoutSep(w, sep);
  }

  /** The last part after splitting `x + sep + y`, where `y` has no separator, is `y`. */
  lemma SplitLastPart(x: string, sep: char, y: string)
    requires sep !in y
    ensures var p := Split(x + [sep] + y, sep); p[|p| - 1] == y
  {
    SplitAround(x, sep, y);
    SplitWithoutSep(y, sep);
  }

  /** Joining the parts of a split with the same separator gives back the string. */
  lemma {:induction false} JoinSplit(s: string, sep: char)
    ensures Join(Split(s, sep), [sep]) == s
  {
    if s != [] {
      JoinSplit(s[1..], sep);
      var rest := Split(s[1..], sep);
      if s[0] == sep {
        assert Split(s, sep) == [[]] + rest;
        assert s == [sep] + s[1..];
      } else {
        assert Split(s, sep) == [[s[0]] + rest[0]] + rest[1..];
        if |rest| == 1 {
          assert s == [s[0]] + rest[0];
        } else {
          assert Join(rest, [sep]) == rest[0] + [sep] + Join(rest[1..], [sep]);
          assert s == [s[0]] + s[1..];
        }
      }
    }
  }

  /** The first part of a split is the longest separator-free prefix; when
      more parts follow, a separator comes next and the remaining parts are
      the split of what follows it. */
  lemma {:induction false} SplitHead(s: string, sep: char)
    ensures var p := Split(s, sep);
      && sep !in p[0] && |p[0]| <= |s| && p[0] == s[..|p[0]|]
      && (|p| == 1 ==> p[0] == s)
      && (|p| >= 2 ==> |p[0]| < |s| && s[|p[0]|] == sep && p[1..] == Split(s[|p[0]| + 1..], sep))
    decreases |s|
  {
    if s != [] {
      SplitHead(s[1..], sep);
      var rest := Split(s[1..], sep);
      if s[0] != sep {
        var p := Split(s, sep);
        assert p == [[s[0]] + rest[0]] + rest[1..];
        assert s[|p[0]|..] == s[1..][|rest[0]|..];
        if |p| >= 2 {
          assert s[|p[0]| + 1..] == s[1..][|rest[0]| + 1..];
        }
      }
    }
  }

  /** Splitting parts joined by a separator none of them contains gives the
      parts back. */
  lemma {:induction false} SplitJoin(parts: seq<string>, sep: char)
    requires |parts| >= 1
    requires forall i :: 0 <= i < |parts| ==> sep !in parts[i]
    ensures Split(Join(parts, [sep]), sep) == parts
  {
    if |parts| == 1 {
      SplitWithoutSep(parts[0], sep);
    } else {
      SplitJoin(parts[1..], sep);
      SplitFirstPart(parts[0], sep, Join(parts[1..], [sep]));
      assert parts == [parts[0]] + parts[1..];
    }
  }

  /** No part of a split contains the separator. */
  lemma {:induction false} SplitPartsLackSep(s: string, sep: char)
    ensures forall k :: 0 <= k < |Split(s, sep)| ==> sep !in Split(s, sep)[k]
    decreases |s|
  {
    SplitHead(s, sep);
    var p := Split(s, sep);
    if |p| >= 2 {
      SplitPartsLackSep(s[|p[0]| + 1..], sep);
      assert forall k :: 1 <= k < |p| ==> p[k] == p[1..][k - 1];
    }
  }

  /** When the separator occurs, the last part is what follows its last
      occurrence: returns what precedes that occurrence. */
  lemma {:induction false} SplitLastIsSuffix(s: string, sep: char) returns (prefix: string)
    requires |Split(s, sep)| >= 2
    ensures var p := Split(s, sep); s == prefix + [sep] + p[|p| - 1]
    decreases |s|
  {
    SplitHead(s, sep);
    var p := Split(s, sep);
    var head := p[0];
    var rest := s[|head| + 1..];
    assert s == s[..|head|] + [s[|head|]] + rest;
    var pr := Split(rest, sep);
    assert pr == p[1..];
    var last := p[|p| - 1];
    assert last == pr[|pr| - 1];
    if |pr| == 1 {
      SplitHead(rest, sep);
      prefix := head;
    } else {
      var inner := SplitLastIsSuffix(rest, sep);
      prefix := head + [sep] + inner;
      assert s == head + [sep] + (inner + [sep] + last);
    }
  }

  /** The concatenation of `a + b` is the concatenation of `a` followed by that of `b`. */
  lemma {:induction false} ConcatAppend(a: seq<string>, b: seq<string>)
    ensures Concat(a + b) == Concat(a) + Concat(b)
  {
    if a != [] {
      ConcatAppend(a[1..], b);
      assert (a + b)[0] == a[0];
      assert (a + b)[1..] == a[1..] + b;
    } else {
      assert a + b == b;
    }
  }

}
