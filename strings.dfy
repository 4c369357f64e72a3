/** The JavaScript string operations the core relies on: `Array.join`, `String.split` with a
    string separator, and ASCII case mapping. */
module Strings {

  /** `parts.join(sep)`. */
  function Join(parts: seq<string>, sep: string): string
  {
    if |parts| == 0 then ""
    else if |parts| == 1 then parts[0]
    else parts[0] + sep + Join(parts[1..], sep)
  }

  /** `s.split(sep)` for a non-empty separator: the pieces between the non-overlapping
      occurrences of `sep`, found left to right. */
  function Split(s: string, sep: string): (pieces: seq<string>)
    requires |sep| > 0
    ensures |pieces| >= 1
    decreases |s|
  {
    if |s| < |sep| then [s]
    else if s[..|sep|] == sep then [""] + Split(s[|sep|..], sep)
    else
      var rest := Split(s[1..], sep);
      [[s[0]] + rest[0]] + rest[1..]
  }

  /** True iff `sep` occurs in `s`. */
  predicate Occurs(sep: string, s: string)
  {
    exists i {:trigger s[i..]} :: 0 <= i && i + |sep| <= |s| && s[i..][..|sep|] == sep
  }

  lemma JoinConsHead(c: char, x: string, rest: seq<string>, sep: string)
    ensures Join([[c] + x] + rest, sep) == [c] + Join([x] + rest, sep)
  {
    if |rest| > 0 {
      assert ([[c] + x] + rest)[1..] == rest;
      assert ([x] + rest)[1..] == rest;
    }
  }

  lemma JoinEmptyHead(rest: seq<string>, sep: string)
    requires |rest| > 0
    ensures Join([""] + rest, sep) == sep + Join(rest, sep)
  {
    assert ([""] + rest)[1..] == rest;
  }

  /** Splitting and joining again with the same separator gives back the original string. */
  lemma {:induction false} JoinSplit(s: string, sep: string)
    requires |sep| > 0
    ensures Join(Split(s, sep), sep) == s
    decreases |s|
  {
    if |s| < |sep| {
    } else if s[..|sep|] == sep {
      var rest := Split(s[|sep|..], sep);
      JoinSplit(s[|sep|..], sep);
      JoinEmptyHead(rest, sep);
      assert s == sep + s[|sep|..];
    } else {
      var rest := Split(s[1..], sep);
      JoinSplit(s[1..], sep);
      assert Join([[s[0]] + rest[0]] + rest[1..], sep) == [s[0]] + Join(rest, sep) by {
        JoinConsHead(s[0], rest[0], rest[1..], sep);
        assert [rest[0]] + rest[1..] == rest;
      }
      assert s == [s[0]] + s[1..];
    }
  }

  /** A string without the separator is a single piece. */
  lemma {:induction false} SplitWithoutSeparator(s: string, sep: string)
    requires |sep| > 0
    requires !Occurs(sep, s)
    ensures Split(s, sep) == [s]
    decreases |s|
  {
    if |s| < |sep| {
    } else {
      assert s[0..] == s;
      forall i | 0 <= i && i + |sep| <= |s[1..]|
        ensures s[1..][i..][..|sep|] != sep
      {
        assert s[1..][i..] == s[i + 1..];
      }
      SplitWithoutSeparator(s[1..], sep);
      assert [s[0]] + s[1..] == s;
    }
  }

  /** A piece without the one-character separator, followed by it, splits off first. */
  lemma {:induction false} SplitAfterPiece(a: string, rest: string, sep: string)
    requires |sep| == 1 && !Occurs(sep, a)
    ensures Split(a + sep + rest, sep) == [a] + Split(rest, sep)
    decreases |a|
  {
    var s := a + sep + rest;
    if a == [] {
      assert s == sep + rest;
      assert s[..|sep|] == sep && s[|sep|..] == rest;
    } else {
      assert a[0..] == a;
      assert s[..|sep|] == [a[0]];
      forall i | 0 <= i && i + |sep| <= |a[1..]|
        ensures a[1..][i..][..|sep|] != sep
      {
        assert a[1..][i..] == a[i + 1..];
      }
      SplitAfterPiece(a[1..], rest, sep);
      assert s[1..] == a[1..] + sep + rest;
      assert [a[0]] + a[1..] == a;
    }
  }

  /** Joining pieces that do not contain a one-character separator and splitting again gives
      back the pieces. */
  lemma {:induction false} SplitJoin(parts: seq<string>, sep: string)
    requires |sep| == 1 && |parts| >= 1
    requires forall k :: 0 <= k < |parts| ==> !Occurs(sep, parts[k])
    ensures Split(Join(parts, sep), sep) == parts
    decreases |parts|
  {
    if |parts| == 1 {
      SplitWithoutSeparator(parts[0], sep);
    } else {
      SplitAfterPiece(parts[0], Join(parts[1..], sep), sep);
      SplitJoin(parts[1..], sep);
      assert [parts[0]] + parts[1..] == parts;
    }
  }

  lemma OccursItself(s: string)
    ensures Occurs(s, s)
  {
    assert s[0..][..|s|] == s;
  }

  lemma OccursInLeft(sub: string, a: string, b: string)
    requires Occurs(sub, a)
    ensures Occurs(sub, a + b)
  {
    var i :| 0 <= i && i + |sub| <= |a| && a[i..][..|sub|] == sub;
    assert (a + b)[i..][..|sub|] == a[i..][..|sub|];
  }

  lemma OccursInRight(sub: string, a: string, b: string)
    requires Occurs(sub, b)
    ensures Occurs(sub, a + b)
  {
    var i :| 0 <= i && i + |sub| <= |b| && b[i..][..|sub|] == sub;
    assert (a + b)[|a| + i..][..|sub|] == b[i..][..|sub|];
  }

  /** Every piece occurs in the joined string. */
  lemma {:induction false} OccursInJoin(parts: seq<string>, sep: string, k: int)
    requires 0 <= k < |parts|
    ensures Occurs(parts[k], Join(parts, sep))
    decreases |parts|
  {
    if |parts| == 1 {
      OccursItself(parts[0]);
    } else if k == 0 {
      OccursItself(parts[0]);
      OccursInLeft(parts[0], parts[0], sep + Join(parts[1..], sep));
      assert parts[0] + sep + Join(parts[1..], sep) == parts[0] + (sep + Join(parts[1..], sep));
    } else {
      OccursInJoin(parts[1..], sep, k - 1);
      OccursInRight(parts[k], parts[0] + sep, Join(parts[1..], sep));
    }
  }

  function LowerChar(c: char): char
  {
    if 'A' <= c <= 'Z' then (c as int + 32) as char else c
  }

  function UpperChar(c: char): char
  {
    if 'a' <= c <= 'z' then (c as int - 32) as char else c
  }

  /** `s.toLowerCase()` restricted to ASCII letters. */
  function ToLower(s: string): (r: string)
    ensures |r| == |s|
    ensures forall i :: 0 <= i < |s| ==> r[i] == LowerChar(s[i])
  {
    if s == [] then [] else [LowerChar(s[0])] + ToLower(s[1..])
  }

  lemma LowerIdempotent(s: string)
    ensures ToLower(ToLower(s)) == ToLower(s)
  {
  }
}
