/** The Python `str` operations the call controller relies on: `lower()`,
    `strip()`, the `in` substring test, `any(... in ...)` over a phrase list,
    and `sep.join(...)` together with its inverse `split(sep)`. */
module Strings {

  /** Python's `lower()` on one character, restricted to ASCII: only
      'A'..'Z' change. */
  function LowerChar(c: char): (r: char)
    ensures 'A' <= c <= 'Z' ==> r as int == c as int + 32
    ensures !('A' <= c <= 'Z') ==> r == c
    ensures !('A' <= r <= 'Z')
  {
    if 'A' <= c <= 'Z' then (c as int + 32) as char else c
  }

  /** Python's `s.lower()` (ASCII letters only). */
  function Lower(s: string): (r: string)
    ensures |r| == |s|
    ensures forall i :: 0 <= i < |s| ==> r[i] == LowerChar(s[i])
  {
    if s == [] then [] else [LowerChar(s[0])] + Lower(s[1..])
  }

  /** Python's `str.isspace()` for one character: the ASCII controls
      TAB..CR and FS..US, the space, and the Unicode space separators and
      line/paragraph separators. */
  predicate IsSpace(c: char)
  {
    var n := c as int;
    || 0x09 <= n <= 0x0D
    || 0x1C <= n <= 0x20
    || n == 0x85 || n == 0xA0 || n == 0x1680
    || 0x2000 <= n <= 0x200A
    || n == 0x2028 || n == 0x2029 || n == 0x202F || n == 0x205F || n == 0x3000
  }

  /** `s.lstrip()`: the longest suffix of `s` that does not start with
      whitespace. */
  function TrimStart(s: string): (r: string)
    ensures |r| <= |s| && r == s[|s| - |r|..]
    ensures forall i :: 0 <= i < |s| - |r| ==> IsSpace(s[i])
    ensures r != [] ==> !IsSpace(r[0])
  {
    if s != [] && IsSpace(s[0]) then TrimStart(s[1..]) else s
  }

  /** `s.rstrip()`: the longest prefix of `s` that does not end with
      whitespace. */
  function TrimEnd(s: string): (r: string)
    ensures |r| <= |s| && r == s[..|r|]
    ensures forall i :: |r| <= i < |s| ==> IsSpace(s[i])
    ensures r != [] ==> !IsSpace(r[|r| - 1])
  {
    if s != [] && IsSpace(s[|s| - 1]) then TrimEnd(s[..|s| - 1]) else s
  }

  /** Python's `s.strip()`: whitespace removed from both ends. */
  function Strip(s: string): (r: string)
    ensures |r| <= |s|
    ensures r != [] ==> !IsSpace(r[0]) && !IsSpace(r[|r| - 1])
  {
    TrimEnd(TrimStart(s))
  }

  /** `strip()` leaves nothing exactly when `s` is all whitespace, which is
      what the truth test `s.strip()` asks. */
  lemma StripEmptyIffBlank(s: string)
    ensures Strip(s) == [] <==> forall i :: 0 <= i < |s| ==> IsSpace(s[i])
  {
  }

  /** What `strip()` removes is whitespace only: its result occurs in `s`
      at some index `a`, with only whitespace before and after it. */
  lemma StripIsSlice(s: string)
    ensures exists a :: && OccursAt(Strip(s), s, a)
                        && (forall i :: 0 <= i < a ==> IsSpace(s[i]))
                        && (forall i :: a + |Strip(s)| <= i < |s| ==> IsSpace(s[i]))
  {
    var t := TrimStart(s);
    var r := TrimEnd(t);
    var a := |s| - |t|;
    assert Strip(s) == r;
    assert r == s[a..][..|r|];
    assert r == s[a..a + |r|];
    forall i | a + |r| <= i < |s|
      ensures IsSpace(s[i])
    {
      assert s[i] == t[i - a];
    }
    assert OccursAt(r, s, a);
  }

  /** `needle` occurs in `hay` starting at index `i`. */
  ghost predicate OccursAt(needle: string, hay: string, i: int)
  {
    0 <= i && i + |needle| <= |hay| && hay[i..i + |needle|] == needle
  }

  /** An occurrence in `hay[1..]` is an occurrence in `hay` one place to
      the right, and back. */
  lemma OccursShift(needle: string, hay: string, i: int)
    requires hay != [] && 0 <= i
    ensures OccursAt(needle, hay[1..], i) <==> OccursAt(needle, hay, i + 1)
  {
    if 0 <= i && i + |needle| <= |hay| - 1 {
      assert hay[1..][i..i + |needle|] == hay[i + 1..i + 1 + |needle|];
    }
  }

  /** Python's `needle in hay`, by trying each start position in turn. */
  function Contains(hay: string, needle: string): bool
    decreases |hay|
  {
    if |hay| < |needle| then false
    else if hay[..|needle|] == needle then true
    else Contains(hay[1..], needle)
  }

  /** `needle in hay` is true exactly when `needle` occurs somewhere in
      `hay` (the empty needle occurs everywhere). */
  lemma {:induction false} ContainsIffOccurs(hay: string, needle: string)
    ensures Contains(hay, needle) <==> exists i :: OccursAt(needle, hay, i)
    decreases |hay|
  {
    if |hay| < |needle| {
    } else if hay[..|needle|] == needle {
      assert OccursAt(needle, hay, 0);
    } else {
      ContainsIffOccurs(hay[1..], needle);
      if Contains(hay, needle) {
        var i :| OccursAt(needle, hay[1..], i);
        OccursShift(needle, hay, i);
      } else {
        forall i | OccursAt(needle, hay, i)
          ensures false
        {
          assert i != 0;
          OccursShift(needle, hay, i - 1);
        }
      }
    }
  }

  /** Python's `any(p in hay for p in phrases)`. */
  function ContainsAny(hay: string, phrases: seq<string>): (b: bool)
    ensures b <==> exists k :: 0 <= k < |phrases| && Contains(hay, phrases[k])
  {
    if phrases == [] then
      false
    else if Contains(hay, phrases[0]) then
      true
    else
      var b := ContainsAny(hay, phrases[1..]);
      assert b <==> exists k :: 0 <= k < |phrases| && Contains(hay, phrases[k]) by {
        if b {
          var k :| 0 <= k < |phrases| - 1 && Contains(hay, phrases[1..][k]);
          assert phrases[1..][k] == phrases[k + 1];
        }
      }
      b
  }

  /** Python's `sep.join(parts)` for a one-character separator. */
  function Join(parts: seq<string>, sep: char): string
  {
    if |parts| == 0 then []
    else if |parts| == 1 then parts[0]
    else parts[0] + [sep] + Join(parts[1..], sep)
  }

  /** Python's `s.split(sep)` for a one-character separator: the pieces
      between separators, always at least one. */
  function Split(s: string, sep: char): (r: seq<string>)
    ensures |r| > 0
  {
    if s == [] then
      [[]]
    else
      var rest := Split(s[1..], sep);
      if s[0] == sep then [[]] + rest else [[s[0]] + rest[0]] + rest[1..]
  }

  /** A piece with no separator splits into itself. */
  lemma {:induction false} SplitPiece(d: string, sep: char)
    requires sep !in d
    ensures Split(d, sep) == [d]
    decreases |d|
  {
    if d != [] {
      assert d[0] != sep;
      assert sep !in d[1..];
      SplitPiece(d[1..], sep);
      assert [d[0]] + d[1..] == d;
    }
  }

  /** Splitting `d + sep + t` yields `d` followed by the pieces of `t`
      when `d` holds no separator. */
  lemma {:induction false} SplitCons(d: string, sep: char, t: string)
    requires sep !in d
    ensures Split(d + [sep] + t, sep) == [d] + Split(t, sep)
    decreases |d|
  {
    if d == [] {
      assert d + [sep] + t == [sep] + t;
      assert ([sep] + t)[1..] == t;
    } else {
      var s := d + [sep] + t;
      assert s[0] == d[0] && d[0] != sep;
      assert s[1..] == d[1..] + [sep] + t;
      assert sep !in d[1..];
      SplitCons(d[1..], sep, t);
      assert [d[0]] + d[1..] == d;
    }
  }

  /** `split` undoes `join` when no part holds the separator and there is
      at least one part (`"".split(sep)` is `[""]`, not `[]`). */
  lemma {:induction false} SplitJoin(parts: seq<string>, sep: char)
    requires |parts| > 0
    requires forall k :: 0 <= k < |parts| ==> sep !in parts[k]
    ensures Split(Join(parts, sep), sep) == parts
    decreases |parts|
  {
    if |parts| == 1 {
      SplitPiece(parts[0], sep);
    } else {
      SplitCons(parts[0], sep, Join(parts[1..], sep));
      SplitJoin(parts[1..], sep);
      assert [parts[0]] + parts[1..] == parts;
    }
  }

  /** `s` starts with `prefix`. */
  predicate StartsWith(s: string, prefix: string)
  {
    |prefix| <= |s| && s[..|prefix|] == prefix
  }

  /** `s` ends with `suffix`. */
  predicate EndsWith(s: string, suffix: string)
  {
    |suffix| <= |s| && s[|s| - |suffix|..] == suffix
  }

  /** A concatenation starts with its first part and ends with its last. */
  lemma AppendEnds(a: string, b: string, c: string)
    ensures StartsWith(a + (b + c), a) && EndsWith(a + (b + c), c)
  {
    assert (a + (b + c))[..|a|] == a;
    assert (a + (b + c))[|a| + |b|..] == c;
  }

  /** An occurrence stays an occurrence when text is put in front of it. */
  lemma OccursAfter(needle: string, pre: string, hay: string, i: int)
    requires OccursAt(needle, hay, i)
    ensures OccursAt(needle, pre + hay, |pre| + i)
  {
    assert (pre + hay)[|pre| + i..|pre| + i + |needle|] == hay[i..i + |needle|];
  }

  /** Every part of a join occurs in it. */
  lemma {:induction false} JoinContainsParts(parts: seq<string>, sep: char)
    ensures forall k :: 0 <= k < |parts| ==> Contains(Join(parts, sep), parts[k])
    decreases |parts|
  {
    if |parts| == 1 {
      assert OccursAt(parts[0], Join(parts, sep), 0);
      ContainsIffOccurs(Join(parts, sep), parts[0]);
    } else if |parts| > 1 {
      var pre := parts[0] + [sep];
      var rest := Join(parts[1..], sep);
      assert Join(parts, sep) == pre + rest;
      assert OccursAt(parts[0], pre + rest, 0) by {
        assert (pre + rest)[..|parts[0]|] == parts[0];
      }
      ContainsIffOccurs(pre + rest, parts[0]);
      JoinContainsParts(parts[1..], sep);
      forall k | 1 <= k < |parts|
        ensures Contains(Join(parts, sep), parts[k])
      {
        assert parts[1..][k - 1] == parts[k];
        ContainsIffOccurs(rest, parts[k]);
        var i :| OccursAt(parts[k], rest, i);
        OccursAfter(parts[k], pre, rest, i);
        ContainsIffOccurs(pre + rest, parts[k]);
      }
    }
  }
}
