/** The string operations the generator relies on: `split`, `join`, and the
    character classes of JavaScript regular expressions. */
module Strings {
  import opened Wrappers

  /** `s.split(sep)` for a one-character separator. */
  function Split(s: string, sep: char): (r: seq<string>)
    ensures |r| >= 1
    ensures forall i :: 0 <= i < |r| ==> sep !in r[i]
    decreases |s|
  {
    if |s| == 0 then [""]
    else
      var rest := Split(s[1..], sep);
      if s[0] == sep then [""] + rest
      else [[s[0]] + rest[0]] + rest[1..]
  }

  /** `parts.join(sep)`. */
  function Join(parts: seq<string>, sep: string): string
  {
    if |parts| == 0 then ""
    else if |parts| == 1 then parts[0]
    else parts[0] + sep + Join(parts[1..], sep)
  }

  /** Splitting and joining again gives back the original text. */
  lemma {:induction false} JoinSplit(s: string, sep: char)
    ensures Join(Split(s, sep), [sep]) == s
    decreases |s|
  {
    if |s| > 0 {
      var rest := Split(s[1..], sep);
      JoinSplit(s[1..], sep);
      if s[0] == sep {
        assert Split(s, sep) == [""] + rest;
        assert ([""] + rest)[1..] == rest;
        assert s == [sep] + s[1..];
      } else if |rest| == 1 {
        assert Split(s, sep) == [[s[0]] + rest[0]];
        assert s == [s[0]] + s[1..];
      } else {
        var r := Split(s, sep);
        assert r == [[s[0]] + rest[0]] + rest[1..];
        assert r[1..] == rest[1..];
        assert Join(rest, [sep]) == rest[0] + [sep] + Join(rest[1..], [sep]);
        assert s == [s[0]] + s[1..];
      }
    }
  }

  /** A text without the separator is one part. */
  lemma {:induction false} SplitWithout(a: string, sep: char)
    requires sep !in a
    ensures Split(a, sep) == [a]
    decreases |a|
  {
    if |a| > 0 {
      SplitWithout(a[1..], sep);
      assert a == [a[0]] + a[1..];
    }
  }

  /** The text before the first separator is the first part. */
  lemma {:induction false} SplitAfter(a: string, sep: char, t: string)
    requires sep !in a
    ensures Split(a + [sep] + t, sep) == [a] + Split(t, sep)
    decreases |a|
  {
    var s := a + [sep] + t;
    if |a| == 0 {
      assert s[1..] == t;
    } else {
      assert s[1..] == a[1..] + [sep] + t;
      SplitAfter(a[1..], sep, t);
      assert a == [a[0]] + a[1..];
    }
  }

  /** Joining parts that do not contain the separator and splitting again gives back the parts. */
  lemma {:induction false} SplitJoin(parts: seq<string>, sep: char)
    requires |parts| >= 1
    requires forall i :: 0 <= i < |parts| ==> sep !in parts[i]
    ensures Split(Join(parts, [sep]), sep) == parts
    decreases |parts|
  {
    if |parts| == 1 {
      SplitWithout(parts[0], sep);
    } else {
      SplitJoin(parts[1..], sep);
      SplitAfter(parts[0], sep, Join(parts[1..], [sep]));
      assert parts == [parts[0]] + parts[1..];
    }
  }

  /** Splitting at a separator placed between two texts splits each of them. */
  lemma {:induction false} SplitConcat(a: string, sep: char, b: string)
    ensures Split(a + [sep] + b, sep) == Split(a, sep) + Split(b, sep)
    decreases |a|
  {
    if |a| == 0 {
      var s := a + [sep] + b;
      assert s[0] == sep && s[1..] == b;
    } else {
      SplitConcat(a[1..], sep, b);
      SplitConcatStep(a, sep, b);
    }
  }

  /** Split on a string with a known first character. */
  lemma SplitCons(c: char, t: string, sep: char)
    ensures Split([c] + t, sep) ==
      if c == sep then [""] + Split(t, sep) else [[c] + Split(t, sep)[0]] + Split(t, sep)[1..]
  {
    assert ([c] + t)[1..] == t;
  }

  /** One step of SplitConcat: from the tail of `a` to all of `a`. */
  lemma SplitConcatStep(a: string, sep: char, b: string)
    requires |a| > 0
    requires Split(a[1..] + [sep] + b, sep) == Split(a[1..], sep) + Split(b, sep)
    ensures Split(a + [sep] + b, sep) == Split(a, sep) + Split(b, sep)
  {
    var t := a[1..];
    assert a == [a[0]] + t;
    assert a + [sep] + b == [a[0]] + (t + [sep] + b);
    SplitCons(a[0], t, sep);
    SplitCons(a[0], t + [sep] + b, sep);
    SplitConsConcat(a[0], Split(t, sep), Split(b, sep), sep);
  }

  /** The sequence algebra behind SplitConcatStep. */
  lemma SplitConsConcat(c: char, ra: seq<string>, rb: seq<string>, sep: char)
    requires |ra| >= 1
    ensures (if c == sep then [""] + (ra + rb) else [[c] + (ra + rb)[0]] + (ra + rb)[1..]) ==
      (if c == sep then [""] + ra else [[c] + ra[0]] + ra[1..]) + rb
  {
    if c != sep {
      assert (ra + rb)[1..] == ra[1..] + rb;
    }
  }

  /** Joining one more part appends it after a separator. */
  lemma {:induction false} JoinAppend(parts: seq<string>, sep: string, p: string)
    requires |parts| >= 1
    ensures Join(parts + [p], sep) == Join(parts, sep) + sep + p
    decreases |parts|
  {
    var ps := parts + [p];
    if |parts| > 1 {
      assert ps[1..] == parts[1..] + [p];
      JoinAppend(parts[1..], sep, p);
    } else {
      assert ps[1..] == [p];
    }
  }

  predicate StartsWith(s: string, prefix: string)
  {
    |prefix| <= |s| && s[..|prefix|] == prefix
  }

  /** `p` occurs in `s` at position `i`. */
  predicate At(s: string, i: int, p: string)
  {
    0 <= i && i + |p| <= |s| && s[i..i + |p|] == p
  }

  /** `s` contains `p` at some position at or after `from`. */
  predicate OccursFrom(s: string, p: string, from: nat)
  {
    exists i :: from <= i <= |s| && At(s, i, p)
  }

  /** The characters `.` does not match in a JavaScript regular expression. */
  predicate IsLineTerminator(c: char)
  {
    c == '\n' || c == '\r' || c == '\U{2028}' || c == '\U{2029}'
  }

  /** The characters `\s` matches in a JavaScript regular expression. */
  predicate IsSpace(c: char)
  {
    c == '\t' || c == '\n' || c == '\U{B}' || c == '\U{C}' || c == '\r' || c == ' '
    || c == '\U{A0}' || c == '\U{1680}' || ('\U{2000}' <= c <= '\U{200A}')
    || c == '\U{2028}' || c == '\U{2029}' || c == '\U{202F}' || c == '\U{205F}'
    || c == '\U{3000}' || c == '\U{FEFF}'
  }

  /** The first index at or after `i` holding a line terminator, or `|s|`: a run of
      `.` starting at `i` can reach up to (not including) that index. */
  function DotRunEnd(s: string, i: nat): (e: nat)
    requires i <= |s|
    ensures i <= e <= |s|
    ensures forall j :: i <= j < e ==> !IsLineTerminator(s[j])
    ensures e < |s| ==> IsLineTerminator(s[e])
    decreases |s| - i
  {
    if i == |s| || IsLineTerminator(s[i]) then i else DotRunEnd(s, i + 1)
  }

  /** `s.split(c).join(d)` for a single character. */
  function ReplaceChar(s: string, c: char, d: char): (r: string)
    ensures |r| == |s|
    ensures forall i :: 0 <= i < |s| ==> r[i] == (if s[i] == c then d else s[i])
  {
    if |s| == 0 then "" else [if s[0] == c then d else s[0]] + ReplaceChar(s[1..], c, d)
  }

  /** ASCII lower-casing of one character. */
  function LowerChar(c: char): char
  {
    if 'A' <= c <= 'Z' then (c as int - 'A' as int + 'a' as int) as char else c
  }

  /** `s.indexOf(p, from)`: the first position at or after `from` where `p` occurs. */
  function IndexOf(s: string, p: string, from: nat): (r: Option<nat>)
    ensures r.Some? ==> from <= r.value && At(s, r.value, p)
    ensures r.Some? ==> forall j :: from <= j < r.value ==> !At(s, j, p)
    ensures r.None? ==> forall j :: from <= j ==> !At(s, j, p)
    decreases |s| - from
  {
    if from + |p| > |s| then None
    else if At(s, from, p) then Some(from)
    else IndexOf(s, p, from + 1)
  }

  /** `s.replace(p, rep)` with a string pattern: only the first occurrence is replaced. */
  function ReplaceFirst(s: string, p: string, rep: string): (r: string)
    ensures (forall j :: 0 <= j ==> !At(s, j, p)) ==> r == s
    ensures forall i :: 0 <= i && At(s, i, p) && (forall j :: 0 <= j < i ==> !At(s, j, p)) ==>
      r == s[..i] + rep + s[i + |p|..]
  {
    match IndexOf(s, p, 0)
    case None => s
    case Some(i) => s[..i] + rep + s[i + |p|..]
  }
}
