/** JavaScript string operations the generator relies on: `split` with a
    one-character separator, `join`, taking the last or first piece of a
    split, and `toLowerCase`. */
module Strings {

  /** Position of the first `c` in `s`, or `|s|` when `s` has none. */
  function IndexOf(s: string, c: char): (i: nat)
    ensures i <= |s|
    ensures i < |s| ==> s[i] == c
    ensures forall k :: 0 <= k < i ==> s[k] != c
    ensures i == |s| <==> c !in s
  {
    if |s| == 0 then 0
    else if s[0] == c then 0
    else 1 + IndexOf(s[1..], c)
  }

  /** `s.split(sep)`: the maximal separator-free pieces between separators.
      An empty string splits into one empty piece; a leading or trailing
      separator yields an empty first or last piece. */
  function Split(s: string, sep: char): (parts: seq<string>)
    ensures |parts| >= 1
    ensures forall k :: 0 <= k < |parts| ==> sep !in parts[k]
    decreases |s|
  {
    var i := IndexOf(s, sep);
    if i == |s| then [s] else [s[..i]] + Split(s[i + 1..], sep)
  }

  /** `parts.join(sep)`. */
  function Join(parts: seq<string>, sep: char): string
    decreases |parts|
  {
    if |parts| == 0 then ""
    else if |parts| == 1 then parts[0]
    else parts[0] + [sep] + Join(parts[1..], sep)
  }

  /** Joining the pieces of a split gives back the original string. */
  lemma {:induction false} JoinSplit(s: string, sep: char)
    ensures Join(Split(s, sep), sep) == s
    decreases |s|
  {
    var i := IndexOf(s, sep);
    if i < |s| {
      var rest := Split(s[i + 1..], sep);
      assert Split(s, sep) == [s[..i]] + rest;
      assert ([s[..i]] + rest)[1..] == rest;
      JoinSplit(s[i + 1..], sep);
      assert Join(Split(s, sep), sep) == s[..i] + [sep] + Join(rest, sep);
      assert s == s[..i] + [sep] + s[i + 1..];
    }
  }

  lemma {:induction false} IndexOfAfterPiece(p: string, sep: char, t: string)
    requires sep !in p
    ensures IndexOf(p + [sep] + t, sep) == |p|
  {
    var s := p + [sep] + t;
    assert s[|p|] == sep;
    assert forall k :: 0 <= k < |p| ==> s[k] == p[k];
  }

  /** Splitting a join of separator-free pieces gives back the pieces. */
  lemma {:induction false} SplitJoin(parts: seq<string>, sep: char)
    requires |parts| >= 1
    requires forall k :: 0 <= k < |parts| ==> sep !in parts[k]
    ensures Split(Join(parts, sep), sep) == parts
    decreases |parts|
  {
    if |parts| > 1 {
      var rest := Join(parts[1..], sep);
      var s := parts[0] + [sep] + rest;
      assert Join(parts, sep) == s;
      IndexOfAfterPiece(parts[0], sep, rest);
      assert s[..|parts[0]|] == parts[0];
      assert s[|parts[0]| + 1..] == rest;
      assert Split(s, sep) == [parts[0]] + Split(rest, sep);
      SplitJoin(parts[1..], sep);
      assert parts == [parts[0]] + parts[1..];
    }
  }

  /** The last of the joined pieces ends the join and, unless it is the
      whole join, follows a separator. */
  lemma {:induction false} LastJoinedPiece(parts: seq<string>, s: string, sep: char)
    requires |parts| >= 1 && Join(parts, sep) == s
    ensures var l := parts[|parts| - 1];
            && |l| <= |s| && s[|s| - |l|..] == l
            && (|l| < |s| ==> s[|s| - |l| - 1] == sep)
  {
    var n := |parts|;
    var l := parts[n - 1];
    assert Join([l], sep) == l;
    if n > 1 {
      var init := parts[..n - 1];
      assert parts == init + [l];
      JoinAppend(init, [l], sep);
      SuffixAfterSep(s, Join(init, sep), sep, l);
    } else {
      assert s[0..] == s;
    }
  }

  lemma {:induction false} SuffixAfterSep(s: string, front: string, sep: char, l: string)
    requires s == front + [sep] + l
    ensures |l| < |s| && s[|s| - |l|..] == l && s[|s| - |l| - 1] == sep
  {
  }

  /** `s.split('/').pop()`: the text after the last `/`, or all of `s`. */
  function LastSegment(s: string): (r: string)
    ensures |r| <= |s| && s[|s| - |r|..] == r
    ensures '/' !in r
    ensures |r| < |s| ==> s[|s| - |r| - 1] == '/'
  {
    var parts := Split(s, '/');
    JoinSplit(s, '/');
    LastJoinedPiece(parts, s, '/');
    parts[|parts| - 1]
  }

  /** The last segment of `prefix/name` is `name` when `name` has no `/`. */
  lemma {:induction false} LastSegmentOfPath(prefix: string, name: string)
    requires '/' !in name
    ensures LastSegment(prefix + "/" + name) == name
  {
    var s := prefix + "/" + name;
    var r := LastSegment(s);
    assert s[|s| - |name|..] == name;
    assert s[|s| - |name| - 1] == '/';
    assert forall k :: 0 <= k < |name| ==> s[|s| - |name| + k] == name[k];
  }

  /** `s.split(sep)[0]`: the text before the first `sep`, or all of `s`. */
  function FirstSegment(s: string, sep: char): (r: string)
    ensures r <= s
    ensures sep !in r
    ensures |r| < |s| ==> s[|r|] == sep
  {
    Split(s, sep)[0]
  }

  /** Lower-cases an ASCII upper-case letter; every other character is kept. */
  function LowerChar(c: char): char {
    if 'A' <= c <= 'Z' then (c as int + 32) as char else c
  }

  /** `s.toLowerCase()`, restricted to ASCII letters. */
  function ToLower(s: string): (r: string)
    ensures |r| == |s|
    ensures forall k :: 0 <= k < |r| ==> !('A' <= r[k] <= 'Z')
    ensures forall k :: 0 <= k < |s| && !('A' <= s[k] <= 'Z') ==> r[k] == s[k]
    ensures forall k :: 0 <= k < |s| && 'A' <= s[k] <= 'Z' ==> r[k] as int == s[k] as int + 32
    ensures forall k :: 0 <= k < |s| ==> r[k] == LowerChar(s[k])
  {
    if |s| == 0 then "" else [LowerChar(s[0])] + ToLower(s[1..])
  }

  /** Lower-casing twice is lower-casing once. */
  lemma {:induction false} ToLowerIdempotent(s: string)
    ensures ToLower(ToLower(s)) == ToLower(s)
  {
  }

  /** All groups of lines, one after another. */
  function Flatten(groups: seq<seq<string>>): seq<string>
    decreases |groups|
  {
    if |groups| == 0 then [] else groups[0] + Flatten(groups[1..])
  }

  /** No line holds the separator. */
  predicate LinesFree(lines: seq<string>, sep: char) {
    forall j :: 0 <= j < |lines| ==> sep !in lines[j]
  }

  /** Join over a concatenation of two non-empty lists of pieces. */
  lemma {:induction false} JoinAppend(a: seq<string>, b: seq<string>, sep: char)
    requires |a| >= 1 && |b| >= 1
    ensures Join(a + b, sep) == Join(a, sep) + [sep] + Join(b, sep)
    decreases |a|
  {
    if |a| == 1 {
      assert (a + b)[1..] == b;
    } else {
      assert (a + b)[1..] == a[1..] + b;
      JoinAppend(a[1..], b, sep);
    }
  }

  /** Joining after an empty first piece puts a separator in front. */
  lemma {:induction false} JoinAfterEmpty(lines: seq<string>, r: seq<string>, sep: char)
    requires |lines| >= 1
    ensures Join([""] + lines + r, sep) == [sep] + Join(lines, sep) + Join([""] + r, sep)
  {
    var head := Join(lines, sep);
    assert Join([""], sep) == "";
    JoinAppend([""], lines, sep);
    assert Join([""] + lines, sep) == [sep] + head;
    if |r| == 0 {
      assert [""] + lines + r == [""] + lines;
      assert [""] + r == [""];
      assert [sep] + head + "" == [sep] + head;
    } else {
      var tail := Join(r, sep);
      JoinAppend([""], r, sep);
      assert Join([""] + r, sep) == [sep] + tail;
      JoinAppend([""] + lines, r, sep);
      assert [sep] + head + [sep] + tail == [sep] + head + ([sep] + tail);
    }
  }

  lemma {:induction false} LinesFreeConcat(a: seq<string>, b: seq<string>, sep: char)
    requires LinesFree(a, sep) && LinesFree(b, sep)
    ensures LinesFree(a + b, sep)
  {
    forall k | 0 <= k < |a + b| ensures sep !in (a + b)[k] {
      if k >= |a| {
        assert (a + b)[k] == b[k - |a|];
      }
    }
  }

  /** The pieces of a split hold no separator. */
  lemma {:induction false} SplitFree(s: string, sep: char)
    ensures LinesFree(Split(s, sep), sep)
    ensures LinesFree(Split(s, sep)[1..], sep)
  {
    var parts := Split(s, sep);
    forall j | 0 <= j < |parts[1..]| ensures sep !in parts[1..][j] {
      assert parts[1..][j] == parts[j + 1];
    }
  }

  /** A separator, separator-free lines joined by the separator, then text
      whose split starts with an empty piece (text that is empty or starts
      with the separator): the split is an empty piece, the lines, and the
      remaining pieces of the text. */
  lemma {:induction false} SplitBlockBefore(lines: seq<string>, rest: string, sep: char)
    requires |lines| >= 1 && LinesFree(lines, sep)
    requires Split(rest, sep)[0] == ""
    ensures Split([sep] + Join(lines, sep) + rest, sep) == [""] + lines + Split(rest, sep)[1..]
  {
    var r := Split(rest, sep)[1..];
    JoinSplit(rest, sep);
    assert Split(rest, sep) == [""] + r;
    JoinAfterEmpty(lines, r, sep);
    SplitFree(rest, sep);
    LinesFreeConcat([""] + lines, r, sep) by {
      LinesFreeConcat([""], lines, sep);
    }
    SplitJoin([""] + lines + r, sep);
  }

  /** A block of separator-free lines in front of a string that reads back
      as an empty line followed by `tail`. */
  lemma {:induction false} SplitBlockOnto(lines: seq<string>, rest: string, tail: seq<string>, sep: char)
    requires |lines| >= 1 && LinesFree(lines, sep)
    requires Split(rest, sep) == [""] + tail
    ensures Split([sep] + Join(lines, sep) + rest, sep) == [""] + (lines + tail)
  {
    SplitBlockBefore(lines, rest, sep);
    assert Split(rest, sep)[1..] == tail;
    assert [""] + lines + tail == [""] + (lines + tail);
  }

  /** The same for a single separator-free line. */
  lemma {:induction false} SplitLineOnto(line: string, rest: string, tail: seq<string>, sep: char)
    requires sep !in line
    requires Split(rest, sep) == [""] + tail
    ensures Split([sep] + line + rest, sep) == [""] + ([line] + tail)
  {
    assert Join([line], sep) == line;
    assert LinesFree([line], sep);
    SplitBlockOnto([line], rest, tail, sep);
  }
}
