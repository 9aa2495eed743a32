/**
 * The Python string built-ins the scraper relies on: `str.split(sep)` with a
 * one-character separator (and `sep.join`, its inverse), the last element of a
 * split, and `str.strip()` with no argument.
 */
module PyStr {

  // ---------------------------------------------------------------------------
  // split and join
  // ---------------------------------------------------------------------------

  /** `s.split(sep)`: the runs of `s` between separators, in order; never empty. */
  function Split(s: string, sep: char): (parts: seq<string>)
    ensures |parts| >= 1
    ensures forall i :: 0 <= i < |parts| ==> sep !in parts[i]
    decreases |s|
  {
    if s == [] then [[]]
    else
      var rest := Split(s[1..], sep);
      if s[0] == sep then [[]] + rest
      else [[s[0]] + rest[0]] + rest[1..]
  }

  /** `sep.join(parts)` */
  function Join(parts: seq<string>, sep: char): string
    requires |parts| >= 1
    decreases |parts|
  {
    if |parts| == 1 then parts[0] else parts[0] + [sep] + Join(parts[1..], sep)
  }

  /** Joining the pieces of a split gives back the original string. */
  lemma {:induction false} JoinSplit(s: string, sep: char)
    ensures Join(Split(s, sep), sep) == s
    decreases |s|
  {
    if s != [] {
      JoinSplit(s[1..], sep);
      var rest := Split(s[1..], sep);
      if s[0] == sep {
        assert ([[]] + rest)[1..] == rest;
        assert s == [sep] + s[1..];
      } else {
        var parts := [[s[0]] + rest[0]] + rest[1..];
        assert Split(s, sep) == parts;
        if |rest| == 1 {
          assert s == [s[0]] + rest[0];
        } else {
          assert parts[1..] == rest[1..];
          assert Join(rest, sep) == rest[0] + [sep] + Join(rest[1..], sep);
          assert s == [s[0]] + s[1..];
        }
      }
    }
  }

  /** A string with no separator splits into itself alone. */
  lemma {:induction false} SplitNoSeparator(p: string, sep: char)
    requires sep !in p
    ensures Split(p, sep) == [p]
    decreases |p|
  {
    if p != [] {
      SplitNoSeparator(p[1..], sep);
      assert p == [p[0]] + p[1..];
    }
  }

  /** Splitting `p + sep + t`, where `p` has no separator, yields `p` ahead of the pieces of `t`. */
  lemma {:induction false} SplitAfterPiece(p: string, sep: char, t: string)
    requires sep !in p
    ensures Split(p + [sep] + t, sep) == [p] + Split(t, sep)
    decreases |p|
  {
    if p == [] {
      assert p + [sep] + t == [sep] + t;
      assert ([sep] + t)[1..] == t;
    } else {
      var s := p + [sep] + t;
      assert s[1..] == p[1..] + [sep] + t;
      SplitAfterPiece(p[1..], sep, t);
      assert [p[0]] + p[1..] == p;
    }
  }

  /** Splitting a join of separator-free pieces gives back exactly those pieces. */
  lemma {:induction false} SplitJoin(parts: seq<string>, sep: char)
    requires |parts| >= 1
    requires forall i :: 0 <= i < |parts| ==> sep !in parts[i]
    ensures Split(Join(parts, sep), sep) == parts
    decreases |parts|
  {
    if |parts| == 1 {
      SplitNoSeparator(parts[0], sep);
    } else {
      assert sep !in parts[0];
      SplitJoin(parts[1..], sep);
      SplitAfterPiece(parts[0], sep, Join(parts[1..], sep));
      assert [parts[0]] + parts[1..] == parts;
    }
  }

  /** A join of two or more pieces ends with a separator followed by the last piece. */
  lemma {:induction false} JoinSnoc(parts: seq<string>, sep: char)
    requires |parts| >= 2
    ensures Join(parts, sep) == Join(parts[..|parts| - 1], sep) + [sep] + parts[|parts| - 1]
    decreases |parts|
  {
    var n := |parts|;
    if n == 2 {
      assert parts[1..] == [parts[1]];
      assert parts[..1] == [parts[0]];
    } else {
      JoinSnoc(parts[1..], sep);
      assert parts[1..][..n - 2] == parts[..n - 1][1..];
      assert parts[1..][n - 2] == parts[n - 1];
    }
  }

  // ---------------------------------------------------------------------------
  // the last piece of a split
  // ---------------------------------------------------------------------------

  /** `s.split(sep)[-1]`: the text after the last separator, or all of `s` when it has none. */
  function LastSegment(s: string, sep: char): (r: string)
    ensures sep !in r
  {
    var parts := Split(s, sep);
    parts[|parts| - 1]
  }

  /**
   * The last segment is a suffix of `s`, and what precedes it is either
   * nothing or ends in the separator.
   */
  lemma LastSegmentIsSuffix(s: string, sep: char)
    ensures var r := LastSegment(s, sep);
      && |r| <= |s|
      && s == s[..|s| - |r|] + r
      && (|r| == |s| || s[|s| - |r| - 1] == sep)
  {
    var parts := Split(s, sep);
    var r := parts[|parts| - 1];
    JoinSplit(s, sep);
    if |parts| >= 2 {
      JoinSnoc(parts, sep);
      var head := Join(parts[..|parts| - 1], sep);
      assert s == head + [sep] + r;
      assert s[..|s| - |r|] == head + [sep];
    } else {
      assert s == r;
    }
  }

  /**
   * The last segment is determined by its defining property: any split of `s`
   * into a separator-free tail behind nothing or a separator gives that tail.
   */
  lemma LastSegmentUnique(s: string, sep: char, prefix: string, id: string)
    requires s == prefix + id
    requires sep !in id
    requires prefix == [] || prefix[|prefix| - 1] == sep
    ensures LastSegment(s, sep) == id
  {
    var r := LastSegment(s, sep);
    LastSegmentIsSuffix(s, sep);
    // Each tail is free of separators, and each is preceded by a separator or
    // by the start of `s`; so neither can be longer than the other.
    NoSeparatorAfter(s, |prefix|, sep);
    NoSeparatorAfter(s, |s| - |r|, sep);
    assert |r| == |id|;
    assert r == s[|s| - |r|..];
  }

  /** A separator-free tail `s[start..]` holds no separator at any index. */
  lemma NoSeparatorAfter(s: string, start: nat, sep: char)
    requires start <= |s| && sep !in s[start..]
    ensures forall j :: start <= j < |s| ==> s[j] != sep
  {
    forall j | start <= j < |s| ensures s[j] != sep {
      assert s[j] == s[start..][j - start];
    }
  }

  // ---------------------------------------------------------------------------
  // strip
  // ---------------------------------------------------------------------------

  /** The code points for which Python's `str.isspace` holds, which `str.strip()` removes. */
  predicate IsSpace(c: char)
    ensures c == ' ' || c == '\t' || c == '\n' || c == '\r' ==> IsSpace(c)
    ensures 'a' <= c <= 'z' || 'A' <= c <= 'Z' || '0' <= c <= '9' ==> !IsSpace(c)
    ensures IsSpace(c) ==> c as int <= 0x3000
  {
    var n := c as int;
    || 0x09 <= n <= 0x0D
    || 0x1C <= n <= 0x20
    || n == 0x85 || n == 0xA0 || n == 0x1680
    || 0x2000 <= n <= 0x200A
    || n == 0x2028 || n == 0x2029 || n == 0x202F || n == 0x205F || n == 0x3000
  }

  predicate AllSpace(s: string) {
    forall i :: 0 <= i < |s| ==> IsSpace(s[i])
  }

  /** Neither end of `s` is whitespace. */
  predicate Trimmed(s: string) {
    s == [] || (!IsSpace(s[0]) && !IsSpace(s[|s| - 1]))
  }

  /** The end of the run of whitespace that starts at index `i` of `s`. */
  function SpaceEnd(s: string, i: nat): (e: nat)
    requires i <= |s|
    ensures i <= e <= |s|
    ensures e < |s| ==> !IsSpace(s[e])
    decreases |s| - i
  {
    if i < |s| && IsSpace(s[i]) then SpaceEnd(s, i + 1) else i
  }

  /**
   * The start of the run of whitespace that ends at index `j` of `s`, looking
   * no further back than index `lo`.
   */
  function SpaceStart(s: string, lo: nat, j: nat): (b: nat)
    requires lo <= j <= |s|
    ensures lo <= b <= j
    ensures lo < b ==> !IsSpace(s[b - 1])
    decreases j - lo
  {
    if lo < j && IsSpace(s[j - 1]) then SpaceStart(s, lo, j - 1) else j
  }

  /**
   * `s.strip()`: the slice `s[i..j]` between the leading whitespace, which ends
   * at `i`, and the trailing whitespace, which starts at `j`.
   */
  function Strip(s: string): (r: string)
    ensures |r| <= |s| && Trimmed(r)
  {
    var i := SpaceEnd(s, 0);
    s[i..SpaceStart(s, i, |s|)]
  }

  /** Everything `SpaceEnd` passes over is whitespace. */
  lemma {:induction false} SpaceEndSkipsSpace(s: string, i: nat)
    requires i <= |s|
    ensures forall k :: i <= k < SpaceEnd(s, i) ==> IsSpace(s[k])
    decreases |s| - i
  {
    if i < |s| && IsSpace(s[i]) {
      SpaceEndSkipsSpace(s, i + 1);
    }
  }

  /** Everything `SpaceStart` passes over is whitespace. */
  lemma {:induction false} SpaceStartSkipsSpace(s: string, lo: nat, j: nat)
    requires lo <= j <= |s|
    ensures forall k :: SpaceStart(s, lo, j) <= k < j ==> IsSpace(s[k])
    decreases j - lo
  {
    if lo < j && IsSpace(s[j - 1]) {
      SpaceStartSkipsSpace(s, lo, j - 1);
    }
  }

  /** A run of whitespace from `i` that stops at `e` is the one `SpaceEnd` finds. */
  lemma {:induction false} SpaceEndAt(s: string, i: nat, e: nat)
    requires i <= e <= |s|
    requires forall k :: i <= k < e ==> IsSpace(s[k])
    requires e == |s| || !IsSpace(s[e])
    ensures SpaceEnd(s, i) == e
    decreases e - i
  {
    if i < e {
      SpaceEndAt(s, i + 1, e);
    }
  }

  /** A run of whitespace up to `j` that starts at `b` is the one `SpaceStart` finds. */
  lemma {:induction false} SpaceStartAt(s: string, lo: nat, b: nat, j: nat)
    requires lo <= b <= j <= |s|
    requires forall k :: b <= k < j ==> IsSpace(s[k])
    requires b == lo || !IsSpace(s[b - 1])
    ensures SpaceStart(s, lo, j) == b
    decreases j - b
  {
    if b < j {
      SpaceStartAt(s, lo, b, j - 1);
    }
  }

  /**
   * What `strip` leaves is the slice `s[i..j]` of the input that has only
   * whitespace before it and only whitespace after it.
   */
  lemma StripIsSlice(s: string)
    ensures var i := SpaceEnd(s, 0); var j := SpaceStart(s, i, |s|);
      && Strip(s) == s[i..j]
      && (forall k :: 0 <= k < i ==> IsSpace(s[k]))
      && (forall k :: j <= k < |s| ==> IsSpace(s[k]))
  {
    SpaceEndSkipsSpace(s, 0);
    SpaceStartSkipsSpace(s, SpaceEnd(s, 0), |s|);
  }

  /**
   * `strip` is characterised by its result: whitespace, then a string with no
   * whitespace at either end, then whitespace, strips to that middle part.
   */
  lemma StripUnique(a: string, m: string, b: string)
    requires AllSpace(a) && AllSpace(b) && Trimmed(m)
    ensures Strip(a + m + b) == m
  {
    var s := a + m + b;
    var j := |a| + |m|;
    assert forall k :: 0 <= k < |a| ==> s[k] == a[k];
    assert forall k :: j <= k < |s| ==> s[k] == b[k - j];
    if m == [] {
      forall k | 0 <= k < |s|
        ensures IsSpace(s[k])
      {
        if k >= |a| {
          assert s[k] == b[k - |a|];
        }
      }
      SpaceEndAt(s, 0, |s|);
    } else {
      assert s[|a|] == m[0] && s[j - 1] == m[|m| - 1];
      SpaceEndAt(s, 0, |a|);
      SpaceStartAt(s, |a|, j, |s|);
      assert s[|a|..j] == m;
    }
  }

  /** Stripping twice is stripping once. */
  lemma StripIdempotent(s: string)
    ensures Strip(Strip(s)) == Strip(s)
  {
    var r := Strip(s);
    StripUnique([], r, []);
    assert [] + r + [] == r;
  }
}
