/**
  Text handling used on both sides of the wire: Python's `str.split` with a
  one-character separator, its inverse `join`, and `split(sep)[-1]`.
*/
module Text {

  /** Python's `s.split(c)`: the maximal pieces of `s` between occurrences of `c`.
      It never returns an empty list; `"".split(c)` is `[""]`. */
  function Split(s: string, c: char): (parts: seq<string>)
    ensures |parts| >= 1
    ensures forall i :: 0 <= i < |parts| ==> c !in parts[i]
    decreases |s|
  {
    if |s| == 0 then [""]
    else
      var rest := Split(s[1..], c);
      if s[0] == c then [""] + rest
      else [[s[0]] + rest[0]] + rest[1..]
  }

  /** Python's `c.join(parts)` for a non-empty list of pieces. */
  function Join(parts: seq<string>, c: char): (s: string)
    requires |parts| >= 1
    decreases |parts|
  {
    if |parts| == 1 then parts[0] else parts[0] + [c] + Join(parts[1..], c)
  }

  /** Python's `s.split(c)[-1]`: the text after the last `c`, or all of `s`. */
  function LastSegment(s: string, c: char): (last: string)
    ensures c !in last
  {
    var parts := Split(s, c);
    parts[|parts| - 1]
  }

  /** Joining three pieces puts one separator between neighbours. */
  lemma JoinThree(a: string, b: string, c: string, sep: char)
    ensures Join([a, b, c], sep) == a + [sep] + b + [sep] + c
  {
    assert [a, b, c][1..] == [b, c];
    assert [b, c][1..] == [c];
    assert Join([b, c], sep) == b + [sep] + c;
    assert Join([a, b, c], sep) == a + [sep] + (b + [sep] + c);
  }

  /** Splitting then joining gives the original text back. */
  lemma {:induction false} JoinSplit(s: string, c: char)
    ensures Join(Split(s, c), c) == s
    decreases |s|
  {
    if |s| > 0 {
      var rest := Split(s[1..], c);
      JoinSplit(s[1..], c);
      if s[0] == c {
        assert Split(s, c) == [""] + rest;
        assert s == [c] + s[1..];
      } else {
        var parts := Split(s, c);
        assert parts == [[s[0]] + rest[0]] + rest[1..];
        if |rest| == 1 {
          assert s == [s[0]] + rest[0];
        } else {
          assert rest == [rest[0]] + rest[1..];
          assert Join(rest, c) == rest[0] + [c] + Join(rest[1..], c);
          assert parts[1..] == rest[1..];
        }
      }
    }
  }

  /** A text free of the separator is a single piece. */
  lemma {:induction false} SplitFree(s: string, c: char)
    requires c !in s
    ensures Split(s, c) == [s]
    decreases |s|
  {
    if |s| > 0 {
      assert forall i :: 0 <= i < |s[1..]| ==> s[1..][i] == s[i + 1];
      SplitFree(s[1..], c);
      assert s[0] != c;
      assert s == [s[0]] + s[1..];
    }
  }

  /** Splitting distributes over a separator placed between two texts. */
  lemma {:induction false} SplitAroundSeparator(a: string, b: string, c: char)
    ensures Split(a + [c] + b, c) == Split(a, c) + Split(b, c)
    decreases |a|
  {
    var s := a + [c] + b;
    var rb := Split(b, c);
    if |a| == 0 {
      assert s[0] == c && s[1..] == b;
    } else {
      var a' := a[1..];
      assert s[0] == a[0] && s[1..] == a' + [c] + b;
      SplitAroundSeparator(a', b, c);
      var ra := Split(a', c);
      if a[0] != c {
        GlueFirst([a[0]], ra, rb);
      }
    }
  }

  /** Gluing text onto the first piece commutes with appending more pieces. */
  lemma GlueFirst(x: string, ra: seq<string>, rb: seq<string>)
    requires |ra| >= 1
    ensures [x + (ra + rb)[0]] + (ra + rb)[1..] == ([x + ra[0]] + ra[1..]) + rb
  {
    assert (ra + rb)[1..] == ra[1..] + rb;
  }

  /** Joining separator-free pieces and splitting again recovers exactly those pieces. */
  lemma {:induction false} SplitJoin(parts: seq<string>, c: char)
    requires |parts| >= 1
    requires forall i :: 0 <= i < |parts| ==> c !in parts[i]
    ensures Split(Join(parts, c), c) == parts
    decreases |parts|
  {
    if |parts| == 1 {
      SplitFree(parts[0], c);
    } else {
      SplitJoin(parts[1..], c);
      SplitFree(parts[0], c);
      SplitAroundSeparator(parts[0], Join(parts[1..], c), c);
      assert parts == [parts[0]] + parts[1..];
    }
  }

  /** A text that contains the separator splits into at least two pieces. */
  lemma {:induction false} SplitCountsSeparator(s: string, c: char)
    requires c in s
    ensures |Split(s, c)| >= 2
    decreases |s|
  {
    if s[0] != c {
      assert c in s[1..];
      SplitCountsSeparator(s[1..], c);
    }
  }

  /** A join of two or more pieces is longer than its last piece. */
  lemma {:induction false} JoinLongerThanLast(parts: seq<string>, c: char)
    requires |parts| >= 2
    ensures |Join(parts, c)| > |parts[|parts| - 1]|
    decreases |parts|
  {
    if |parts| > 2 {
      JoinLongerThanLast(parts[1..], c);
    }
  }

  /** `s.split(c)[-1]` is the longest suffix of `s` free of `c`: it is either
      all of `s` or preceded by a `c`. */
  lemma {:induction false} LastSegmentIsSuffix(s: string, c: char)
    ensures var l := LastSegment(s, c);
      && |l| <= |s| && l == s[|s| - |l|..]
      && (|l| < |s| ==> s[|s| - |l| - 1] == c)
    decreases |s|
  {
    if |s| > 0 {
      var t := s[1..];
      var rest := Split(t, c);
      var l' := LastSegment(t, c);
      LastSegmentIsSuffix(t, c);
      assert t[|t| - |l'|..] == s[|s| - |l'|..];
      if s[0] != c && |rest| == 1 {
        if |l'| < |t| {
          assert t[|t| - |l'| - 1] == c;
          SplitCountsSeparator(t, c);
        }
        assert LastSegment(s, c) == [s[0]] + l';
        assert s == [s[0]] + t;
      } else {
        assert LastSegment(s, c) == l';
        if |l'| < |t| {
          assert s[|s| - |l'| - 1] == t[|t| - |l'| - 1];
        } else {
          assert l' == t;
          SplitFree(t, c);
        }
      }
    }
  }

  /** `(prefix + c + name).split(c)[-1]` is `name` exactly when `name` has no `c`. */
  lemma LastSegmentAfterSeparator(prefix: string, name: string, c: char)
    ensures LastSegment(prefix + [c] + name, c) == name <==> c !in name
  {
    SplitAroundSeparator(prefix, name, c);
    var pre := Split(prefix, c);
    var post := Split(name, c);
    assert Split(prefix + [c] + name, c)[|pre| + |post| - 1] == post[|post| - 1];
    if c !in name {
      SplitFree(name, c);
    } else {
      SplitCountsSeparator(name, c);
      JoinLongerThanLast(post, c);
      JoinSplit(name, c);
    }
  }
}
