/**
 * The two string operations `getFilename` relies on: `String.prototype.split`
 * with a one-character separator, and `Array.prototype.pop` on its result.
 */
module JsStrings {

  /**
   * `s.split(sep)`: the pieces of `s` between occurrences of `sep`. There is
   * always at least one piece, and no piece contains the separator.
   */
  function Split(s: string, sep: char): (parts: seq<string>)
    ensures |parts| >= 1
    ensures forall i :: 0 <= i < |parts| ==> sep !in parts[i]
  {
    if |s| == 0 then [""]
    else
      var rest := Split(s[1..], sep);
      if s[0] == sep then [""] + rest
      else [[s[0]] + rest[0]] + rest[1..]
  }

  /** `parts.join(sep)`, the inverse of `Split`. */
  function Join(parts: seq<string>, sep: char): string
    requires |parts| >= 1
  {
    if |parts| == 1 then parts[0] else parts[0] + [sep] + Join(parts[1..], sep)
  }

  /** `parts.pop()` on a non-empty array: its last element. */
  function Last<T>(parts: seq<T>): T
    requires |parts| >= 1
  {
    parts[|parts| - 1]
  }

  /**
   * `seg` is the text of `s` after its last `sep`: a suffix of `s` without
   * `sep`, preceded in `s` by `sep` unless it is the whole of `s`.
   */
  ghost predicate IsLastSegment(seg: string, s: string, sep: char) {
    && sep !in seg
    && |seg| <= |s|
    && s[|s| - |seg|..] == seg
    && (|seg| == |s| || s[|s| - |seg| - 1] == sep)
  }

  /** Joining the pieces of a split gives back the original string. */
  lemma {:induction false} JoinSplit(s: string, sep: char)
    ensures Join(Split(s, sep), sep) == s
  {
    if |s| > 0 {
      var rest := Split(s[1..], sep);
      JoinSplit(s[1..], sep);
      if s[0] == sep {
        assert Split(s, sep) == [""] + rest;
        assert ([""] + rest)[1..] == rest;
      } else {
        var parts := Split(s, sep);
        assert parts == [[s[0]] + rest[0]] + rest[1..];
        if |rest| == 1 {
          assert parts == [[s[0]] + rest[0]];
        } else {
          assert parts[1..] == rest[1..];
          assert Join(rest, sep) == rest[0] + [sep] + Join(rest[1..], sep);
          assert [s[0]] + s[1..] == s;
        }
      }
    }
  }

  /** A string without the separator splits into itself alone. */
  lemma {:induction false} SplitWithoutSeparator(s: string, sep: char)
    requires sep !in s
    ensures Split(s, sep) == [s]
  {
    if |s| > 0 {
      assert sep !in s[1..] by {
        forall i | 0 <= i < |s[1..]| ensures s[1..][i] != sep {
          assert s[1..][i] == s[i + 1];
        }
      }
      SplitWithoutSeparator(s[1..], sep);
      assert [s[0]] + s[1..] == s;
    }
  }

  /** A string that splits into several pieces contains the separator. */
  lemma SeveralPiecesHaveSeparator(t: string, sep: char)
    requires |Split(t, sep)| > 1
    ensures sep in t
  {
    var rest := Split(t, sep);
    JoinSplit(t, sep);
    assert t == rest[0] + [sep] + Join(rest[1..], sep);
    assert t[|rest[0]|] == sep;
  }

  /** Putting a character in front keeps the last segment when the segment is preceded by a separator. */
  lemma ExtendLastSegment(c: char, t: string, seg: string, sep: char)
    requires IsLastSegment(seg, t, sep) && (c == sep || |seg| < |t|)
    ensures IsLastSegment(seg, [c] + t, sep)
  {
    var s := [c] + t;
    assert s[1..] == t;
    assert s[|s| - |seg|..] == t[|t| - |seg|..];
    if |seg| < |t| {
      assert s[|s| - |seg| - 1] == t[|t| - |seg| - 1];
    }
  }

  /** The last piece of a split is the text after the last separator. */
  lemma {:induction false} SplitLastSegment(s: string, sep: char)
    ensures IsLastSegment(Last(Split(s, sep)), s, sep)
  {
    if |s| > 0 {
      var t := s[1..];
      assert s == [s[0]] + t;
      var rest := Split(t, sep);
      SplitLastSegment(t, sep);
      var l := Last(rest);
      if s[0] == sep {
        assert Split(s, sep) == [""] + rest;
        ExtendLastSegment(s[0], t, l, sep);
      } else if |rest| > 1 {
        assert Split(s, sep) == [[s[0]] + rest[0]] + rest[1..];
        assert Last(Split(s, sep)) == l;
        SeveralPiecesHaveSeparator(t, sep);
        assert |l| < |t|;
        ExtendLastSegment(s[0], t, l, sep);
      } else {
        JoinSplit(t, sep);
        assert rest == [t];
        assert Split(s, sep) == [s];
      }
    }
  }

  /** The text after the last separator is determined by the string. */
  lemma LastSegmentUnique(a: string, b: string, s: string, sep: char)
    requires IsLastSegment(a, s, sep) && IsLastSegment(b, s, sep)
    ensures a == b
  {
  }
}
