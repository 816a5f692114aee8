/**
 * Python's `str.join` and `str.split` for a one-character separator, the two
 * string primitives the resource-name parser and the filter builder rest on.
 */
module Strings {

  /** `sep.join(parts)`: the parts in order with one separator between neighbours. */
  function Join(parts: seq<string>, sep: char): string
  {
    if |parts| == 0 then ""
    else if |parts| == 1 then parts[0]
    else parts[0] + [sep] + Join(parts[1..], sep)
  }

  /**
   * `s.split(sep)`: the maximal separator-free pieces of `s`. There is always
   * at least one piece, and there are several exactly when `s` holds a separator.
   */
  function Split(s: string, sep: char): (parts: seq<string>)
    ensures |parts| >= 1
    ensures forall i :: 0 <= i < |parts| ==> sep !in parts[i]
    ensures sep !in s ==> parts == [s]
    ensures sep in s ==> |parts| >= 2
    decreases |s|
  {
    if |s| == 0 then [""]
    else
      var rest := Split(s[1..], sep);
      if s[0] == sep then
        assert ([""] + rest)[1..] == rest;
        [""] + rest
      else
        var parts := [[s[0]] + rest[0]] + rest[1..];
        assert s == [s[0]] + s[1..];
        parts
  }

  /** Joining the pieces of a split gives back the split string. */
  lemma {:induction false} JoinSplit(s: string, sep: char)
    ensures Join(Split(s, sep), sep) == s
    decreases |s|
  {
    if |s| > 0 {
      var rest := Split(s[1..], sep);
      JoinSplit(s[1..], sep);
      if s[0] == sep {
        assert ([""] + rest)[1..] == rest;
      } else if |rest| > 1 {
        var parts := [[s[0]] + rest[0]] + rest[1..];
        assert parts[1..] == rest[1..];
        assert s == [s[0]] + s[1..];
      } else {
        assert s == [s[0]] + s[1..];
      }
    }
  }

  /** The last element of a non-empty sequence, Python's `xs[-1]`. */
  function Last<T>(xs: seq<T>): T
    requires |xs| >= 1
  {
    xs[|xs| - 1]
  }

  /** `t` is a (possibly empty) trailing part of `s`. */
  predicate IsSuffix(t: string, s: string)
  {
    |t| <= |s| && s[|s| - |t|..] == t
  }

  /** The last piece of a split is a suffix of the split string. */
  lemma {:induction false} LastPartIsSuffix(s: string, sep: char)
    ensures IsSuffix(Last(Split(s, sep)), s)
    decreases |s|
  {
    if |s| > 0 {
      var rest, parts := Split(s[1..], sep), Split(s, sep);
      if s[0] != sep && |rest| == 1 {
        assert rest == [s[1..]];
        assert Last(parts) == [s[0]] + s[1..] == s;
      } else {
        LastPartIsSuffix(s[1..], sep);
        assert Last(parts) == Last(rest);
        SuffixOfTail(Last(rest), s);
      }
    }
  }

  /** When the string holds a separator, a separator comes right before the last piece. */
  lemma {:induction false} SepBeforeLastPart(s: string, sep: char)
    ensures sep in s ==> |Last(Split(s, sep))| < |s| && s[|s| - |Last(Split(s, sep))| - 1] == sep
    decreases |s|
  {
    if sep !in s {
      return;
    }
    var rest := Split(s[1..], sep);
    if sep in s[1..] {
      SepBeforeLastPart(s[1..], sep);
      LastPartOfLongerTail(s, sep);
      var t := Last(rest);
      assert s[|s| - |t| - 1] == s[1..][|s[1..]| - |t| - 1];
    } else {
      assert s == [s[0]] + s[1..];
      assert s[0] == sep;
      assert Split(s, sep) == [""] + rest;
    }
  }

  /** A suffix of the tail of `s` is a suffix of `s`. */
  lemma SuffixOfTail(t: string, s: string)
    requires |s| > 0 && IsSuffix(t, s[1..])
    ensures IsSuffix(t, s)
  {
    assert s[1..][|s| - 1 - |t|..] == s[|s| - |t|..];
  }

  /** Splitting `a + sep + b` with a separator-free `a` yields `a` and then the pieces of `b`. */
  lemma {:induction false} SplitAfterFirstSep(a: string, b: string, sep: char)
    requires sep !in a
    ensures Split(a + [sep] + b, sep) == [a] + Split(b, sep)
    decreases |a|
  {
    var s := a + [sep] + b;
    if |a| == 0 {
      assert s[1..] == b;
    } else {
      assert s[1..] == a[1..] + [sep] + b;
      SplitAfterFirstSep(a[1..], b, sep);
      assert [a[0]] + a[1..] == a;
    }
  }

  /** Whatever comes before the last separator, the last piece is what follows it. */
  lemma {:induction false} LastPartAfterLastSep(a: string, e: string, sep: char)
    requires sep !in e
    ensures Last(Split(a + [sep] + e, sep)) == e
    decreases |a|
  {
    var s := a + [sep] + e;
    if |a| == 0 {
      assert s[1..] == e;
    } else {
      var t := a[1..] + [sep] + e;
      assert s[1..] == t;
      assert t[|a| - 1] == sep;
      assert |Split(t, sep)| >= 2;
      LastPartAfterLastSep(a[1..], e, sep);
      LastPartOfLongerTail(s, sep);
    }
  }

  /** When the tail of `s` splits into several pieces, `s` ends with the same last piece. */
  lemma LastPartOfLongerTail(s: string, sep: char)
    requires |s| > 0 && |Split(s[1..], sep)| >= 2
    ensures Last(Split(s, sep)) == Last(Split(s[1..], sep))
  {
  }

  /** Separator-free pieces survive a join followed by a split unchanged. */
  lemma {:induction false} SplitJoin(parts: seq<string>, sep: char)
    requires |parts| >= 1
    requires forall i :: 0 <= i < |parts| ==> sep !in parts[i]
    ensures Split(Join(parts, sep), sep) == parts
    decreases |parts|
  {
    if |parts| > 1 {
      SplitJoin(parts[1..], sep);
      SplitAfterFirstSep(parts[0], Join(parts[1..], sep), sep);
      assert [parts[0]] + parts[1..] == parts;
    }
  }

  /**
   * `s` has no leading, trailing or doubled separator: every separator sits
   * between two non-separator characters.
   */
  predicate NoStraySep(s: string, sep: char)
  {
    s == [] || (s[0] != sep && s[|s| - 1] != sep &&
                forall i :: 0 <= i < |s| - 1 ==> !(s[i] == sep && s[i + 1] == sep))
  }

  /** Joining non-empty separator-free pieces never leaves a stray separator. */
  lemma {:induction false} JoinHasNoStraySep(parts: seq<string>, sep: char)
    requires forall i :: 0 <= i < |parts| ==> parts[i] != "" && sep !in parts[i]
    ensures NoStraySep(Join(parts, sep), sep)
    decreases |parts|
  {
    if |parts| == 1 {
      var p := parts[0];
      assert Join(parts, sep) == p;
      forall i | 0 <= i < |p| - 1 ensures p[i] != sep {
        assert p[i] in p;
      }
      assert p[|p| - 1] in p;
    } else if |parts| > 1 {
      var p, j := parts[0], Join(parts[1..], sep);
      JoinHasNoStraySep(parts[1..], sep);
      var s := p + [sep] + j;
      assert Join(parts, sep) == s;
      assert j != [] by { assert parts[1..][0] != "" && parts[1..][0] <= j; }
      assert s[0] == p[0] && p[0] in p;
      assert s[|s| - 1] == j[|j| - 1];
      forall i | 0 <= i < |s| - 1 ensures !(s[i] == sep && s[i + 1] == sep) {
        if i < |p| {
          assert s[i] == p[i] && p[i] in p;
        } else if i > |p| {
          assert s[i] == j[i - |p| - 1] && s[i + 1] == j[i - |p|];
        }
      }
    }
  }

}
