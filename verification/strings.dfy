/**
  The few Python string operations the uploader's name rules are built from:
  `startswith`, `endswith`, the `in` substring test and `split` on one
  character, with `join` as the inverse that pins `split` down.
  Strings are sequences of characters; nothing here depends on an encoding.
*/
module Strings {

  /** `s.startswith(p)` */
  predicate StartsWith(s: string, p: string) {
    |p| <= |s| && s[..|p|] == p
  }

  /** `s.endswith(p)` */
  predicate EndsWith(s: string, p: string) {
    |p| <= |s| && s[|s| - |p|..] == p
  }

  /** `p in s`: p occurs in s at some position. */
  predicate Contains(s: string, p: string)
    decreases |s|
  {
    StartsWith(s, p) || (|s| > 0 && Contains(s[1..], p))
  }

  /** Every string contains itself, so a type always matches its own scan. */
  lemma ContainsSelf(s: string)
    ensures Contains(s, s)
  {
  }

  /** An occurrence at any position is an occurrence. */
  lemma {:induction false} ContainsAt(s: string, p: string, i: nat)
    requires i <= |s| && StartsWith(s[i..], p)
    ensures Contains(s, p)
    decreases i
  {
    if i > 0 {
      assert s[1..][i - 1..] == s[i..];
      ContainsAt(s[1..], p, i - 1);
    }
  }

  /**
    `s.split(sep)`: the pieces between separators, from left to right. There is
    always at least one piece (`"".split("_") == [""]`) and no piece holds the
    separator.
  */
  function Split(s: string, sep: char): (r: seq<string>)
    ensures |r| >= 1
    ensures forall k :: 0 <= k < |r| ==> sep !in r[k]
    decreases |s|
  {
    if |s| == 0 then [""]
    else
      var rest := Split(s[1..], sep);
      if s[0] == sep then [""] + rest
      else [[s[0]] + rest[0]] + rest[1..]
  }

  /** `sep.join(parts)` */
  function Join(parts: seq<string>, sep: char): string
  {
    if |parts| == 0 then ""
    else if |parts| == 1 then parts[0]
    else parts[0] + [sep] + Join(parts[1..], sep)
  }

  /** The first piece of a split is the text up to the first separator. */
  lemma {:induction false} SplitHead(s: string, sep: char)
    ensures StartsWith(s, Split(s, sep)[0])
    ensures sep in s ==> |Split(s, sep)[0]| < |s| && s[|Split(s, sep)[0]|] == sep
    ensures sep !in s ==> Split(s, sep) == [s]
    decreases |s|
  {
    if |s| > 0 && s[0] != sep {
      SplitHead(s[1..], sep);
      var h := Split(s[1..], sep)[0];
      assert Split(s, sep)[0] == [s[0]] + h;
      assert s == [s[0]] + s[1..];
      if sep in s {
        assert sep in s[1..];
      }
    }
  }

  /** Joining the pieces of a split gives back the original string. */
  lemma {:induction false} JoinSplit(s: string, sep: char)
    ensures Join(Split(s, sep), sep) == s
    decreases |s|
  {
    if |s| > 0 {
      var rest := Split(s[1..], sep);
      JoinSplit(s[1..], sep);
      if s[0] == sep {
        assert Split(s, sep) == [""] + rest;
        assert ([""] + rest)[1..] == rest;
        assert s == [sep] + s[1..];
      } else {
        var r := Split(s, sep);
        assert r[0] == [s[0]] + rest[0];
        assert r[1..] == rest[1..];
        if |rest| == 1 {
          assert Join(r, sep) == [s[0]] + rest[0];
        } else {
          assert Join(rest, sep) == rest[0] + [sep] + Join(rest[1..], sep);
        }
        assert s == [s[0]] + s[1..];
      }
    }
  }

  /** Splitting after a separator-free head peels that head off as one piece. */
  lemma {:induction false} SplitAfterHead(a: string, sep: char, b: string)
    requires sep !in a
    ensures Split(a + [sep] + b, sep) == [a] + Split(b, sep)
    decreases |a|
  {
    if |a| == 0 {
      assert a + [sep] + b == [sep] + b;
      assert ([sep] + b)[1..] == b;
    } else {
      var s := a + [sep] + b;
      assert s[1..] == a[1..] + [sep] + b;
      SplitAfterHead(a[1..], sep, b);
      assert a == [a[0]] + a[1..];
    }
  }

  /** Splitting a join of separator-free pieces gives back the pieces. */
  lemma {:induction false} SplitJoin(parts: seq<string>, sep: char)
    requires |parts| >= 1
    requires forall k :: 0 <= k < |parts| ==> sep !in parts[k]
    ensures Split(Join(parts, sep), sep) == parts
    decreases |parts|
  {
    if |parts| == 1 {
      SplitHead(parts[0], sep);
    } else {
      SplitJoin(parts[1..], sep);
      SplitAfterHead(parts[0], sep, Join(parts[1..], sep));
      assert parts == [parts[0]] + parts[1..];
    }
  }
}
