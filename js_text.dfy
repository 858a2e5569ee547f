/**
 * The pieces of JavaScript string behaviour the emoji code relies on:
 * the white space that `trim` and `parseInt` skip, `trim` itself, and
 * `split` / `join` on a one-element separator.
 */
module JsText {

  /** WhiteSpace or LineTerminator in ECMAScript (section 12.2 and 12.3 of ECMA-262). */
  predicate IsJsWhiteSpace(c: char) {
    var n := c as int;
    n == 0x09 || n == 0x0B || n == 0x0C || n == 0x20 || n == 0xA0 || n == 0xFEFF
    || n == 0x1680 || (0x2000 <= n <= 0x200A) || n == 0x202F || n == 0x205F || n == 0x3000
    || n == 0x0A || n == 0x0D || n == 0x2028 || n == 0x2029
  }

  /** `trimStart`: drops the longest white-space prefix. */
  function TrimStart(s: string): string {
    if s != [] && IsJsWhiteSpace(s[0]) then TrimStart(s[1..]) else s
  }

  /** `trimEnd`: drops the longest white-space suffix. */
  function TrimEnd(s: string): string {
    if s != [] && IsJsWhiteSpace(s[|s| - 1]) then TrimEnd(s[..|s| - 1]) else s
  }

  /** `String.prototype.trim`. */
  function Trim(s: string): string {
    TrimEnd(TrimStart(s))
  }

  /** `trimStart` keeps a suffix, drops only white space, and stops at the first other character. */
  lemma {:induction false} TrimStartDropsWhiteSpace(s: string)
    ensures |TrimStart(s)| <= |s| && TrimStart(s) == s[|s| - |TrimStart(s)|..]
    ensures forall i :: 0 <= i < |s| - |TrimStart(s)| ==> IsJsWhiteSpace(s[i])
    ensures TrimStart(s) != [] ==> !IsJsWhiteSpace(TrimStart(s)[0])
  {
    if s != [] && IsJsWhiteSpace(s[0]) {
      var t := s[1..];
      TrimStartDropsWhiteSpace(t);
      var r := TrimStart(t);
      assert TrimStart(s) == r;
      assert t[|t| - |r|..] == s[|s| - |r|..];
      forall i | 0 < i < |s| - |r| ensures IsJsWhiteSpace(s[i]) {
        assert s[i] == t[i - 1];
      }
    }
  }

  /** `trimEnd` keeps a prefix, drops only white space, and stops at the last other character. */
  lemma {:induction false} TrimEndDropsWhiteSpace(s: string)
    ensures |TrimEnd(s)| <= |s| && TrimEnd(s) == s[..|TrimEnd(s)|]
    ensures forall i :: |TrimEnd(s)| <= i < |s| ==> IsJsWhiteSpace(s[i])
    ensures TrimEnd(s) != [] ==> !IsJsWhiteSpace(TrimEnd(s)[|TrimEnd(s)| - 1])
  {
    if s != [] && IsJsWhiteSpace(s[|s| - 1]) {
      var t := s[..|s| - 1];
      TrimEndDropsWhiteSpace(t);
      var r := TrimEnd(t);
      assert TrimEnd(s) == r;
      assert t[..|r|] == s[..|r|];
      forall i | |r| <= i < |s| - 1 ensures IsJsWhiteSpace(s[i]) {
        assert s[i] == t[i];
      }
    }
  }

  /** The trimmed string is non-empty exactly when `s` has a character that is not white space. */
  lemma TrimNonEmptyIff(s: string)
    ensures |Trim(s)| > 0 <==> exists i :: 0 <= i < |s| && !IsJsWhiteSpace(s[i])
  {
    var t := TrimStart(s);
    TrimStartDropsWhiteSpace(s);
    TrimEndDropsWhiteSpace(t);
    if |Trim(s)| > 0 {
      var k := |s| - |t|;
      assert s[k] == t[0];
      assert !IsJsWhiteSpace(s[k]);
    }
  }

  /** `split` with a one-character separator: the pieces between separators. */
  function Split<T(==)>(s: seq<T>, sep: T): (parts: seq<seq<T>>)
    ensures |parts| >= 1
    ensures forall i :: 0 <= i < |parts| ==> sep !in parts[i]
  {
    if s == [] then [[]]
    else
      var rest := Split(s[1..], sep);
      if s[0] == sep then [[]] + rest
      else [[s[0]] + rest[0]] + rest[1..]
  }

  /** `join`: the pieces with the separator between neighbours. */
  function Join<T>(parts: seq<seq<T>>, sep: T): seq<T> {
    if parts == [] then []
    else if |parts| == 1 then parts[0]
    else parts[0] + [sep] + Join(parts[1..], sep)
  }

  /** Splitting restores what was joined, as long as no piece holds the separator. */
  lemma {:induction false} SplitJoin<T>(parts: seq<seq<T>>, sep: T)
    requires |parts| >= 1
    requires forall i :: 0 <= i < |parts| ==> sep !in parts[i]
    ensures Split(Join(parts, sep), sep) == parts
  {
    if |parts| == 1 {
      SplitNoSeparator(parts[0], sep);
    } else {
      SplitJoin(parts[1..], sep);
      SplitAtFirst(parts[0], sep, Join(parts[1..], sep));
      assert Join(parts, sep) == parts[0] + [sep] + Join(parts[1..], sep);
      assert parts == [parts[0]] + parts[1..];
    }
  }

  /** Joining what was split restores the string. */
  lemma {:induction false} JoinSplit<T>(s: seq<T>, sep: T)
    ensures Join(Split(s, sep), sep) == s
  {
    if s != [] {
      JoinSplit(s[1..], sep);
      var rest := Split(s[1..], sep);
      if s[0] == sep {
        assert Split(s, sep) == [[]] + rest;
        assert s == [sep] + s[1..];
      } else {
        var parts := Split(s, sep);
        assert parts == [[s[0]] + rest[0]] + rest[1..];
        if |rest| == 1 {
          assert s == [s[0]] + rest[0];
        } else {
          assert Join(rest, sep) == rest[0] + [sep] + Join(rest[1..], sep);
          assert parts[1..] == rest[1..];
          assert s == [s[0]] + s[1..];
        }
      }
    }
  }

  /** A piece without separators splits into itself. */
  lemma {:induction false} SplitNoSeparator<T>(a: seq<T>, sep: T)
    requires sep !in a
    ensures Split(a, sep) == [a]
  {
    if a != [] {
      SplitNoSeparator(a[1..], sep);
      assert a == [a[0]] + a[1..];
    }
  }

  /** The first separator ends the first piece. */
  lemma {:induction false} SplitAtFirst<T>(a: seq<T>, sep: T, t: seq<T>)
    requires sep !in a
    ensures Split(a + [sep] + t, sep) == [a] + Split(t, sep)
  {
    if a == [] {
      assert a + [sep] + t == [sep] + t;
      assert ([sep] + t)[1..] == t;
    } else {
      SplitAtFirst(a[1..], sep, t);
      assert (a + [sep] + t)[1..] == a[1..] + [sep] + t;
      assert a == [a[0]] + a[1..];
    }
  }
}
