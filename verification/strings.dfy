/** `str::split` on a one-character pattern, `join` with a one-character
    separator, and lowercasing as applied to command words. */
module Strings {

  /** `s.split(sep)`: the pieces between consecutive separators, empty
      pieces included, so there is always at least one piece. */
  function Split(s: string, sep: char): (parts: seq<string>)
    ensures |parts| >= 1
    ensures forall i :: 0 <= i < |parts| ==> sep !in parts[i]
    decreases |s|
  {
    if s == [] then [[]]
    else
      var rest := Split(s[1..], sep);
      if s[0] == sep then [[]] + rest
      else [[s[0]] + rest[0]] + rest[1..]
  }

  /** `parts.join(sep)`: the pieces with one separator between neighbours. */
  function Join(parts: seq<string>, sep: char): (r: string)
    ensures |parts| >= 1 ==> |r| >= |parts[0]| && r[..|parts[0]|] == parts[0]
    ensures |r| + 1 >= |parts|
    decreases |parts|
  {
    if parts == [] then []
    else if |parts| == 1 then parts[0]
    else parts[0] + [sep] + Join(parts[1..], sep)
  }

  /** Joining the pieces of a split restores the string. */
  lemma {:induction false} JoinSplit(s: string, sep: char)
    ensures Join(Split(s, sep), sep) == s
    decreases |s|
  {
    if s != [] {
      var rest := Split(s[1..], sep);
      JoinSplit(s[1..], sep);
      var parts := Split(s, sep);
      if s[0] == sep {
        assert parts == [[]] + rest;
        JoinCons([], rest, sep);
      } else if |rest| == 1 {
        assert s == [s[0]] + s[1..];
      } else {
        assert parts == [[s[0]] + rest[0]] + rest[1..];
        JoinCons([s[0]] + rest[0], rest[1..], sep);
        assert rest == [rest[0]] + rest[1..];
        JoinCons(rest[0], rest[1..], sep);
        assert s == [s[0]] + s[1..];
      }
    }
  }

  /** A piece in front of a non-empty list is joined with one separator. */
  lemma JoinCons(p: string, parts: seq<string>, sep: char)
    requires |parts| >= 1
    ensures Join([p] + parts, sep) == p + [sep] + Join(parts, sep)
  {
    assert ([p] + parts)[1..] == parts;
  }

  /** A word without the separator splits into itself. */
  lemma {:induction false} SplitWord(w: string, sep: char)
    requires sep !in w
    ensures Split(w, sep) == [w]
    decreases |w|
  {
    if w != [] {
      SplitWord(w[1..], sep);
      assert [w[0]] + w[1..] == w;
    }
  }

  /** Splitting at one separator splits each side on its own. */
  lemma {:induction false} SplitAppend(x: string, y: string, sep: char)
    ensures Split(x + [sep] + y, sep) == Split(x, sep) + Split(y, sep)
    decreases |x|
  {
    var s := x + [sep] + y;
    if x == [] {
      assert s[1..] == y;
    } else {
      assert s[1..] == x[1..] + [sep] + y;
      SplitAppend(x[1..], y, sep);
    }
  }

  /** A leading word followed by the separator becomes the first piece. */
  lemma SplitFirst(w: string, rest: string, sep: char)
    requires sep !in w
    ensures Split(w + [sep] + rest, sep) == [w] + Split(rest, sep)
  {
    SplitAppend(w, rest, sep);
    SplitWord(w, sep);
  }

  /** Splitting a join of separator-free pieces gives the pieces back. */
  lemma {:induction false} SplitJoin(parts: seq<string>, sep: char)
    requires |parts| >= 1
    requires forall i :: 0 <= i < |parts| ==> sep !in parts[i]
    ensures Split(Join(parts, sep), sep) == parts
    decreases |parts|
  {
    if |parts| == 1 {
      SplitWord(parts[0], sep);
    } else {
      SplitJoin(parts[1..], sep);
      SplitFirst(parts[0], Join(parts[1..], sep), sep);
      assert [parts[0]] + parts[1..] == parts;
    }
  }

  /** A join ends with its last piece. */
  lemma {:induction false} JoinEndsWithLast(parts: seq<string>, sep: char)
    requires |parts| >= 1
    ensures var s := Join(parts, sep); var last := parts[|parts| - 1];
            |s| >= |last| && s[|s| - |last|..] == last
    decreases |parts|
  {
    if |parts| > 1 {
      JoinEndsWithLast(parts[1..], sep);
      var tail := Join(parts[1..], sep);
      assert Join(parts, sep) == parts[0] + [sep] + tail;
    }
  }

  /** A join of separator-free pieces holds exactly one separator fewer than there are pieces. */
  lemma {:induction false} JoinSeparatorCount(parts: seq<string>, sep: char)
    requires forall i :: 0 <= i < |parts| ==> sep !in parts[i]
    ensures |parts| >= 1 ==> Count(Join(parts, sep), sep) == |parts| - 1
    decreases |parts|
  {
    if |parts| == 1 {
      CountAbsent(parts[0], sep);
    } else if |parts| > 1 {
      JoinSeparatorCount(parts[1..], sep);
      CountAbsent(parts[0], sep);
      CountAppend(parts[0], [sep], sep);
      CountAppend(parts[0] + [sep], Join(parts[1..], sep), sep);
    }
  }

  /** The number of occurrences of `c` in `s`. */
  function Count(s: string, c: char): nat
    decreases |s|
  {
    if s == [] then 0 else (if s[0] == c then 1 else 0) + Count(s[1..], c)
  }

  lemma {:induction false} CountAbsent(s: string, c: char)
    requires c !in s
    ensures Count(s, c) == 0
    decreases |s|
  {
    if s != [] { CountAbsent(s[1..], c); }
  }

  lemma {:induction false} CountAppend(a: string, b: string, c: char)
    ensures Count(a + b, c) == Count(a, c) + Count(b, c)
    decreases |a|
  {
    if a == [] {
      assert a + b == b;
    } else {
      assert (a + b)[1..] == a[1..] + b;
      CountAppend(a[1..], b, c);
    }
  }

  predicate IsUpper(c: char) { 'A' <= c <= 'Z' }

  /** `to_lowercase` on ASCII letters: a capital becomes the small letter at
      the same place in the alphabet; every other character is kept. */
  function LowerChar(c: char): (l: char)
    ensures !IsUpper(l)
    ensures IsUpper(c) ==> 'a' <= l <= 'z' && l as int - 'a' as int == c as int - 'A' as int
    ensures !IsUpper(c) ==> l == c
  {
    if IsUpper(c) then (c as int + 32) as char else c
  }

  /** `s.to_lowercase()`, character by character: no capital is left, and
      every character that was not a capital is kept in place. */
  function ToLower(s: string): (r: string)
    ensures |r| == |s|
    ensures forall i :: 0 <= i < |r| ==> !IsUpper(r[i])
    ensures forall i :: 0 <= i < |s| && !IsUpper(s[i]) ==> r[i] == s[i]
    ensures forall i :: 0 <= i < |s| && IsUpper(s[i]) ==>
              'a' <= r[i] <= 'z' && r[i] as int - 'a' as int == s[i] as int - 'A' as int
  {
    seq(|s|, i requires 0 <= i < |s| => LowerChar(s[i]))
  }

  /** A string without capitals is its own lowercase. */
  lemma ToLowerKeepsLower(s: string)
    requires forall i :: 0 <= i < |s| ==> !IsUpper(s[i])
    ensures ToLower(s) == s
  {
  }

  /** Lowercasing twice is lowercasing once. */
  lemma ToLowerIdempotent(s: string)
    ensures ToLower(ToLower(s)) == ToLower(s)
  {
    ToLowerKeepsLower(ToLower(s));
  }
}
