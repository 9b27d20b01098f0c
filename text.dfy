/**
 * The few JavaScript string operations the handlers rely on, over `seq<char>`.
 * JavaScript strings are sequences of UTF-16 code units; here a `char` stands for one unit.
 */
module Text {

  /** `s.split(sep)` for a non-empty string separator: leftmost, non-overlapping matches. */
  function Split(s: string, sep: string): (parts: seq<string>)
    requires sep != []
    ensures |parts| >= 1
    decreases |s|
  {
    if s == [] then [""]
    else if sep <= s then [""] + Split(s[|sep|..], sep)
    else
      var rest := Split(s[1..], sep);
      [[s[0]] + rest[0]] + rest[1..]
  }

  /** `parts.join(sep)`. */
  function Join(parts: seq<string>, sep: string): string
    decreases |parts|
  {
    if parts == [] then ""
    else if |parts| == 1 then parts[0]
    else parts[0] + sep + Join(parts[1..], sep)
  }

  /** Prepending a character to the first part prepends it to the joined string. */
  lemma JoinConsHead(c: char, rest: seq<string>, sep: string)
    requires |rest| >= 1
    ensures Join([[c] + rest[0]] + rest[1..], sep) == [c] + Join(rest, sep)
  {
    var parts := [[c] + rest[0]] + rest[1..];
    if |rest| > 1 {
      assert parts[1..] == rest[1..];
    }
  }

  /** An empty first part contributes only the separator. */
  lemma JoinEmptyHead(rest: seq<string>, sep: string)
    requires |rest| >= 1
    ensures Join([""] + rest, sep) == sep + Join(rest, sep)
  {
    assert ([""] + rest)[1..] == rest;
  }

  /** Splitting and joining with the same separator gives back the string. */
  lemma {:induction false} JoinSplit(s: string, sep: string)
    requires sep != []
    ensures Join(Split(s, sep), sep) == s
    decreases |s|
  {
    if s == [] {
    } else if sep <= s {
      var t := s[|sep|..];
      var rest := Split(t, sep);
      assert Split(s, sep) == [""] + rest;
      JoinSplit(t, sep);
      JoinEmptyHead(rest, sep);
      assert s == sep + t;
    } else {
      var t := s[1..];
      var rest := Split(t, sep);
      assert Split(s, sep) == [[s[0]] + rest[0]] + rest[1..];
      JoinSplit(t, sep);
      JoinConsHead(s[0], rest, sep);
      assert s == [s[0]] + t;
    }
  }

  /** `sep` occurs in `s` starting at index `i`. */
  predicate OccursAt(s: string, sep: string, i: nat) {
    i + |sep| <= |s| && s[i..i + |sep|] == sep
  }

  /** A string in which the separator does not occur splits into itself alone. */
  lemma {:induction false} SplitWithoutSeparator(s: string, sep: string)
    requires sep != []
    requires forall i: nat :: !OccursAt(s, sep, i)
    ensures Split(s, sep) == [s]
    decreases |s|
  {
    if s != [] {
      assert !OccursAt(s, sep, 0);
      assert !(sep <= s);
      forall i: nat ensures !OccursAt(s[1..], sep, i) {
        assert !OccursAt(s, sep, i + 1);
      }
      SplitWithoutSeparator(s[1..], sep);
      assert s == [s[0]] + s[1..];
    }
  }

  /** Splitting on one character: the first part never contains it, and there is only one part exactly when it does not occur. */
  lemma {:induction false} SplitOnChar(s: string, c: char)
    ensures c !in Split(s, [c])[0]
    ensures |Split(s, [c])| == 1 <==> c !in s
    decreases |s|
  {
    if s != [] {
      if [c] <= s {
        assert s[0] == c;
        assert |Split(s, [c])| >= 2;
      } else {
        assert s[0] != c;
        SplitOnChar(s[1..], c);
        assert s == [s[0]] + s[1..];
      }
    }
  }

  /** A string splits in only one way around a character that its left part does not contain. */
  lemma {:induction false} SplitAtCharUnique(k1: string, v1: string, k2: string, v2: string, c: char)
    requires k1 + [c] + v1 == k2 + [c] + v2
    requires c !in k1 && c !in k2
    ensures k1 == k2 && v1 == v2
    decreases |k1|
  {
    var s := k1 + [c] + v1;
    if k1 == [] {
      assert s[0] == c;
      assert k2 == [] by { assert (k2 + [c] + v2)[0] == c; }
      assert v1 == s[1..] == v2;
    } else {
      assert (k2 + [c] + v2)[0] == s[0] == k1[0] != c;
      assert k2 != [];
      assert k1[1..] + [c] + v1 == s[1..] == k2[1..] + [c] + v2;
      SplitAtCharUnique(k1[1..], v1, k2[1..], v2, c);
      assert k1 == [k1[0]] + k1[1..] && k2 == [k2[0]] + k2[1..];
    }
  }

  /** `s.substring(start, end)` for `start <= end`: both indices are clamped to the length. */
  function Substring(s: string, start: nat, end: nat): (r: string)
    requires start <= end
    ensures |r| == (if end <= |s| then end else |s|) - (if start <= |s| then start else |s|)
    ensures forall i :: 0 <= i < |r| ==> r[i] == s[start + i]
  {
    var e := if end <= |s| then end else |s|;
    var b := if start <= |s| then start else |s|;
    s[b..e]
  }

  /** `s.replace(/c/g, '')`: every occurrence of `c` removed. */
  function Remove(s: string, c: char): (r: string)
    ensures c !in r
    ensures |r| <= |s|
  {
    if s == [] then ""
    else if s[0] == c then Remove(s[1..], c)
    else [s[0]] + Remove(s[1..], c)
  }

  /** A string without `c` is left as it is by `Remove`. */
  lemma {:induction false} RemoveAbsent(s: string, c: char)
    requires c !in s
    ensures Remove(s, c) == s
  {
    if s != [] {
      RemoveAbsent(s[1..], c);
    }
  }

  /** Removing a character from a concatenation removes it from both halves. */
  lemma {:induction false} RemoveAppend(a: string, b: string, c: char)
    ensures Remove(a + b, c) == Remove(a, c) + Remove(b, c)
  {
    if a != [] {
      assert (a + b)[1..] == a[1..] + b;
      RemoveAppend(a[1..], b, c);
    } else {
      assert a + b == b;
    }
  }

  /** `toUpperCase` restricted to ASCII letters: the only letters base-36 digits use. */
  function UpperAscii(s: string): (r: string)
    ensures |r| == |s|
    ensures forall i :: 0 <= i < |s| ==> r[i] == (if 'a' <= s[i] <= 'z' then (s[i] as int - 32) as char else s[i])
  {
    if s == [] then "" else [if 'a' <= s[0] <= 'z' then (s[0] as int - 32) as char else s[0]] + UpperAscii(s[1..])
  }

  /** The characters JavaScript's regular-expression class `\s` matches. */
  predicate IsJsWhitespace(c: char) {
    c == '\t' || c == '\n' || c == '\U{B}' || c == '\U{C}' || c == '\r' || c == ' '
    || c == '\U{A0}' || c == '\U{1680}' || ('\U{2000}' <= c <= '\U{200A}')
    || c == '\U{2028}' || c == '\U{2029}' || c == '\U{202F}' || c == '\U{205F}'
    || c == '\U{3000}' || c == '\U{FEFF}'
  }
}
