/** The Python `str` operations the core relies on, restricted to ASCII:
    `lower()`, `upper()`, `strip()`, `in`, `startswith`, `split(sep)`,
    `sep.join(...)` and `split(sep, 1)[1]`. */
module Text {

  /** `str.isspace()` on ASCII: tab, line feed, vertical tab, form feed,
      carriage return, the four separator controls 0x1C-0x1F and space. */
  predicate IsSpace(c: char) {
    c == ' ' || ('\t' <= c <= '\r') || ('\U{1C}' <= c <= '\U{1F}')
  }

  function LowerChar(c: char): char {
    if 'A' <= c <= 'Z' then (c as int + 32) as char else c
  }

  function UpperChar(c: char): char {
    if 'a' <= c <= 'z' then (c as int - 32) as char else c
  }

  /** `s.lower()` */
  function Lower(s: string): (r: string)
    ensures |r| == |s|
  {
    seq(|s|, i requires 0 <= i < |s| => LowerChar(s[i]))
  }

  /** `s.upper()` */
  function Upper(s: string): (r: string)
    ensures |r| == |s|
  {
    seq(|s|, i requires 0 <= i < |s| => UpperChar(s[i]))
  }

  /** After `lower()` no upper-case letter is left, and each character is
      the original one up to case. */
  lemma LowerChars(s: string)
    ensures forall i :: 0 <= i < |s| ==>
      !('A' <= Lower(s)[i] <= 'Z') && UpperChar(Lower(s)[i]) == UpperChar(s[i])
  {
  }

  /** After `upper()` no lower-case letter is left, and each character is
      the original one up to case. */
  lemma UpperChars(s: string)
    ensures forall i :: 0 <= i < |s| ==>
      !('a' <= Upper(s)[i] <= 'z') && LowerChar(Upper(s)[i]) == LowerChar(s[i])
  {
  }

  /** Upper-casing ignores the case the string had. */
  lemma UpperOfLower(s: string)
    ensures Upper(Lower(s)) == Upper(s)
  {
    forall i | 0 <= i < |s|
      ensures Upper(Lower(s))[i] == Upper(s)[i]
    {
      if 'A' <= s[i] <= 'Z' {
        assert Lower(s)[i] as int == s[i] as int + 32;
      }
    }
  }

  /** Upper-casing twice is upper-casing once. */
  lemma UpperOfUpper(s: string)
    ensures Upper(Upper(s)) == Upper(s)
  {
    forall i | 0 <= i < |s|
      ensures Upper(Upper(s))[i] == Upper(s)[i]
    {
      assert !('a' <= Upper(s)[i] <= 'z');
    }
  }

  /** `t in s`: `t` occurs in `s` as a contiguous substring. A prefix
      occurs, and nothing longer than `s` does. */
  predicate Contains(s: string, t: string)
    ensures t <= s ==> Contains(s, t)
    ensures Contains(s, t) ==> |t| <= |s|
  {
    assert s[0..] == s;
    exists i :: 0 <= i <= |s| && t <= s[i..]
  }

  /** A string lacking a character of `t` cannot contain `t`. */
  lemma MissingCharNotContained(s: string, t: string, k: nat)
    requires k < |t| && t[k] !in s
    ensures !Contains(s, t)
  {
  }

  /** A lower-case letter is absent from `s.lower()` when neither it nor its
      upper-case form occurs in `s`. */
  lemma LowerAbsent(s: string, c: char)
    requires 'a' <= c <= 'z' && c !in s && UpperChar(c) !in s
    ensures c !in Lower(s)
  {
    forall k | 0 <= k < |s|
      ensures Lower(s)[k] != c
    {
      assert s[k] in s;
      if 'A' <= s[k] <= 'Z' {
        assert s[k] as int + 32 != c as int;
      }
    }
  }

  /** An upper-case letter is absent from `s.upper()` when neither it nor its
      lower-case form occurs in `s`. */
  lemma UpperAbsent(s: string, c: char)
    requires 'A' <= c <= 'Z' && c !in s && LowerChar(c) !in s
    ensures c !in Upper(s)
  {
    forall k | 0 <= k < |s|
      ensures Upper(s)[k] != c
    {
      assert s[k] in s;
      if 'a' <= s[k] <= 'z' {
        assert s[k] as int - 32 != c as int;
      }
    }
  }

  /** Lower-casing preserves prefixes. */
  lemma LowerPrefix(p: string, s: string)
    requires p <= s
    ensures Lower(p) <= Lower(s)
  {
  }

  /** `s.lstrip()`: what is dropped is whitespace, and what is left does not
      start with whitespace. */
  function TrimStart(s: string): (r: string)
    ensures |r| <= |s|
    ensures forall i :: 0 <= i < |s| - |r| ==> IsSpace(s[i])
    ensures |r| == 0 || !IsSpace(r[0])
    decreases |s|
  {
    if |s| > 0 && IsSpace(s[0]) then TrimStart(s[1..]) else s
  }

  /** What `lstrip()` leaves is a suffix of the string. */
  lemma {:induction false} TrimStartSuffix(s: string)
    ensures TrimStart(s) == s[|s| - |TrimStart(s)|..]
    decreases |s|
  {
    if |s| > 0 && IsSpace(s[0]) {
      TrimStartSuffix(s[1..]);
      assert s[1..][|s| - 1 - |TrimStart(s)|..] == s[|s| - |TrimStart(s)|..];
    }
  }

  /** `s.rstrip()` */
  function TrimEnd(s: string): (r: string)
    ensures |r| <= |s| && r == s[..|r|]
    ensures forall i :: |r| <= i < |s| ==> IsSpace(s[i])
    ensures |r| == 0 || !IsSpace(r[|r| - 1])
    decreases |s|
  {
    if |s| > 0 && IsSpace(s[|s| - 1]) then TrimEnd(s[..|s| - 1]) else s
  }

  /** `s.strip()`: the result is a piece of `s` that neither starts nor
      ends with whitespace. */
  function Strip(s: string): (r: string)
    ensures |r| <= |s|
    ensures |r| == 0 || (!IsSpace(r[0]) && !IsSpace(r[|r| - 1]))
  {
    TrimEnd(TrimStart(s))
  }

  /** What `strip()` removes is whitespace on both sides: the result is the
      piece of `s` left between them. */
  lemma StripPiece(s: string)
    ensures exists a, b :: IsStrippedPiece(s, Strip(s), a, b)
  {
    var t := TrimStart(s);
    TrimStartSuffix(s);
    var r := TrimEnd(t);
    var a := |s| - |t|;
    assert IsStrippedPiece(s, r, a, a + |r|) by {
      assert r == s[a..a + |r|];
      forall i | a + |r| <= i < |s|
        ensures IsSpace(s[i])
      {
        assert s[i] == t[i - a];
      }
    }
    assert r == Strip(s);
  }

  /** `r` is `s[a..b]`, and everything outside that piece is whitespace. */
  predicate IsStrippedPiece(s: string, r: string, a: int, b: int) {
    0 <= a <= b <= |s| && r == s[a..b] &&
    (forall i :: 0 <= i < a ==> IsSpace(s[i])) &&
    (forall i :: b <= i < |s| ==> IsSpace(s[i]))
  }

  /** `s.split(sep)` for a one-character separator: always at least one
      part, and no part contains the separator. */
  function Split(s: string, sep: char): (parts: seq<string>)
    ensures |parts| >= 1
    ensures forall i :: 0 <= i < |parts| ==> sep !in parts[i]
    decreases |s|
  {
    if |s| == 0 then [""]
    else
      var rest := Split(s[1..], sep);
      if s[0] == sep then [""] + rest
      else [[s[0]] + rest[0]] + rest[1..]
  }

  /** `sep.join(parts)` for a one-character separator: it starts with the
      first part and is that part alone when there is only one. */
  function Join(sep: char, parts: seq<string>): (r: string)
    ensures |parts| >= 1 ==> parts[0] <= r
    ensures |parts| == 1 ==> r == parts[0]
    decreases |parts|
  {
    if |parts| == 0 then ""
    else if |parts| == 1 then parts[0]
    else parts[0] + [sep] + Join(sep, parts[1..])
  }

  lemma {:induction false} JoinConsChar(sep: char, c: char, parts: seq<string>)
    requires |parts| >= 1
    ensures Join(sep, [[c] + parts[0]] + parts[1..]) == [c] + Join(sep, parts)
  {
    var q := [[c] + parts[0]] + parts[1..];
    assert q[1..] == parts[1..];
  }

  /** Joining what was split gives back the original string. */
  lemma {:induction false} JoinSplit(s: string, sep: char)
    ensures Join(sep, Split(s, sep)) == s
    decreases |s|
  {
    if |s| > 0 {
      var rest := Split(s[1..], sep);
      JoinSplit(s[1..], sep);
      if s[0] == sep {
        var parts := [""] + rest;
        assert parts[1..] == rest;
        assert Join(sep, parts) == "" + [sep] + Join(sep, rest);
        assert s == [s[0]] + s[1..];
      } else {
        JoinConsChar(sep, s[0], rest);
        assert s == [s[0]] + s[1..];
      }
    }
  }

  lemma {:induction false} SplitAfterSeparator(a: string, b: string, sep: char)
    requires sep !in a
    ensures Split(a + [sep] + b, sep) == [a] + Split(b, sep)
    decreases |a|
  {
    var s := a + [sep] + b;
    if |a| == 0 {
      assert s[0] == sep && s[1..] == b;
    } else {
      assert s[0] == a[0] && s[1..] == a[1..] + [sep] + b;
      SplitAfterSeparator(a[1..], b, sep);
      assert [a[0]] + a[1..] == a;
    }
  }

  /** Splitting what was joined gives back the parts, provided no part
      contains the separator. */
  lemma {:induction false} SplitJoin(parts: seq<string>, sep: char)
    requires |parts| >= 1
    requires forall i :: 0 <= i < |parts| ==> sep !in parts[i]
    ensures Split(Join(sep, parts), sep) == parts
    decreases |parts|
  {
    if |parts| == 1 {
      SplitNoSeparator(parts[0], sep);
    } else {
      SplitJoin(parts[1..], sep);
      SplitAfterSeparator(parts[0], Join(sep, parts[1..]), sep);
      assert [parts[0]] + parts[1..] == parts;
    }
  }

  lemma {:induction false} SplitNoSeparator(s: string, sep: char)
    requires sep !in s
    ensures Split(s, sep) == [s]
    decreases |s|
  {
    if |s| > 0 {
      SplitNoSeparator(s[1..], sep);
      assert [s[0]] + s[1..] == s;
    }
  }

  /** `s.split(c, 1)[1]`: what follows the first occurrence of `c`. */
  function AfterFirst(s: string, c: char): (r: string)
    requires c in s
    ensures |r| < |s| && r == s[|s| - |r|..]
    ensures s[|s| - |r| - 1] == c && c !in s[..|s| - |r| - 1]
    decreases |s|
  {
    if s[0] == c then s[1..]
    else
      assert c in s[1..] by { assert s == [s[0]] + s[1..]; }
      var r := AfterFirst(s[1..], c);
      assert s[..|s| - |r| - 1] == [s[0]] + s[1..][..|s| - 1 - |r| - 1];
      r
  }

  /** When `s` starts with a prefix whose only occurrence of `c` is its last
      character, `s.split(c, 1)[1]` is the rest of `s` after that prefix. */
  lemma AfterFirstPrefix(s: string, prefix: string, c: char)
    requires |prefix| >= 1 && prefix <= s
    requires prefix[|prefix| - 1] == c && c !in prefix[..|prefix| - 1]
    ensures c in s
    ensures AfterFirst(s, c) == s[|prefix|..]
  {
    assert s[|prefix| - 1] == c;
    var r := AfterFirst(s, c);
    var k := |s| - |r| - 1;
    if k < |prefix| - 1 {
      assert false;
    } else if k > |prefix| - 1 {
      assert false;
    }
  }
}
