/** String helpers for Python `str.strip/upper/lower/split` and JavaScript `trim/join`.
    Only ASCII whitespace and ASCII letters are handled; see README "Left out". */
module Text {

  /** Whose notion of whitespace a trim uses. */
  datatype Lang = Python | JavaScript

  /** The ASCII characters `str.strip()` (Python) or `trim()` (JavaScript) removes: both
      remove space, tab, line feed, carriage return, vertical tab and form feed; Python also
      removes the four information separators U+001C..U+001F, which JavaScript keeps. */
  predicate IsSpace(lang: Lang, c: char) {
    || c == ' ' || c == '\t' || c == '\n' || c == '\r' || c == '\U{000B}' || c == '\U{000C}'
    || (lang == Python && '\U{001C}' <= c <= '\U{001F}')
  }

  /** Index of the first non-space character (|s| when there is none). */
  function StripStart(lang: Lang, s: string): (i: nat)
    ensures i <= |s|
    ensures forall k :: 0 <= k < i ==> IsSpace(lang, s[k])
    ensures i < |s| ==> !IsSpace(lang, s[i])
  {
    if |s| == 0 || !IsSpace(lang, s[0]) then 0 else 1 + StripStart(lang, s[1..])
  }

  /** One past the index of the last non-space character (0 when there is none). */
  function StripEnd(lang: Lang, s: string): (j: nat)
    ensures j <= |s|
    ensures forall k :: j <= k < |s| ==> IsSpace(lang, s[k])
    ensures j > 0 ==> !IsSpace(lang, s[j - 1])
  {
    if |s| == 0 || !IsSpace(lang, s[|s| - 1]) then |s| else StripEnd(lang, s[..|s| - 1])
  }

  /** Python `s.strip()` or JavaScript `s.trim()`, by `lang`. */
  function StripIn(lang: Lang, s: string): (r: string)
    ensures StripStart(lang, s) + |r| <= |s|
    ensures r == s[StripStart(lang, s)..StripStart(lang, s) + |r|]
    ensures r == [] <==> forall k :: 0 <= k < |s| ==> IsSpace(lang, s[k])
    ensures r != [] ==> !IsSpace(lang, r[0]) && !IsSpace(lang, r[|r| - 1])
    ensures forall k :: StripStart(lang, s) + |r| <= k < |s| ==> IsSpace(lang, s[k])
  {
    var i := StripStart(lang, s);
    if i == |s| then ""
    else
      var j := StripEnd(lang, s);
      assert i < j;
      s[i..j]
  }

  /** Python `s.strip()`. */
  function Strip(s: string): string {
    StripIn(Python, s)
  }

  /** JavaScript `s.trim()`. */
  function Trim(s: string): string {
    StripIn(JavaScript, s)
  }

  /** A string with nothing to strip (Python). */
  predicate IsStripped(s: string) {
    Strip(s) == s
  }

  /** Stripping is idempotent: a stripped string has nothing left to strip. */
  lemma StripIdempotent(lang: Lang, s: string)
    ensures StripIn(lang, StripIn(lang, s)) == StripIn(lang, s)
  {
    var r := StripIn(lang, s);
    if r != [] {
      assert StripStart(lang, r) == 0;
      assert StripEnd(lang, r) == |r|;
    }
  }

  /** A Python-stripped string is also JavaScript-trimmed: Python removes a superset. */
  lemma StrippedIsTrimmed(s: string)
    ensures Trim(Strip(s)) == Strip(s)
  {
    var r := Strip(s);
    if r != [] {
      assert StripStart(JavaScript, r) == 0;
      assert StripEnd(JavaScript, r) == |r|;
    }
  }

  /** The two trims differ: Python removes a leading U+001C that JavaScript keeps. */
  lemma SeparatorTrimmedOnlyByPython()
    ensures Strip("\U{001C}GBR") == "GBR"
    ensures Trim("\U{001C}GBR") == "\U{001C}GBR"
  {
    var s := "\U{001C}GBR";
    assert StripStart(Python, s[1..]) == 0;
    assert StripStart(Python, s) == 1;
    assert StripEnd(Python, s) == 4;
    assert s[1..4] == "GBR";
    assert StripStart(JavaScript, s) == 0;
    assert StripEnd(JavaScript, s) == 4;
  }

  predicate IsLowerAscii(c: char) { 'a' <= c <= 'z' }
  predicate IsUpperAscii(c: char) { 'A' <= c <= 'Z' }

  function UpperChar(c: char): (d: char)
    ensures !IsLowerAscii(d)
    ensures IsLowerAscii(c) ==> d as int == c as int - 32
    ensures !IsLowerAscii(c) ==> d == c
  {
    if IsLowerAscii(c) then (c as int - 32) as char else c
  }

  function LowerChar(c: char): (d: char)
    ensures !IsUpperAscii(d)
    ensures IsUpperAscii(c) ==> d as int == c as int + 32
    ensures !IsUpperAscii(c) ==> d == c
  {
    if IsUpperAscii(c) then (c as int + 32) as char else c
  }

  /** Python `s.upper()` on ASCII letters. */
  function Upper(s: string): (r: string)
    ensures |r| == |s|
    ensures forall k :: 0 <= k < |s| ==> r[k] == UpperChar(s[k])
  {
    seq(|s|, k requires 0 <= k < |s| => UpperChar(s[k]))
  }

  /** Python `s.lower()` on ASCII letters. */
  function Lower(s: string): (r: string)
    ensures |r| == |s|
    ensures forall k :: 0 <= k < |s| ==> r[k] == LowerChar(s[k])
  {
    seq(|s|, k requires 0 <= k < |s| => LowerChar(s[k]))
  }

  lemma UpperIdempotent(s: string)
    ensures Upper(Upper(s)) == Upper(s)
  {
  }

  lemma LowerIdempotent(s: string)
    ensures Lower(Lower(s)) == Lower(s)
  {
  }

  /** A string with no surrounding whitespace is its own strip. */
  lemma StripOfTrimmed(lang: Lang, s: string)
    requires s != [] ==> !IsSpace(lang, s[0]) && !IsSpace(lang, s[|s| - 1])
    ensures StripIn(lang, s) == s
  {
    if s != [] {
      assert StripStart(lang, s) == 0;
      assert StripEnd(lang, s) == |s|;
    }
  }

  /** The usual normalisation `s.strip().lower()` is idempotent. */
  lemma LowerStripIdempotent(s: string)
    ensures Lower(Strip(Lower(Strip(s)))) == Lower(Strip(s))
  {
    var t := Lower(Strip(s));
    StripOfTrimmed(Python, t);
    LowerIdempotent(Strip(s));
  }

  /** Python `s.startswith(prefix)`. */
  predicate StartsWith(s: string, prefix: string) {
    |prefix| <= |s| && s[..|prefix|] == prefix
  }

  /** Python `t in s` for strings: `t` occurs somewhere in `s`. */
  predicate Contains(s: string, t: string) {
    exists i :: 0 <= i <= |s| && OccursAt(s, t, i)
  }

  predicate OccursAt(s: string, t: string, i: int) {
    0 <= i && i + |t| <= |s| && s[i..i + |t|] == t
  }

  /** Index of the first occurrence of `c` in `s`. */
  function IndexOf(s: string, c: char): (i: nat)
    requires c in s
    ensures i < |s| && s[i] == c && c !in s[..i]
  {
    if s[0] == c then 0 else 1 + IndexOf(s[1..], c)
  }

  /** Index of the last occurrence of a character that occurs (Python `s.rfind(c)`). */
  function LastIndexOf(s: string, c: char): (i: nat)
    requires c in s
    ensures i < |s| && s[i] == c && c !in s[i + 1..]
  {
    if s[|s| - 1] == c then |s| - 1
    else
      assert c in s[..|s| - 1] by {
        var k :| 0 <= k < |s| && s[k] == c;
        assert s[..|s| - 1][k] == c;
      }
      var i := LastIndexOf(s[..|s| - 1], c);
      assert s[i + 1..] == s[..|s| - 1][i + 1..] + [s[|s| - 1]];
      i
  }

  /** The last occurrence is the one with no further occurrence after it. */
  lemma LastIndexOfUnique(s: string, c: char, i: nat)
    requires i < |s| && s[i] == c && c !in s[i + 1..]
    ensures LastIndexOf(s, c) == i
  {
    var j := LastIndexOf(s, c);
    forall k | i < k < |s| ensures s[k] != c {
      assert s[k] == s[i + 1..][k - i - 1];
    }
    forall k | j < k < |s| ensures s[k] != c {
      assert s[k] == s[j + 1..][k - j - 1];
    }
  }

  /** Python `sep.join(parts)` / JavaScript `parts.join(sep)` with a one-character separator. */
  function Join(parts: seq<string>, sep: char): string
  {
    if |parts| == 0 then ""
    else if |parts| == 1 then parts[0]
    else parts[0] + [sep] + Join(parts[1..], sep)
  }

  /** Python `s.split(sep)`: the pieces between separators, empty pieces included. */
  function Split(s: string, sep: char): (parts: seq<string>)
    ensures |parts| >= 1
    ensures forall k :: 0 <= k < |parts| ==> sep !in parts[k]
    decreases |s|
  {
    if sep !in s then [s]
    else
      var i := IndexOf(s, sep);
      [s[..i]] + Split(s[i + 1..], sep)
  }

  /** Joining a first piece onto at least one more puts a separator between them. */
  lemma JoinCons(head: string, rest: seq<string>, sep: char)
    requires |rest| >= 1
    ensures Join([head] + rest, sep) == head + [sep] + Join(rest, sep)
  {
    assert ([head] + rest)[1..] == rest;
  }

  /** Splitting a string that holds the separator: the piece before the first one, then the
      rest split. */
  lemma SplitFirst(s: string, sep: char)
    requires sep in s
    ensures var i := IndexOf(s, sep);
      Split(s, sep) == [s[..i]] + Split(s[i + 1..], sep)
  {
  }

  /** Joining the pieces with the separator gives the string back. */
  lemma {:induction false} SplitJoin(s: string, sep: char)
    ensures Join(Split(s, sep), sep) == s
    decreases |s|
  {
    if sep in s {
      var i := IndexOf(s, sep);
      var head, rest := s[..i], s[i + 1..];
      var pieces := Split(rest, sep);
      SplitFirst(s, sep);
      SplitJoin(rest, sep);
      JoinCons(head, pieces, sep);
      assert s == head + [sep] + rest;
    }
  }

  /** The first occurrence is the one with no earlier occurrence. */
  lemma {:induction false} IndexOfUnique(s: string, c: char, k: nat)
    requires k < |s| && s[k] == c && c !in s[..k]
    ensures c in s && IndexOf(s, c) == k
  {
    if k > 0 {
      assert s[..k][0] == s[0];
      assert s[1..][..k - 1] == s[1..k];
      assert s[1..][k - 1] == c;
      assert forall j :: 0 <= j < k - 1 ==> s[1..k][j] == s[..k][j + 1];
      IndexOfUnique(s[1..], c, k - 1);
    }
  }

  /** Splitting at the first separator: the piece before it, then the rest split. */
  lemma {:induction false} SplitAtFirst(s: string, sep: char, i: nat)
    requires i < |s| && s[i] == sep && sep !in s[..i]
    ensures Split(s, sep) == [s[..i]] + Split(s[i + 1..], sep)
  {
    IndexOfUnique(s, sep, i);
  }

  /** A separator placed after the first one of `a` leaves the first piece unchanged. */
  lemma {:induction false} SplitPastFirst(a: string, b: string, sep: char, i: nat)
    requires i < |a| && a[i] == sep && sep !in a[..i]
    ensures Split(a + [sep] + b, sep) == [a[..i]] + Split(a[i + 1..] + [sep] + b, sep)
  {
    var s := a + [sep] + b;
    assert s[..i] == a[..i];
    assert s[i + 1..] == a[i + 1..] + [sep] + b;
    SplitAtFirst(s, sep, i);
  }

  /** Sequence bookkeeping for SplitConcatStep, kept apart from Split's definition. */
  lemma ConsAppend(whole: seq<string>, left: seq<string>, head: string, tail: seq<string>, mid: seq<string>, right: seq<string>)
    requires whole == [head] + tail && tail == mid + right && left == [head] + mid
    ensures whole == left + right
  {
  }

  lemma {:induction false} SplitConcatStep(a: string, b: string, sep: char, i: nat)
    requires i < |a| && a[i] == sep && sep !in a[..i]
    requires Split(a[i + 1..] + [sep] + b, sep) == Split(a[i + 1..], sep) + Split(b, sep)
    ensures Split(a + [sep] + b, sep) == Split(a, sep) + Split(b, sep)
  {
    SplitPastFirst(a, b, sep, i);
    SplitAtFirst(a, sep, i);
    ConsAppend(Split(a + [sep] + b, sep), Split(a, sep), a[..i], Split(a[i + 1..] + [sep] + b, sep),
      Split(a[i + 1..], sep), Split(b, sep));
  }

  /** Splitting at a separator splits each side independently. */
  lemma {:induction false} SplitConcat(a: string, b: string, sep: char)
    ensures Split(a + [sep] + b, sep) == Split(a, sep) + Split(b, sep)
    decreases |a|
  {
    if sep !in a {
      var s := a + [sep] + b;
      assert s[..|a|] == a;
      assert s[|a| + 1..] == b;
      SplitAtFirst(s, sep, |a|);
    } else {
      var i := IndexOf(a, sep);
      SplitConcat(a[i + 1..], b, sep);
      SplitConcatStep(a, b, sep, i);
    }
  }

  /** Pieces free of the separator come back from their join unchanged. */
  lemma {:induction false} JoinSplit(parts: seq<string>, sep: char)
    requires |parts| >= 1
    requires forall k :: 0 <= k < |parts| ==> sep !in parts[k]
    ensures Split(Join(parts, sep), sep) == parts
  {
    if |parts| > 1 {
      var head, rest := parts[0], parts[1..];
      assert parts == [head] + rest;
      JoinCons(head, rest, sep);
      JoinSplit(rest, sep);
      SplitConcat(head, Join(rest, sep), sep);
      assert Split(head, sep) == [head];
    }
  }
}
