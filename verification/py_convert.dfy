/** Python's `int()` and `float()` applied to decoded JSON values, and decimal notation
    of integers. */
module PyConvert {
  import opened Wrappers
  import opened Json
  import Text

  predicate IsDigit(c: char) { '0' as int <= c as int <= '9' as int }

  function DigitValue(c: char): (d: nat)
    requires IsDigit(c)
    ensures d < 10
  {
    (c as int - '0' as int)
  }

  function DigitChar(d: nat): (c: char)
    requires d < 10
    ensures IsDigit(c) && DigitValue(c) == d
  {
    ('0' as int + d) as char
  }

  /** The value of a string of decimal digits. */
  function DigitsValue(s: string): nat
    requires AllDigits(s)
  {
    if |s| == 0 then 0 else DigitsValue(s[..|s| - 1]) * 10 + DigitValue(s[|s| - 1])
  }

  predicate AllDigits(s: string) {
    forall i :: 0 <= i < |s| ==> IsDigit(s[i])
  }

  /** The digits of an integer literal as CPython's scanner accepts them (PEP 515): a digit
      first and last, and every underscore followed by a digit, so underscores stand alone
      between digits. */
  predicate WellGrouped(d: string) {
    && |d| > 0 && IsDigit(d[0]) && IsDigit(d[|d| - 1])
    && forall i :: 0 <= i < |d| - 1 ==> GroupedAt(d, i)
  }

  /** Position i holds a digit, or an underscore with a digit after it. */
  predicate GroupedAt(d: string, i: nat)
    requires i < |d| - 1
  {
    IsDigit(d[i]) || (d[i] == '_' && IsDigit(d[i + 1]))
  }

  /** The text with its underscores removed. */
  function RemoveUnderscores(d: string): (r: string)
    ensures |r| <= |d|
    ensures '_' !in d ==> r == d
  {
    if |d| == 0 then [] else (if d[0] == '_' then [] else [d[0]]) + RemoveUnderscores(d[1..])
  }

  /** The text after an optional leading sign. */
  function Unsigned(t: string): string {
    if |t| > 0 && (t[0] == '-' || t[0] == '+') then t[1..] else t
  }

  /** `int()` of trimmed text: an optional sign, then digits grouped by single underscores;
      the value is that of the digits alone. */
  function ParseLiteral(t: string): Option<int> {
    var d := Unsigned(t);
    if !WellGrouped(d) then None
    else
      assert AllDigits(RemoveUnderscores(d)) by { GroupedChars(d); DigitsKept(d); }
      Some(Signed(t[0] == '-', DigitsValue(RemoveUnderscores(d))))
  }

  /** A magnitude with a sign applied. */
  function Signed(negative: bool, magnitude: nat): (r: int)
    ensures negative ==> r == -(magnitude as int)
    ensures !negative ==> r == magnitude
  {
    if negative then -(magnitude as int) else magnitude
  }

  /** `int(text)`: surrounding whitespace is ignored. */
  function ParseInt(s: string): (r: Option<int>)
    ensures r.Some? ==> Text.Strip(s) != []
  {
    ParseLiteral(Text.Strip(s))
  }

  /** Well grouped text holds only digits and underscores. */
  lemma GroupedChars(d: string)
    requires WellGrouped(d)
    ensures forall i :: 0 <= i < |d| ==> IsDigit(d[i]) || d[i] == '_'
  {
    forall i | 0 <= i < |d| ensures IsDigit(d[i]) || d[i] == '_' {
      if i < |d| - 1 {
        assert GroupedAt(d, i);
      }
    }
  }

  /** Removing the underscores of text made of digits and underscores leaves only digits. */
  lemma {:induction false} DigitsKept(d: string)
    requires forall i :: 0 <= i < |d| ==> IsDigit(d[i]) || d[i] == '_'
    ensures AllDigits(RemoveUnderscores(d))
  {
    if |d| > 0 {
      DigitsKept(d[1..]);
    }
  }

  /** The pieces of text split at underscores are all non-empty runs of digits. */
  predicate DigitGroups(groups: seq<string>) {
    forall k :: 0 <= k < |groups| ==> groups[k] != [] && AllDigits(groups[k])
  }

  function Concat(groups: seq<string>): (r: string)
    ensures DigitGroups(groups) ==> AllDigits(r)
  {
    if |groups| == 0 then [] else groups[0] + Concat(groups[1..])
  }

  lemma {:induction false} RemoveUnderscoresAppend(a: string, b: string)
    ensures RemoveUnderscores(a + b) == RemoveUnderscores(a) + RemoveUnderscores(b)
  {
    if |a| > 0 {
      assert (a + b)[1..] == a[1..] + b;
      RemoveUnderscoresAppend(a[1..], b);
    } else {
      assert a + b == b;
    }
  }

  /** Text holding an underscore is well grouped exactly when the part before its first
      underscore is a non-empty run of digits and the rest is well grouped. */
  lemma WellGroupedAtFirst(d: string, i: nat)
    requires i < |d| && d[i] == '_' && '_' !in d[..i]
    ensures WellGrouped(d) <==> d[..i] != [] && AllDigits(d[..i]) && WellGrouped(d[i + 1..])
  {
    var head, rest := d[..i], d[i + 1..];
    if WellGrouped(d) {
      assert i > 0;
      forall k | 0 <= k < i ensures IsDigit(head[k]) {
        assert head[k] in head;
        assert d[k] == head[k];
        assert GroupedAt(d, k);
      }
      forall k | 0 <= k < |rest| - 1 ensures GroupedAt(rest, k) {
        assert GroupedAt(d, i + 1 + k);
        assert rest[k] == d[i + 1 + k] && rest[k + 1] == d[i + 2 + k];
      }
      assert GroupedAt(d, i);
    }
    if head != [] && AllDigits(head) && WellGrouped(rest) {
      forall k | 0 <= k < |d| - 1 ensures GroupedAt(d, k) {
        if k < i {
          assert d[k] == head[k];
        } else if k > i {
          assert GroupedAt(rest, k - i - 1);
          assert d[k] == rest[k - i - 1] && d[k + 1] == rest[k - i];
        } else {
          assert d[k + 1] == rest[0];
        }
      }
      assert d[0] == head[0] && d[|d| - 1] == rest[|rest| - 1];
    }
  }

  /** Splitting at underscores gives the digit groups exactly when the text is well
      grouped, and the groups laid end to end are the text without its underscores. */
  lemma {:induction false} WellGroupedIffDigitGroups(d: string)
    ensures WellGrouped(d) <==> DigitGroups(Text.Split(d, '_'))
    ensures WellGrouped(d) ==> Concat(Text.Split(d, '_')) == RemoveUnderscores(d)
    decreases |d|
  {
    var groups := Text.Split(d, '_');
    if '_' !in d {
      assert groups == [d];
      assert Concat(groups) == d + Concat([]);
      if d != [] && AllDigits(d) {
        GroupOfDigits(d);
      }
      if WellGrouped(d) {
        GroupedChars(d);
        forall i | 0 <= i < |d| ensures IsDigit(d[i]) {
          assert d[i] in d;
        }
      }
    } else {
      var i := Text.IndexOf(d, '_');
      var head, rest := d[..i], d[i + 1..];
      Text.SplitAtFirst(d, '_', i);
      WellGroupedIffDigitGroups(rest);
      WellGroupedAtFirst(d, i);
      GroupsCons(head, Text.Split(rest, '_'));
      if WellGrouped(d) {
        RemoveUnderscoresAt(d, i);
      }
    }
  }

  /** Digit groups and their concatenation, one group at a time. */
  lemma GroupsCons(head: string, rest: seq<string>)
    ensures DigitGroups([head] + rest) <==> head != [] && AllDigits(head) && DigitGroups(rest)
    ensures Concat([head] + rest) == head + Concat(rest)
  {
    assert ([head] + rest)[1..] == rest;
    if head != [] && AllDigits(head) && DigitGroups(rest) {
      forall k | 0 <= k < |rest| + 1 ensures ([head] + rest)[k] != [] && AllDigits(([head] + rest)[k]) {
        if k > 0 { assert ([head] + rest)[k] == rest[k - 1]; }
      }
    }
    if DigitGroups([head] + rest) {
      forall k | 0 <= k < |rest| ensures rest[k] != [] && AllDigits(rest[k]) {
        assert ([head] + rest)[k + 1] == rest[k];
      }
      assert ([head] + rest)[0] == head;
    }
  }

  /** Removing the underscores around the first one: the digits before it, then the rest. */
  lemma RemoveUnderscoresAt(d: string, i: nat)
    requires i < |d| && d[i] == '_' && '_' !in d[..i]
    ensures RemoveUnderscores(d) == d[..i] + RemoveUnderscores(d[i + 1..])
  {
    var head, rest := d[..i], d[i + 1..];
    var tail := d[i..];
    assert d == head + tail;
    RemoveUnderscoresAppend(head, tail);
    assert tail[0] == '_' && tail[1..] == rest;
    assert RemoveUnderscores(tail) == RemoveUnderscores(rest);
  }

  /** A signed text of digit groups joined by single underscores parses to the value of
      its digits, with the sign applied. */
  lemma ParseGrouped(sign: string, groups: seq<string>)
    requires sign == "" || sign == "-" || sign == "+"
    requires |groups| >= 1 && DigitGroups(groups)
    ensures WellGrouped(Text.Join(groups, '_'))
    ensures ParseLiteral(sign + Text.Join(groups, '_')) == Some(Signed(sign == "-", DigitsValue(Concat(groups))))
  {
    var d := Text.Join(groups, '_');
    assert WellGrouped(d) && RemoveUnderscores(d) == Concat(groups) by {
      GroupsSplitBack(groups);
      WellGroupedIffDigitGroups(d);
    }
    ParseWellGrouped(sign, d);
  }

  /** Digit groups joined by underscores split back into the same groups. */
  lemma GroupsSplitBack(groups: seq<string>)
    requires |groups| >= 1 && DigitGroups(groups)
    ensures Text.Split(Text.Join(groups, '_'), '_') == groups
  {
    forall k | 0 <= k < |groups| ensures '_' !in groups[k] {
      NoUnderscoreInDigits(groups[k]);
    }
    Text.JoinSplit(groups, '_');
  }

  /** A sign followed by well grouped digits parses to the value of the digits. */
  lemma ParseWellGrouped(sign: string, d: string)
    requires sign == "" || sign == "-" || sign == "+"
    requires WellGrouped(d)
    ensures AllDigits(RemoveUnderscores(d))
    ensures ParseLiteral(sign + d) == Some(Signed(sign == "-", DigitsValue(RemoveUnderscores(d))))
  {
    GroupedChars(d);
    DigitsKept(d);
    var t := sign + d;
    assert Unsigned(t) == d by {
      if sign == "" { assert t == d; } else { assert t[1..] == d; }
    }
    assert t[0] == '-' <==> sign == "-" by {
      if sign == "" { assert t[0] == d[0] && IsDigit(d[0]); }
    }
  }

  lemma NoUnderscoreInDigits(d: string)
    requires AllDigits(d)
    ensures '_' !in d
  {
    forall i | 0 <= i < |d| ensures d[i] != '_' {
      assert IsDigit(d[i]);
    }
  }

  /** Every trimmed text `int()` accepts is a sign and digit groups joined by single
      underscores, and parses to the value of those digits. */
  lemma ParseLiteralIsGrouped(t: string)
    requires ParseLiteral(t).Some?
    ensures DigitGroups(Text.Split(Unsigned(t), '_'))
    ensures Text.Join(Text.Split(Unsigned(t), '_'), '_') == Unsigned(t)
    ensures ParseLiteral(t).value == Signed(t[0] == '-', DigitsValue(Concat(Text.Split(Unsigned(t), '_'))))
  {
    var d := Unsigned(t);
    WellGroupedIffDigitGroups(d);
    Text.SplitJoin(d, '_');
  }

  /** `int(text)` in full: it succeeds exactly when the stripped text, less one leading
      sign, splits at its underscores into non-empty runs of digits, and its value is
      that of the runs laid end to end, negated after a '-'. */
  lemma ParseIntExactly(s: string)
    ensures ParseInt(s).Some? <==> DigitGroups(Text.Split(Unsigned(Text.Strip(s)), '_'))
    ensures ParseInt(s).Some? ==>
      ParseInt(s).value == Signed(Text.Strip(s)[0] == '-', DigitsValue(Concat(Text.Split(Unsigned(Text.Strip(s)), '_'))))
  {
    var t := Text.Strip(s);
    WellGroupedIffDigitGroups(Unsigned(t));
    if ParseInt(s).Some? {
      ParseLiteralIsGrouped(t);
    }
  }

  /** A sign followed by well grouped digits has no surrounding whitespace, so `int()` of it
      is its literal parse. */
  lemma ParseUnpadded(sign: string, d: string)
    requires sign == "" || sign == "-" || sign == "+"
    requires WellGrouped(d)
    ensures ParseInt(sign + d) == ParseLiteral(sign + d)
  {
    var t := sign + d;
    assert !Text.IsSpace(Text.Python, t[0]) by {
      if sign == "" { assert t[0] == d[0]; } else { assert t[0] == sign[0]; }
    }
    assert t[|t| - 1] == d[|d| - 1];
    assert Text.StripStart(Text.Python, t) == 0;
    assert Text.StripEnd(Text.Python, t) == |t|;
    assert Text.Strip(t) == t;
  }

  /** Two digit groups joined by one underscore read as their digits side by side. */
  lemma ParseUnderscored(hi: string, lo: string)
    requires hi != [] && AllDigits(hi) && lo != [] && AllDigits(lo)
    ensures AllDigits(hi + lo)
    ensures ParseInt(hi + "_" + lo) == Some(DigitsValue(hi + lo))
  {
    var groups := [hi, lo];
    var d := hi + "_" + lo;
    TwoGroups(hi, lo);
    ParseGrouped("", groups);
    assert "" + d == d;
    ParseUnpadded("", d);
  }

  lemma TwoGroups(hi: string, lo: string)
    requires hi != [] && AllDigits(hi) && lo != [] && AllDigits(lo)
    ensures DigitGroups([hi, lo])
    ensures Text.Join([hi, lo], '_') == hi + "_" + lo
    ensures Concat([hi, lo]) == hi + lo
  {
    assert [hi, lo][1..] == [lo];
    assert Concat([lo]) == lo + Concat([]);
  }

  /** Underscore grouping: `int("1_990")` is 1990. */
  lemma UnderscoreExample()
    ensures ParseInt("1_990") == Some(1990)
  {
    ParseUnderscored("1", "990");
    assert "1" + "_" + "990" == "1_990";
    DigitsExample();
    assert "1" + "990" == "1990";
  }

  /** `int("2_020")` is 2020. */
  lemma UnderscoreYearExample()
    ensures ParseInt("2_020") == Some(2020)
  {
    ParseUnderscored("2", "020");
    assert "2" + "_" + "020" == "2_020" && "2" + "020" == "2020";
    assert DigitsValue("2020") == 2020 by { DigitsOf2020(); }
  }

  lemma DigitsOf2020()
    ensures DigitsValue("2020") == 2020
  {
    assert "2020"[..3] == "202" && "202"[..2] == "20" && "20"[..1] == "2";
  }

  /** `int("1_0")` is 10. */
  lemma UnderscoreTenExample()
    ensures ParseInt("1_0") == Some(10)
  {
    ParseUnderscored("1", "0");
    assert "1" + "_" + "0" == "1_0" && "1" + "0" == "10";
    assert DigitsValue("10") == 10 by {
      assert "10"[..1] == "1";
    }
  }

  lemma DigitsExample()
    ensures DigitsValue("1990") == 1990
  {
    assert "1990"[..3] == "199" && "199"[..2] == "19" && "19"[..1] == "1";
  }

  /** A doubled, leading or trailing underscore is refused. */
  lemma MisplacedUnderscoresRefused()
    ensures ParseLiteral("1__990").None?
    ensures ParseLiteral("_1").None?
    ensures ParseLiteral("1_").None?
  {
    assert !GroupedAt("1__990", 1);
    assert Unsigned("1__990") == "1__990" && Unsigned("_1") == "_1" && Unsigned("1_") == "1_";
  }

  /** Decimal notation of a natural number, without leading zeros. */
  function ShowNat(n: nat): (s: string)
    ensures |s| > 0 && forall i :: 0 <= i < |s| ==> IsDigit(s[i])
  {
    if n < 10 then [DigitChar(n)] else ShowNat(n / 10) + [DigitChar(n % 10)]
  }

  function ShowInt(n: int): string {
    if n < 0 then "-" + ShowNat(-n) else ShowNat(n)
  }

  lemma {:induction false} DigitsOfShowNat(n: nat)
    ensures DigitsValue(ShowNat(n)) == n
  {
    if n >= 10 {
      DigitsOfShowNat(n / 10);
      var s := ShowNat(n);
      assert s[..|s| - 1] == ShowNat(n / 10);
    }
  }

  /** `int()` reads back every integer written in decimal. */
  lemma ParseShowInt(n: int)
    ensures ParseInt(ShowInt(n)) == Some(n)
  {
    var m: nat := if n < 0 then -n else n;
    var digits := ShowNat(m);
    var sign := if n < 0 then "-" else "";
    assert ShowInt(n) == sign + digits;
    assert WellGrouped(digits) by { GroupOfDigits(digits); }
    assert ParseLiteral(sign + digits) == Some(Signed(n < 0, DigitsValue(digits))) by {
      ParseWellGrouped(sign, digits);
      NoUnderscoreInDigits(digits);
    }
    ParseUnpadded(sign, digits);
    DigitsOfShowNat(m);
  }

  /** A non-empty run of digits is well grouped. */
  lemma GroupOfDigits(d: string)
    requires d != [] && AllDigits(d)
    ensures WellGrouped(d)
  {
  }

  /** Python `int(x)` of a float: truncation toward zero. */
  function Trunc(x: real): (k: int)
    ensures x >= 0.0 ==> 0 <= k && k as real <= x < k as real + 1.0
    ensures x < 0.0 ==> k <= 0 && k as real - 1.0 < x <= k as real
  {
    if x >= 0.0 then x.Floor else -((-x).Floor)
  }

  /** `int(value)`; None stands for the TypeError or ValueError it raises. */
  function PyInt(v: Value): (r: Option<int>)
    ensures v.JInt? ==> r == Some(v.i)
    ensures v.JNull? || v.JList? || v.JObject? ==> r.None?
  {
    match v
    case JBool(b) => Some(if b then 1 else 0)
    case JInt(i) => Some(i)
    case JNum(x) => Some(Trunc(x))
    case JStr(s) => ParseInt(s)
    case _ => None
  }

  /** `float(value)`. Converting text follows Python's float grammar (exponents, "inf",
      "nan"), which belongs to floating point and is received as `floatOfString`. */
  function PyFloat(floatOfString: string -> Option<real>, v: Value): (r: Option<real>)
    ensures v.JNum? ==> r == Some(v.r)
    ensures v.JInt? ==> r == Some(v.i as real)
    ensures v.JNull? || v.JList? || v.JObject? ==> r.None?
  {
    match v
    case JBool(b) => Some(if b then 1.0 else 0.0)
    case JInt(i) => Some(i as real)
    case JNum(x) => Some(x)
    case JStr(s) => floatOfString(s)
    case _ => None
  }
}
