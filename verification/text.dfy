/** The JavaScript string operations the price cards use: `Number.prototype.toString`
    on an integer, `String.prototype.padStart`, `String.prototype.split` with a
    non-empty separator, and the "HH:00" hour label built from them. */
module Text {
  import opened Wrappers

  predicate IsDigit(c: char) {
    '0' <= c <= '9'
  }

  function DigitChar(d: nat): (c: char)
    requires d < 10
    ensures IsDigit(c)
    ensures DigitValue(c) == d
  {
    (('0' as int) + d) as char
  }

  function DigitValue(c: char): nat
    requires IsDigit(c)
  {
    (c as int) - ('0' as int)
  }

  /** The number a string of decimal digits denotes, most significant digit first. */
  function DecimalValue(s: string): nat
    requires forall i :: 0 <= i < |s| ==> IsDigit(s[i])
    decreases |s|
  {
    if |s| == 0 then 0 else 10 * DecimalValue(s[..|s| - 1]) + DigitValue(s[|s| - 1])
  }

  /** Decimal rendering of a natural number, most significant digit first and
      without leading zeros. */
  function NatToString(n: nat): (r: string)
    ensures 1 <= |r|
    ensures forall i :: 0 <= i < |r| ==> IsDigit(r[i])
    ensures n < 10 <==> |r| == 1
    ensures r[0] == '0' ==> n == 0
    decreases n
  {
    if n < 10 then [DigitChar(n)] else NatToString(n / 10) + [DigitChar(n % 10)]
  }

  /** The digits `NatToString` writes denote the number it was given. */
  lemma {:induction false} NatToStringValue(n: nat)
    ensures DecimalValue(NatToString(n)) == n
    decreases n
  {
    if 10 <= n {
      var front := NatToString(n / 10);
      var r := NatToString(n);
      NatToStringValue(n / 10);
      assert r[..|r| - 1] == front;
      assert r[|r| - 1] == DigitChar(n % 10);
    }
  }

  /** `Number.prototype.toString()` for an integer of magnitude below 10^21: a
      minus sign for negatives, then the decimal digits of the magnitude. */
  function IntToString(i: int): (r: string)
    ensures 1 <= |r|
    ensures ' ' !in r && ':' !in r
    ensures 0 <= i ==> forall k :: 0 <= k < |r| ==> IsDigit(r[k])
    ensures i < 0 ==> forall k :: 1 <= k < |r| ==> IsDigit(r[k])
    ensures i < 0 <==> r[0] == '-'
  {
    if i < 0 then "-" + NatToString(-i) else NatToString(i)
  }

  lemma NegativeDigits(i: int)
    requires i < 0
    ensures IntToString(i)[1..] == NatToString(-i)
  {
    var t := NatToString(-i);
    assert IntToString(i) == "-" + t;
  }

  /** `toString` round-trips through the decimal reading: the digits denote the
      number itself, or after the minus sign its magnitude. */
  lemma IntToStringValue(i: int)
    ensures 0 <= i ==> DecimalValue(IntToString(i)) == i
    ensures i < 0 ==> DecimalValue(IntToString(i)[1..]) == -i
  {
    if i < 0 {
      var n: nat := -i;
      NegativeDigits(i);
      NatToStringValue(n);
    } else {
      NatToStringValue(i);
    }
  }

  /** `s.padStart(len, [c])`: `s` unchanged when it is already at least `len`
      long, otherwise `s` preceded by enough copies of `c` to reach `len`. */
  function PadStart(s: string, len: nat, c: char): (r: string)
    ensures |r| == if |s| >= len then |s| else len
    ensures r[|r| - |s|..] == s
    ensures forall k :: 0 <= k < |r| - |s| ==> r[k] == c
  {
    if |s| >= len then s else seq(len - |s|, _ => c) + s
  }

  /** The hour badge of a price card: `hour.toString().padStart(2, '0') + ":00"`. */
  function HourLabel(hour: int): string {
    PadStart(IntToString(hour), 2, '0') + ":00"
  }

  /** Reads back a label of the form "DD:00" as the hour it names; any other
      string is not an hour label. */
  function ParseHourLabel(s: string): (r: Option<nat>)
    ensures r.Some? ==> r.value < 100
  {
    if |s| == 5 && IsDigit(s[0]) && IsDigit(s[1]) && s[2..] == ":00"
    then Some(10 * DigitValue(s[0]) + DigitValue(s[1]))
    else None
  }

  lemma NatToStringBelowHundred(n: nat)
    requires n < 100
    ensures n < 10 ==> NatToString(n) == [DigitChar(n)]
    ensures 10 <= n ==> NatToString(n) == [DigitChar(n / 10), DigitChar(n % 10)]
  {
    if 10 <= n {
      assert NatToString(n / 10) == [DigitChar(n / 10)];
    }
  }

  lemma PadToTwo(s: string)
    requires 1 <= |s| <= 2
    ensures |s| == 1 ==> PadStart(s, 2, '0') == ['0'] + s
    ensures |s| == 2 ==> PadStart(s, 2, '0') == s
  {
  }

  /** The two-digit decimal rendering every hour of the day receives. */
  lemma HourLabelDigits(hour: int)
    requires 0 <= hour < 100
    ensures HourLabel(hour) == [DigitChar(hour / 10), DigitChar(hour % 10), ':', '0', '0']
  {
    NatToStringBelowHundred(hour);
    PadToTwo(NatToString(hour));
    if hour < 10 {
      assert DigitChar(hour / 10) == '0';
    }
  }

  lemma ParseTwoDigits(a: nat, b: nat)
    requires a < 10 && b < 10
    ensures ParseHourLabel([DigitChar(a), DigitChar(b), ':', '0', '0']) == Some(10 * a + b)
  {
    var s := [DigitChar(a), DigitChar(b), ':', '0', '0'];
    assert s[2..] == ":00";
  }

  /** Every two-digit hour is labelled with a five-character string that parses
      back to that hour. */
  lemma HourLabelRoundTrip(hour: int)
    requires 0 <= hour < 100
    ensures |HourLabel(hour)| == 5
    ensures ParseHourLabel(HourLabel(hour)) == Some(hour)
  {
    var a, b := hour / 10, hour % 10;
    assert hour == 10 * a + b;
    LabelOfDigits(a, b);
    ParseTwoDigits(a, b);
  }

  /** The label of the hour whose digits are `a` and `b`. */
  lemma LabelOfDigits(a: nat, b: nat)
    requires a < 10 && b < 10
    ensures HourLabel(10 * a + b) == [DigitChar(a), DigitChar(b), ':', '0', '0']
  {
    var h := 10 * a + b;
    TensAndUnits(a, b);
    HourLabelDigits(h);
  }

  lemma TensAndUnits(a: nat, b: nat)
    requires b < 10
    ensures (10 * a + b) / 10 == a && (10 * a + b) % 10 == b
  {
  }

  lemma DigitCharOfValue(c: char)
    requires IsDigit(c)
    ensures DigitChar(DigitValue(c)) == c
  {
  }

  /** A string that parses as an hour label is two digits followed by ":00". */
  lemma LabelShape(s: string)
    requires ParseHourLabel(s).Some?
    ensures s == [DigitChar(DigitValue(s[0])), DigitChar(DigitValue(s[1])), ':', '0', '0']
  {
    DigitCharOfValue(s[0]);
    DigitCharOfValue(s[1]);
    assert s[2] == ':' && s[3] == '0' && s[4] == '0' by {
      assert s[2..][0] == s[2] && s[2..][1] == s[3] && s[2..][2] == s[4];
    }
    assert s == [s[0], s[1], s[2], s[3], s[4]];
  }

  /** Conversely, every string that parses as an hour is exactly that hour's label,
      so two distinct hours never share a badge. */
  lemma ParsedLabelIsCanonical(s: string)
    requires ParseHourLabel(s).Some?
    ensures HourLabel(ParseHourLabel(s).value) == s
  {
    var a, b := DigitValue(s[0]), DigitValue(s[1]);
    assert ParseHourLabel(s).value == 10 * a + b;
    LabelShape(s);
    LabelOfDigits(a, b);
  }

  /** The examples the badge shows: 7 is "07:00" and 13 is "13:00". */
  lemma SevenAndThirteen()
    ensures HourLabel(7) == "07:00"
    ensures HourLabel(13) == "13:00"
  {
    assert ParseHourLabel("07:00") == Some(7);
    ParsedLabelIsCanonical("07:00");
    assert ParseHourLabel("13:00") == Some(13);
    ParsedLabelIsCanonical("13:00");
  }

  /** The label holds no space, so the separator ": " never occurs inside it. */
  lemma HourLabelHasNoSpace(hour: int)
    ensures ' ' !in HourLabel(hour)
  {
    var t := IntToString(hour);
    var p := PadStart(t, 2, '0');
    var pad := |p| - |t|;
    forall k | 0 <= k < |p|
      ensures p[k] != ' '
    {
      if pad <= k {
        assert p[k] == p[pad..][k - pad] == t[k - pad];
        assert t[k - pad] in t;
      }
    }
    assert HourLabel(hour) == p + ":00";
  }

  predicate OccursAt(s: string, sep: string, i: nat) {
    i + |sep| <= |s| && s[i..i + |sep|] == sep
  }

  ghost predicate Free(s: string, sep: string) {
    forall j :: 0 <= j && j + |sep| <= |s| ==> !OccursAt(s, sep, j)
  }

  lemma OccursShift(s: string, sep: string, j: nat)
    requires 1 <= |s| && 1 <= j
    ensures OccursAt(s, sep, j) <==> OccursAt(s[1..], sep, j - 1)
  {
    if j + |sep| <= |s| {
      var t := s[1..];
      var a, b := t[j - 1..j - 1 + |sep|], s[j..j + |sep|];
      assert |a| == |b|;
      assert forall k :: 0 <= k < |sep| ==> a[k] == b[k];
      assert a == b;
    }
  }

  /** `s.indexOf(sep)`: the first position where `sep` occurs, None for -1. */
  function IndexOf(s: string, sep: string): (r: Option<nat>)
    requires |sep| > 0
    ensures r.Some? ==> OccursAt(s, sep, r.value)
    ensures r.Some? ==> forall j :: 0 <= j < r.value ==> !OccursAt(s, sep, j)
    ensures r.None? <==> Free(s, sep)
    decreases |s|
  {
    if |s| < |sep| then None
    else if s[..|sep|] == sep then
      assert s[0..|sep|] == s[..|sep|];
      assert OccursAt(s, sep, 0);
      assert !Free(s, sep);
      Some(0)
    else
      var r := IndexOf(s[1..], sep);
      assert !OccursAt(s, sep, 0) by {
        assert s[0..|sep|] == s[..|sep|];
      }
      IndexOfShift(s, sep, r);
      if r.None? then None else Some(r.value + 1)
  }

  /** The step of `IndexOf` past a non-matching first position. */
  lemma IndexOfShift(s: string, sep: string, r: Option<nat>)
    requires |sep| > 0 && 1 <= |s| && !OccursAt(s, sep, 0)
    requires r.Some? ==> OccursAt(s[1..], sep, r.value)
    requires r.Some? ==> forall j :: 0 <= j < r.value ==> !OccursAt(s[1..], sep, j)
    requires r.None? <==> Free(s[1..], sep)
    ensures r.Some? ==> OccursAt(s, sep, r.value + 1)
    ensures r.Some? ==> forall j :: 0 <= j < r.value + 1 ==> !OccursAt(s, sep, j)
    ensures r.None? <==> Free(s, sep)
  {
    forall j: nat | 1 <= j
      ensures OccursAt(s, sep, j) <==> OccursAt(s[1..], sep, j - 1)
    {
      OccursShift(s, sep, j);
    }
    if r.Some? {
      assert OccursAt(s, sep, r.value + 1);
    } else {
      forall j | 0 <= j && j + |sep| <= |s|
        ensures !OccursAt(s, sep, j)
      {
        if j >= 1 {
          assert !OccursAt(s[1..], sep, j - 1);
        }
      }
    }
    if Free(s, sep) {
      forall j | 0 <= j && j + |sep| <= |s[1..]|
        ensures !OccursAt(s[1..], sep, j)
      {
        assert !OccursAt(s, sep, j + 1);
      }
    }
  }

  /** `s.split(sep)` for a non-empty separator: the pieces between successive
      non-overlapping occurrences of `sep`, scanning left to right. */
  function Split(s: string, sep: string): (r: seq<string>)
    requires |sep| > 0
    ensures 1 <= |r|
    ensures |r[0]| <= |s| && r[0] == s[..|r[0]|]
    decreases |s|
  {
    match IndexOf(s, sep)
    case None => [s]
    case Some(i) => [s[..i]] + Split(s[i + |sep|..], sep)
  }

  /** `parts.join(sep)`, the inverse of `Split`. */
  function Join(parts: seq<string>, sep: string): (r: string)
    requires 1 <= |parts|
    ensures |parts[0]| <= |r| && r[..|parts[0]|] == parts[0]
  {
    if |parts| == 1 then parts[0] else parts[0] + sep + Join(parts[1..], sep)
  }

  /** `split` leaves a string whole exactly when the separator does not occur in it. */
  lemma SplitWholeIffFree(s: string, sep: string)
    requires |sep| > 0
    ensures |Split(s, sep)| == 1 <==> Free(s, sep)
    ensures Free(s, sep) ==> Split(s, sep) == [s]
  {
    var r := IndexOf(s, sep);
    if r.Some? {
      var i := r.value;
      assert !Free(s, sep) by {
        assert OccursAt(s, sep, i);
      }
      var parts := Split(s, sep);
      assert parts == [s[..i]] + Split(s[i + |sep|..], sep);
      assert |parts| != 1;
    } else {
      assert Split(s, sep) == [s];
    }
  }

  /** The piece before the first occurrence of the separator holds no occurrence. */
  lemma PrefixBeforeFirst(s: string, sep: string, i: nat)
    requires |sep| > 0
    requires IndexOf(s, sep) == Some(i)
    ensures Free(s[..i], sep)
  {
    forall j | 0 <= j
      ensures !OccursAt(s[..i], sep, j)
    {
      if j + |sep| <= i {
        assert !OccursAt(s, sep, j);
        assert s[..i][j..j + |sep|] == s[j..j + |sep|];
      }
    }
  }

  /** Splitting loses nothing: joining the pieces back with the separator gives
      the original string. */
  lemma {:induction false} SplitJoin(s: string, sep: string)
    requires |sep| > 0
    ensures Join(Split(s, sep), sep) == s
    decreases |s|
  {
    match IndexOf(s, sep)
    case None =>
    case Some(i) =>
      var rest := s[i + |sep|..];
      var tail := Split(rest, sep);
      SplitJoin(rest, sep);
      var parts := Split(s, sep);
      assert parts == [s[..i]] + tail;
      assert parts[1..] == tail;
      assert Join(parts, sep) == s[..i] + sep + Join(tail, sep);
      assert s[i..i + |sep|] == sep;
      assert s == s[..i] + s[i..i + |sep|] + rest;
  }

  /** No piece of a split contains the separator. */
  lemma {:induction false} SplitPiecesAreClean(s: string, sep: string)
    requires |sep| > 0
    ensures forall k :: 0 <= k < |Split(s, sep)| ==> Free(Split(s, sep)[k], sep)
    decreases |s|
  {
    match IndexOf(s, sep)
    case None =>
    case Some(i) =>
      var rest := s[i + |sep|..];
      SplitPiecesAreClean(rest, sep);
      PrefixBeforeFirst(s, sep, i);
      var parts := Split(s, sep);
      assert parts == [s[..i]] + Split(rest, sep);
  }

  /** A caption followed by ": " and a text without spaces splits into exactly
      the caption and the text. */
  lemma {:induction false} SplitCaption(caption: string, text: string)
    requires ':' !in caption
    requires ' ' !in text
    ensures Split(caption + ": " + text, ": ") == [caption, text]
  {
    var s := caption + ": " + text;
    forall j | 0 <= j < |caption|
      ensures !OccursAt(s, ": ", j)
    {
      assert s[j] == caption[j];
    }
    assert OccursAt(s, ": ", |caption|);
    assert IndexOf(s, ": ") == Some(|caption|);
    assert s[|caption| + 2..] == text;
    forall j | 0 <= j
      ensures !OccursAt(text, ": ", j)
    {
      if j + 2 <= |text| {
        assert text[j + 1] in text;
        assert text[j..j + 2][1] == text[j + 1];
      }
    }
    assert s[..|caption|] == caption;
  }
}
