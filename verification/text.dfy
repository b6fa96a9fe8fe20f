/** String helpers shared by the two front-end scripts and the backend:
    whitespace trimming, splitting and joining, `truncate`, `extractYear`
    and decimal rendering of integers. */
module Text {
  import opened Wrappers

  /** The code points ECMAScript's `String.prototype.trim` removes
      (WhiteSpace and LineTerminator). */
  predicate IsJsSpace(c: char) {
    c == '\t' || c == '\n' || c == '\U{B}' || c == '\U{C}' || c == '\r' || c == ' '
    || c == '\U{A0}' || c == '\U{1680}' || ('\U{2000}' <= c <= '\U{200A}')
    || c == '\U{2028}' || c == '\U{2029}' || c == '\U{202F}' || c == '\U{205F}'
    || c == '\U{3000}' || c == '\U{FEFF}'
  }

  /** The code points Python's `str.strip()` removes (`str.isspace`). */
  predicate IsPySpace(c: char) {
    ('\t' <= c <= '\r') || ('\U{1C}' <= c <= '\U{1F}') || c == ' ' || c == '\U{85}'
    || c == '\U{A0}' || c == '\U{1680}' || ('\U{2000}' <= c <= '\U{200A}')
    || c == '\U{2028}' || c == '\U{2029}' || c == '\U{202F}' || c == '\U{205F}'
    || c == '\U{3000}'
  }

  function TrimStart(s: string, ws: char -> bool): (r: string)
    ensures |r| <= |s|
  {
    if |s| > 0 && ws(s[0]) then TrimStart(s[1..], ws) else s
  }

  function TrimEnd(s: string, ws: char -> bool): (r: string)
    ensures |r| <= |s|
  {
    if |s| > 0 && ws(s[|s| - 1]) then TrimEnd(s[..|s| - 1], ws) else s
  }

  /** Removes leading and trailing characters satisfying `ws`. */
  function Trim(s: string, ws: char -> bool): string {
    TrimEnd(TrimStart(s, ws), ws)
  }

  /** `TrimStart` drops a blank prefix and stops at the first non-blank character. */
  lemma {:induction false} TrimStartShape(s: string, ws: char -> bool)
    ensures var r := TrimStart(s, ws);
      && r == s[|s| - |r|..]
      && (r == [] || !ws(r[0]))
      && forall k :: 0 <= k < |s| - |r| ==> ws(s[k])
  {
    if |s| > 0 && ws(s[0]) {
      TrimStartShape(s[1..], ws);
      var r := TrimStart(s, ws);
      forall k | 0 < k < |s| - |r| ensures ws(s[k]) {
        assert s[k] == s[1..][k - 1];
      }
    }
  }

  /** `TrimEnd` drops a blank suffix and stops at the last non-blank character. */
  lemma {:induction false} TrimEndShape(s: string, ws: char -> bool)
    ensures var r := TrimEnd(s, ws);
      && r == s[..|r|]
      && (r == [] || !ws(r[|r| - 1]))
      && forall k :: |r| <= k < |s| ==> ws(s[k])
  {
    if |s| > 0 && ws(s[|s| - 1]) {
      var s' := s[..|s| - 1];
      TrimEndShape(s', ws);
      var r := TrimEnd(s, ws);
      assert r == s'[..|r|];
      forall k | |r| <= k < |s| - 1 ensures ws(s[k]) {
        assert s[k] == s'[k];
      }
    }
  }

  /** How many characters `Trim` removes from the front. */
  function LeadingBlanks(s: string, ws: char -> bool): nat
    requires |TrimStart(s, ws)| <= |s|
  {
    |s| - |TrimStart(s, ws)|
  }

  /** `Trim` keeps a contiguous slice of its input, whose ends are not blank,
      and drops only blank characters. */
  lemma TrimShape(s: string, ws: char -> bool)
    ensures var r := Trim(s, ws);
      var i := LeadingBlanks(s, ws);
      && i + |r| <= |s|
      && r == s[i..i + |r|]
      && (forall k :: 0 <= k < i ==> ws(s[k]))
      && (forall k :: i + |r| <= k < |s| ==> ws(s[k]))
      && (r == [] || (!ws(r[0]) && !ws(r[|r| - 1])))
  {
    var t := TrimStart(s, ws);
    TrimStartShape(s, ws);
    TrimEndShape(t, ws);
    var r := TrimEnd(t, ws);
    var i := |s| - |t|;
    assert i == LeadingBlanks(s, ws);
    assert t == s[i..];
    assert r == t[..|r|];
    assert r == s[i..i + |r|];
    forall k | 0 <= k < i ensures ws(s[k]) {
    }
    forall k | i + |r| <= k < |s| ensures ws(s[k]) {
      assert s[k] == t[k - i];
    }
    assert r == [] || (!ws(r[0]) && !ws(r[|r| - 1])) by {
      if r != [] {
        assert r[0] == t[0];
      }
    }
  }

  /** A string trims to nothing exactly when every character is blank. */
  lemma TrimEmptyIff(s: string, ws: char -> bool)
    ensures Trim(s, ws) == [] <==> forall k :: 0 <= k < |s| ==> ws(s[k])
  {
    TrimShape(s, ws);
    var t := TrimStart(s, ws);
    TrimStartShape(s, ws);
    assert t != [] ==> t[0] == s[|s| - |t|];
  }

  /** `s.split(sep)` for a one-character separator: the pieces between
      separators, empty pieces included, so there is always at least one. */
  function Split(s: string, sep: char): (parts: seq<string>)
    ensures |parts| >= 1
    ensures forall p :: p in parts ==> sep !in p
  {
    if s == [] then [""]
    else
      var rest := Split(s[1..], sep);
      if s[0] == sep then [""] + rest
      else [[s[0]] + rest[0]] + rest[1..]
  }

  /** `parts.join(sep)`. */
  function Join(parts: seq<string>, sep: string): string {
    if |parts| == 0 then ""
    else if |parts| == 1 then parts[0]
    else parts[0] + sep + Join(parts[1..], sep)
  }

  /** Splitting on a character and joining with it again gives back the input. */
  lemma {:induction false} JoinSplit(s: string, sep: char)
    ensures Join(Split(s, sep), [sep]) == s
  {
    if s != [] {
      var rest := Split(s[1..], sep);
      JoinSplit(s[1..], sep);
      if s[0] == sep {
        assert Split(s, sep) == [""] + rest;
        assert Join([""] + rest, [sep]) == "" + [sep] + Join(rest, [sep]);
        assert s == [s[0]] + s[1..];
      } else {
        var parts := [[s[0]] + rest[0]] + rest[1..];
        assert Split(s, sep) == parts;
        if |rest| == 1 {
          assert Join(parts, [sep]) == [s[0]] + rest[0];
        } else {
          assert parts[1..] == rest[1..];
          assert Join(rest, [sep]) == rest[0] + [sep] + Join(rest[1..], [sep]);
          assert Join(parts, [sep]) == [s[0]] + rest[0] + [sep] + Join(rest[1..], [sep]);
        }
        assert s == [s[0]] + s[1..];
      }
    }
  }

  /** `truncate(str, maxLength)`: an empty string stays empty, a string of at
      most `maxLength` characters is returned as it is, a longer one is cut to
      its first `maxLength` characters followed by an ellipsis. */
  function Truncate(s: string, maxLength: nat): (r: string)
    ensures |s| <= maxLength ==> r == s
    ensures |s| > maxLength ==> |r| == maxLength + 1 && r[maxLength] == '…'
    ensures |r| <= maxLength + 1
    ensures var keep := if |s| <= maxLength then |s| else maxLength;
      keep <= |r| && r[..keep] == s[..keep]
  {
    if s == "" then ""
    else if |s| > maxLength then s[..maxLength] + "…"
    else s
  }

  /** Truncating an already truncated string changes nothing. */
  lemma TruncateIdempotent(s: string, maxLength: nat)
    ensures Truncate(Truncate(s, maxLength), maxLength) == Truncate(s, maxLength)
  {
    var r := Truncate(s, maxLength);
    if |s| > maxLength {
      assert r[..maxLength] == s[..maxLength];
    }
  }

  predicate IsDigit(c: char) {
    '0' <= c <= '9'
  }

  function DigitValue(c: char): nat
    requires IsDigit(c)
  {
    (c as int - '0' as int) as nat
  }

  /** `/\d{4}/` matches at position `i`. */
  predicate YearAt(s: string, i: nat) {
    i + 4 <= |s| && IsDigit(s[i]) && IsDigit(s[i + 1]) && IsDigit(s[i + 2]) && IsDigit(s[i + 3])
  }

  /** `parseInt` of the four digits at `i`. */
  function YearValueAt(s: string, i: nat): (y: nat)
    requires YearAt(s, i)
    ensures y <= 9999
  {
    1000 * DigitValue(s[i]) + 100 * DigitValue(s[i + 1]) + 10 * DigitValue(s[i + 2]) + DigitValue(s[i + 3])
  }

  /** The leftmost position at or after `from` where four digits start. */
  function FirstYearAt(s: string, from: nat): (r: Option<nat>)
    ensures r.Some? ==>
      from <= r.value && YearAt(s, r.value) && forall j :: from <= j < r.value ==> !YearAt(s, j)
    ensures r.None? ==> forall j :: from <= j ==> !YearAt(s, j)
    decreases |s| - from
  {
    if from + 4 > |s| then None
    else if YearAt(s, from) then Some(from)
    else FirstYearAt(s, from + 1)
  }

  /** `extractYear(dateStr)`: `null` for a missing or empty string or when no
      four-digit run occurs, else the value of the leftmost four-digit run. */
  function ExtractYear(dateStr: Option<string>): (r: Option<nat>)
    ensures r.Some? <==> dateStr.Some? && exists i: nat :: YearAt(dateStr.value, i)
    ensures r.Some? ==> r.value <= 9999
    ensures r.Some? ==>
      exists i: nat :: (YearAt(dateStr.value, i) && r.value == YearValueAt(dateStr.value, i)
        && forall j: nat :: j < i ==> !YearAt(dateStr.value, j))
  {
    match dateStr
    case None => None
    case Some(s) =>
      if s == "" then None
      else match FirstYearAt(s, 0)
        case None => None
        case Some(i) => Some(YearValueAt(s, i))
  }

  /** Decimal digits of a natural number, most significant first. */
  function NatToString(n: nat): (r: string)
    ensures |r| >= 1 && forall k :: 0 <= k < |r| ==> IsDigit(r[k])
    decreases n
  {
    var d := ['0' + (n % 10) as char];
    if n < 10 then d else NatToString(n / 10) + d
  }

  /** A JavaScript integer rendered by string interpolation. */
  function IntToString(n: int): string {
    if n < 0 then "-" + NatToString(-n) else NatToString(n)
  }

  /** The value of a non-empty run of decimal digits. */
  function DigitsValue(s: string): nat
    requires forall k :: 0 <= k < |s| ==> IsDigit(s[k])
  {
    if s == [] then 0 else 10 * DigitsValue(s[..|s| - 1]) + DigitValue(s[|s| - 1])
  }

  /** Rendering a natural number and reading its digits back gives the number. */
  lemma {:induction false} NatToStringRoundTrip(n: nat)
    ensures DigitsValue(NatToString(n)) == n
    decreases n
  {
    var r := NatToString(n);
    if n >= 10 {
      NatToStringRoundTrip(n / 10);
      assert r[..|r| - 1] == NatToString(n / 10);
    }
  }
}
