/**
 * String helpers of the timer: the decimal rendering of non-negative
 * integers, `trim` with JavaScript's whitespace set, the `MM:SS` clock text,
 * HTML escaping and the quoting of a CSV field.
 */
module Text {
  import opened Wrappers

  predicate IsDigit(c: char) { '0' <= c <= '9' }

  predicate AllDigits(s: string) { forall i :: 0 <= i < |s| ==> IsDigit(s[i]) }

  function DigitValue(c: char): nat
    requires IsDigit(c)
  {
    c as int - '0' as int
  }

  function DigitChar(d: nat): (c: char)
    requires d < 10
    ensures IsDigit(c) && DigitValue(c) == d
  {
    (48 + d) as char
  }

  /** `String(n)` for a non-negative integer: its decimal digits, no leading zero. */
  function NatToString(n: nat): (s: string)
    ensures 1 <= |s| && AllDigits(s)
    ensures n < 10 ==> |s| == 1
    ensures n < 100 ==> |s| <= 2
  {
    if n < 10 then [DigitChar(n)] else NatToString(n / 10) + [DigitChar(n % 10)]
  }

  /** The number a string of decimal digits denotes (leading zeros allowed). */
  function DigitsValue(s: string): nat
    requires AllDigits(s)
  {
    if s == [] then 0 else DigitsValue(s[..|s| - 1]) * 10 + DigitValue(s[|s| - 1])
  }

  /** Reading the digits back gives the number: the decimal rendering loses nothing. */
  lemma {:induction false} NatToStringRoundTrip(n: nat)
    ensures DigitsValue(NatToString(n)) == n
  {
    if n >= 10 {
      var prefix := NatToString(n / 10);
      var s := prefix + [DigitChar(n % 10)];
      assert s[..|s| - 1] == prefix;
      NatToStringRoundTrip(n / 10);
    } else {
      var s := [DigitChar(n)];
      assert s[..0] == [];
    }
  }

  lemma {:induction false} LeadingZero(s: string)
    requires AllDigits(s)
    ensures AllDigits("0" + s) && DigitsValue("0" + s) == DigitsValue(s)
  {
    var t := "0" + s;
    if s == [] {
      assert t[..0] == [];
    } else {
      assert t[..|t| - 1] == "0" + s[..|s| - 1];
      LeadingZero(s[..|s| - 1]);
    }
  }

  /** `String(x).padStart(2, "0")`. */
  function Pad2(s: string): string
  {
    if |s| == 0 then "00" else if |s| == 1 then "0" + s else s
  }

  lemma Pad2Digits(s: string)
    requires 1 <= |s| && AllDigits(s)
    ensures |Pad2(s)| == if |s| == 1 then 2 else |s|
    ensures AllDigits(Pad2(s)) && DigitsValue(Pad2(s)) == DigitsValue(s)
  {
    if |s| == 1 { LeadingZero(s); }
  }

  /** `formatTime`: minutes and seconds of a non-negative second count, each padded to two digits. */
  function FormatTime(totalSec: int, showSeconds: bool): string
  {
    var safeSec := if totalSec < 0 then 0 else totalSec;
    var minutes := safeSec / 60;
    var seconds := safeSec % 60;
    if showSeconds then Pad2(NatToString(minutes)) + ":" + Pad2(NatToString(seconds))
    else Pad2(NatToString(minutes)) + ":00"
  }

  /**
   * The clock text reads back as the time it shows: the digits before the last
   * colon are the whole minutes, the two after it the remaining seconds (or 00),
   * and below 100 minutes the text is exactly `MM:SS`.
   */
  lemma FormatTimeReadsBack(totalSec: int, showSeconds: bool)
    ensures var r := FormatTime(totalSec, showSeconds);
            var safeSec := if totalSec < 0 then 0 else totalSec;
            |r| >= 5 && r[|r| - 3] == ':' &&
            AllDigits(r[..|r| - 3]) && AllDigits(r[|r| - 2..]) &&
            DigitsValue(r[..|r| - 3]) == safeSec / 60 &&
            DigitsValue(r[|r| - 2..]) == (if showSeconds then safeSec % 60 else 0) &&
            (safeSec < 6000 ==> |r| == 5)
  {
    var safeSec := if totalSec < 0 then 0 else totalSec;
    var minutes, seconds := safeSec / 60, safeSec % 60;
    MinutesBelowHundred(safeSec);
    var mm := Pad2(NatToString(minutes));
    PaddedField(minutes);
    var ss := if showSeconds then Pad2(NatToString(seconds)) else "00";
    if showSeconds {
      PaddedField(seconds);
    } else {
      DoubleZero();
    }
    assert FormatTime(totalSec, showSeconds) == mm + ":" + ss;
    ClockTextParts(mm, ss);
  }

  lemma MinutesBelowHundred(sec: nat)
    ensures sec < 6000 ==> sec / 60 < 100
    ensures sec % 60 < 60
  {
  }

  /** A number in decimal, padded to two digits, reads back as the number. */
  lemma PaddedField(n: nat)
    ensures var t := Pad2(NatToString(n));
            |t| >= 2 && AllDigits(t) && DigitsValue(t) == n && (n < 100 ==> |t| == 2)
  {
    NatToStringRoundTrip(n);
    Pad2Digits(NatToString(n));
  }

  lemma DoubleZero()
    ensures AllDigits("00") && DigitsValue("00") == 0
  {
    LeadingZero("0");
    assert "0"[..0] == [];
  }

  lemma ClockTextParts(mm: string, ss: string)
    requires |ss| == 2
    ensures var r := mm + ":" + ss; |r| == |mm| + 3 && r[|r| - 3] == ':' && r[..|r| - 3] == mm && r[|r| - 2..] == ss
  {
  }

  /** The whitespace `String.prototype.trim` removes: WhiteSpace and LineTerminator of ECMAScript. */
  predicate IsJsSpace(c: char)
  {
    var k := c as int;
    k == 0x09 || k == 0x0A || k == 0x0B || k == 0x0C || k == 0x0D || k == 0x20 || k == 0xA0 ||
    k == 0x1680 || (0x2000 <= k <= 0x200A) || k == 0x2028 || k == 0x2029 || k == 0x202F ||
    k == 0x205F || k == 0x3000 || k == 0xFEFF
  }

  function TrimStart(s: string): (r: string)
    ensures |r| <= |s| && r == s[|s| - |r|..]
    ensures r == [] || !IsJsSpace(r[0])
    ensures forall i :: 0 <= i < |s| - |r| ==> IsJsSpace(s[i])
  {
    if s != [] && IsJsSpace(s[0]) then TrimStart(s[1..]) else s
  }

  function TrimEnd(s: string): (r: string)
    ensures |r| <= |s| && r == s[..|r|]
    ensures r == [] || !IsJsSpace(r[|r| - 1])
    ensures forall i :: |r| <= i < |s| ==> IsJsSpace(s[i])
  {
    if s != [] && IsJsSpace(s[|s| - 1]) then TrimEnd(s[..|s| - 1]) else s
  }

  /** `trim`: blank exactly when every character is whitespace; otherwise no whitespace at either end. */
  function Trim(s: string): (r: string)
    ensures |r| <= |s|
    ensures r == [] <==> forall i :: 0 <= i < |s| ==> IsJsSpace(s[i])
    ensures r != [] ==> !IsJsSpace(r[0]) && !IsJsSpace(r[|r| - 1])
  {
    var t := TrimStart(s);
    var r := TrimEnd(t);
    r
  }

  /**
   * Trimming takes off only a run of whitespace at each end: the result is the
   * slice of the input between them, with no whitespace left at either end.
   */
  lemma TrimRemovesOnlyEndSpace(s: string)
    ensures var r := Trim(s);
            exists i, j :: 0 <= i <= j <= |s| && r == s[i..j] &&
                           (forall k :: 0 <= k < i ==> IsJsSpace(s[k])) && (forall k :: j <= k < |s| ==> IsJsSpace(s[k]))
    ensures Trim(s) != [] ==> !IsJsSpace(Trim(s)[0]) && !IsJsSpace(Trim(s)[|Trim(s)| - 1])
  {
    var t := TrimStart(s);
    var r := TrimEnd(t);
    var i := |s| - |t|;
    var j := i + |r|;
    assert t == s[i..];
    assert r == s[i..j];
    forall k | j <= k < |s|
      ensures IsJsSpace(s[k])
    {
      assert s[k] == t[k - i];
    }
  }

  /** A string with no whitespace at either end is its own trim; so trimming twice is trimming once. */
  lemma TrimOfTrimmed(s: string)
    requires s == [] || (!IsJsSpace(s[0]) && !IsJsSpace(s[|s| - 1]))
    ensures Trim(s) == s
    ensures Trim(Trim(s)) == Trim(s)
  {
    assert TrimStart(s) == s;
  }

  lemma TrimIsIdempotent(s: string)
    ensures Trim(Trim(s)) == Trim(s)
  {
    TrimOfTrimmed(Trim(s));
  }

  /** `text.replaceAll(c, rep)` for a one-character pattern. */
  function ReplaceAll(s: string, c: char, rep: string): (r: string)
    ensures c !in s ==> r == s
  {
    if s == [] then [] else (if s[0] == c then rep else [s[0]]) + ReplaceAll(s[1..], c, rep)
  }

  lemma {:induction false} ReplaceAllAppend(a: string, b: string, c: char, rep: string)
    ensures ReplaceAll(a + b, c, rep) == ReplaceAll(a, c, rep) + ReplaceAll(b, c, rep)
  {
    if a != [] {
      assert (a + b)[1..] == a[1..] + b;
      ReplaceAllAppend(a[1..], b, c, rep);
    } else {
      assert a + b == b;
    }
  }

  /** `escapeHtml`: four successive replaceAll passes, `&` first. */
  function EscapeHtml(text: string): string
  {
    ReplaceAll(ReplaceAll(ReplaceAll(ReplaceAll(text, '&', "&amp;"), '<', "&lt;"), '>', "&gt;"), '"', "&quot;")
  }

  /** The entity a single character becomes. */
  function EscapeChar(c: char): string
  {
    if c == '&' then "&amp;"
    else if c == '<' then "&lt;"
    else if c == '>' then "&gt;"
    else if c == '"' then "&quot;"
    else [c]
  }

  /** Reference definition: every character replaced by its entity in one pass. */
  function EscapeEachChar(s: string): string
  {
    if s == [] then [] else EscapeChar(s[0]) + EscapeEachChar(s[1..])
  }

  lemma EscapeHtmlAppend(a: string, b: string)
    ensures EscapeHtml(a + b) == EscapeHtml(a) + EscapeHtml(b)
  {
    var a1, b1 := ReplaceAll(a, '&', "&amp;"), ReplaceAll(b, '&', "&amp;");
    ReplaceAllAppend(a, b, '&', "&amp;");
    var a2, b2 := ReplaceAll(a1, '<', "&lt;"), ReplaceAll(b1, '<', "&lt;");
    ReplaceAllAppend(a1, b1, '<', "&lt;");
    var a3, b3 := ReplaceAll(a2, '>', "&gt;"), ReplaceAll(b2, '>', "&gt;");
    ReplaceAllAppend(a2, b2, '>', "&gt;");
    ReplaceAllAppend(a3, b3, '"', "&quot;");
  }

  lemma EscapeHtmlSingle(c: char)
    ensures EscapeHtml([c]) == EscapeChar(c)
  {
    assert [c][1..] == [];
  }

  /** The four passes never re-escape one another's output: they equal the one-pass escape. */
  lemma {:induction false} EscapeHtmlIsCharwise(s: string)
    ensures EscapeHtml(s) == EscapeEachChar(s)
  {
    if s != [] {
      assert s == [s[0]] + s[1..];
      EscapeHtmlAppend([s[0]], s[1..]);
      EscapeHtmlSingle(s[0]);
      EscapeHtmlIsCharwise(s[1..]);
    }
  }

  /** Decoding of the four entities `escapeHtml` produces. */
  function UnescapeHtml(s: string): string
    decreases |s|
  {
    if s == [] then []
    else if s[0] == '&' && |s| >= 5 && s[..5] == "&amp;" then "&" + UnescapeHtml(s[5..])
    else if s[0] == '&' && |s| >= 4 && s[..4] == "&lt;" then "<" + UnescapeHtml(s[4..])
    else if s[0] == '&' && |s| >= 4 && s[..4] == "&gt;" then ">" + UnescapeHtml(s[4..])
    else if s[0] == '&' && |s| >= 6 && s[..6] == "&quot;" then "\"" + UnescapeHtml(s[6..])
    else [s[0]] + UnescapeHtml(s[1..])
  }

  lemma UnescapeAfterEntity(c: char, rest: string)
    ensures UnescapeHtml(EscapeChar(c) + rest) == [c] + UnescapeHtml(rest)
  {
    var t := EscapeChar(c) + rest;
    if c == '&' {
      assert t[..5] == "&amp;" && t[5..] == rest;
    } else if c == '<' {
      assert t[1] == 'l';
      assert t[..4] == "&lt;" && t[4..] == rest;
    } else if c == '>' {
      assert t[1] == 'g';
      assert t[..4] == "&gt;" && t[4..] == rest;
    } else if c == '"' {
      assert t[1] == 'q';
      assert t[..6] == "&quot;" && t[6..] == rest;
    } else {
      assert t[0] == c && t[1..] == rest;
    }
  }

  /** Escaping is lossless: the entities decode back to the original text. */
  lemma {:induction false} EscapeHtmlRoundTrip(s: string)
    ensures UnescapeHtml(EscapeHtml(s)) == s
  {
    EscapeHtmlIsCharwise(s);
    EachCharRoundTrip(s);
  }

  lemma {:induction false} EachCharRoundTrip(s: string)
    ensures UnescapeHtml(EscapeEachChar(s)) == s
  {
    if s != [] {
      UnescapeAfterEntity(s[0], EscapeEachChar(s[1..]));
      EachCharRoundTrip(s[1..]);
    }
  }

  /** The escaped text holds no `<`, `>` or `"`: it cannot open a tag or close an attribute value. */
  lemma {:induction false} EscapeHtmlHasNoMarkup(s: string)
    ensures var r := EscapeHtml(s); '<' !in r && '>' !in r && '"' !in r
  {
    EscapeHtmlIsCharwise(s);
    EachCharHasNoMarkup(s);
  }

  lemma {:induction false} EachCharHasNoMarkup(s: string)
    ensures var r := EscapeEachChar(s); '<' !in r && '>' !in r && '"' !in r
  {
    if s != [] {
      EachCharHasNoMarkup(s[1..]);
      var head := EscapeChar(s[0]);
      assert '<' !in head && '>' !in head && '"' !in head;
    }
  }

  /**
   * `csvEscape`: the field wrapped in double quotes with every inner double
   * quote doubled (section 2, rule 7, of RFC 4180); null and undefined become
   * the empty field.
   */
  function CsvEscape(value: Option<string>): (r: string)
    ensures |r| >= 2 && r[0] == '"' && r[|r| - 1] == '"'
  {
    var text := if value.Some? then value.value else "";
    "\"" + ReplaceAll(text, '"', "\"\"") + "\""
  }

  /** Reading a quoted field back: inner quotes must come in pairs. */
  function CsvUnquote(field: string): Option<string>
  {
    if |field| >= 2 && field[0] == '"' && field[|field| - 1] == '"' then Undouble(field[1..|field| - 1])
    else None
  }

  function Undouble(s: string): Option<string>
    decreases |s|
  {
    if s == [] then Some([])
    else if s[0] == '"' then
      if |s| >= 2 && s[1] == '"' then
        match Undouble(s[2..]) { case Some(t) => Some("\"" + t) case None => None }
      else None
    else
      match Undouble(s[1..]) { case Some(t) => Some([s[0]] + t) case None => None }
  }

  lemma {:induction false} UndoubleDoubled(s: string)
    ensures Undouble(ReplaceAll(s, '"', "\"\"")) == Some(s)
  {
    if s != [] {
      var rest := ReplaceAll(s[1..], '"', "\"\"");
      var t := ReplaceAll(s, '"', "\"\"");
      UndoubleDoubled(s[1..]);
      if s[0] == '"' {
        assert t == "\"\"" + rest;
        assert t[2..] == rest;
      } else {
        assert t == [s[0]] + rest;
        assert t[1..] == rest;
      }
      assert s == [s[0]] + s[1..];
    }
  }

  /** A quoted field reads back as the text it quotes. */
  lemma CsvEscapeRoundTrip(text: string)
    ensures CsvUnquote(CsvEscape(Some(text))) == Some(text)
  {
    var inner := ReplaceAll(text, '"', "\"\"");
    var field := CsvEscape(Some(text));
    assert field[1..|field| - 1] == inner;
    UndoubleDoubled(text);
  }
}
