/** Wall-clock times as the booking record stores them: strings checked against the pattern
    `^([01]\d|2[0-3]):?([0-5]\d)$` and compared with JavaScript's string `<`. */
module TimeOfDay {
  import Seqs

  /** JavaScript's `a < b` on strings: lexicographic on character codes, a proper prefix is smaller. */
  predicate Less(a: string, b: string)
    decreases |a|
  {
    if |a| == 0 then |b| > 0
    else if |b| == 0 then false
    else if a[0] != b[0] then a[0] < b[0]
    else Less(a[1..], b[1..])
  }

  /** No string is below itself, so an interval never starts before its own start. */
  lemma {:induction false} LessIrreflexive(a: string)
    ensures !Less(a, a)
    decreases |a|
  {
    if |a| > 0 {
      LessIrreflexive(a[1..]);
    }
  }

  /** The order is a strict order: it never holds both ways. */
  lemma {:induction false} LessAsymmetric(a: string, b: string)
    ensures !(Less(a, b) && Less(b, a))
    decreases |a|
  {
    if |a| > 0 && |b| > 0 && a[0] == b[0] {
      LessAsymmetric(a[1..], b[1..]);
    }
  }

  lemma {:induction false} LessTransitive(a: string, b: string, c: string)
    requires Less(a, b) && Less(b, c)
    ensures Less(a, c)
    decreases |a|
  {
    if |a| > 0 && |b| > 0 && |c| > 0 && a[0] == b[0] && b[0] == c[0] {
      LessTransitive(a[1..], b[1..], c[1..]);
    }
  }

  /** Any two distinct strings are ordered one way or the other. */
  lemma {:induction false} LessTotal(a: string, b: string)
    ensures a == b || Less(a, b) || Less(b, a)
    decreases |a|
  {
    if |a| > 0 && |b| > 0 && a[0] == b[0] {
      LessTotal(a[1..], b[1..]);
      if a[1..] == b[1..] {
        assert a == [a[0]] + a[1..] && b == [b[0]] + b[1..];
      }
    }
  }

  predicate IsDigit(c: char)
  {
    '0' <= c <= '9'
  }

  /** Numeric value of a digit character. */
  function DigitValue(c: char): (d: nat)
    requires IsDigit(c)
    ensures d < 10
  {
    c as int - '0' as int
  }

  /** `[01]\d|2[0-3]` */
  predicate HourDigits(a: char, b: char)
  {
    ((a == '0' || a == '1') && IsDigit(b)) || (a == '2' && '0' <= b <= '3')
  }

  /** `[0-5]\d` */
  predicate MinuteDigits(a: char, b: char)
  {
    '0' <= a <= '5' && IsDigit(b)
  }

  /** The time pattern `^([01]\d|2[0-3]):?([0-5]\d)$` of the booking schema; the colon is optional. */
  predicate ValidTime(s: string)
  {
    || (|s| == 5 && HourDigits(s[0], s[1]) && s[2] == ':' && MinuteDigits(s[3], s[4]))
    || (|s| == 4 && HourDigits(s[0], s[1]) && MinuteDigits(s[2], s[3]))
  }

  /** The "HH:mm" spelling, the only one for which string order is time order. */
  predicate ColonForm(s: string)
  {
    ValidTime(s) && |s| == 5
  }

  function Hour(s: string): (h: nat)
    requires ValidTime(s)
    ensures h < 24
  {
    DigitValue(s[0]) * 10 + DigitValue(s[1])
  }

  function Minute(s: string): (m: nat)
    requires ValidTime(s)
    ensures m < 60
  {
    DigitValue(s[|s| - 2]) * 10 + DigitValue(s[|s| - 1])
  }

  /** Minutes since midnight of an accepted time. */
  function MinuteOfDay(s: string): (t: nat)
    requires ValidTime(s)
    ensures t < 24 * 60
  {
    Hour(s) * 60 + Minute(s)
  }

  /** The zero-padded spelling of hour `h` and minute `m`, with or without the colon. */
  function Format(h: nat, m: nat, colon: bool): (s: string)
    requires h < 24 && m < 60
    ensures |s| == if colon then 5 else 4
  {
    [Seqs.DigitChar(h / 10), Seqs.DigitChar(h % 10)]
      + (if colon then ":" else "")
      + [Seqs.DigitChar(m / 10), Seqs.DigitChar(m % 10)]
  }

  /** Every formatted time is accepted and reads back as the hour and minute it was made from. */
  lemma FormatAccepted(h: nat, m: nat, colon: bool)
    requires h < 24 && m < 60
    ensures ValidTime(Format(h, m, colon))
    ensures Hour(Format(h, m, colon)) == h && Minute(Format(h, m, colon)) == m
    ensures ColonForm(Format(h, m, colon)) <==> colon
  {
    var s := Format(h, m, colon);
    assert h / 10 <= 2;
    assert h / 10 == 2 ==> h % 10 <= 3;
    assert m / 10 <= 5;
  }

  /** Every accepted time is the formatted spelling of its hour and minute. */
  lemma AcceptedIsFormatted(s: string)
    requires ValidTime(s)
    ensures s == Format(Hour(s), Minute(s), |s| == 5)
  {
    var f := Format(Hour(s), Minute(s), |s| == 5);
    assert Hour(s) / 10 == DigitValue(s[0]) && Hour(s) % 10 == DigitValue(s[1]);
    assert Minute(s) / 10 == DigitValue(s[|s| - 2]) && Minute(s) % 10 == DigitValue(s[|s| - 1]);
    assert |f| == |s|;
    forall i | 0 <= i < |s| ensures f[i] == s[i] {
    }
  }

  /** The pattern accepts exactly a two-digit hour 00-23, an optional colon and a two-digit minute 00-59. */
  lemma ValidTimeIff(s: string)
    ensures ValidTime(s) <==> exists h: nat, m: nat, colon: bool :: h < 24 && m < 60 && s == Format(h, m, colon)
  {
    if ValidTime(s) {
      AcceptedIsFormatted(s);
    }
    if exists h: nat, m: nat, colon: bool :: h < 24 && m < 60 && s == Format(h, m, colon) {
      var h: nat, m: nat, colon: bool :| h < 24 && m < 60 && s == Format(h, m, colon);
      FormatAccepted(h, m, colon);
    }
  }

  /** Edge cases of the pattern: no hour 24, no single-digit hour, no minute 60, and the colon may be left out. */
  lemma PatternEdgeCases()
    ensures ValidTime("09:30") && ValidTime("0930") && ValidTime("23:59") && ValidTime("00:00")
    ensures !ValidTime("24:00") && !ValidTime("9:30") && !ValidTime("12:60") && !ValidTime("09:30 ")
  {
  }

  lemma LessHead(a: string, b: string)
    requires |a| > 0 && |b| > 0
    ensures Less(a, b) <==> (a[0] < b[0] || (a[0] == b[0] && Less(a[1..], b[1..])))
  {
  }

  /** Between two "HH:mm" strings, string order is the order of the times they spell. */
  lemma ColonFormOrder(a: string, b: string)
    requires ColonForm(a) && ColonForm(b)
    ensures Less(a, b) <==> MinuteOfDay(a) < MinuteOfDay(b)
  {
    var a1, a2, a3, a4 := DigitValue(a[0]), DigitValue(a[1]), DigitValue(a[3]), DigitValue(a[4]);
    var b1, b2, b3, b4 := DigitValue(b[0]), DigitValue(b[1]), DigitValue(b[3]), DigitValue(b[4]);
    LessHead(a, b);
    LessHead(a[1..], b[1..]);
    LessHead(a[2..], b[2..]);
    LessHead(a[3..], b[3..]);
    LessHead(a[4..], b[4..]);
    assert a[1..][1..] == a[2..] && b[1..][1..] == b[2..];
    assert a[2..][1..] == a[3..] && b[2..][1..] == b[3..];
    assert a[3..][1..] == a[4..] && b[3..][1..] == b[4..];
    assert a[4..][1..] == [] && b[4..][1..] == [];
    assert Less(a, b) <==> (a1 < b1 || (a1 == b1 && (a2 < b2 || (a2 == b2 && (a3 < b3 || (a3 == b3 && a4 < b4))))));
    assert Hour(a) == a1 * 10 + a2 && Hour(b) == b1 * 10 + b2;
    assert Minute(a) == a3 * 10 + a4 && Minute(b) == b3 * 10 + b4;
  }

  /** With the colon left out on one side, string order and time order disagree:
      09:50 is later than 09:45, yet "0950" < "09:45" because '9' sorts before ':'. */
  lemma MixedFormsDisagree()
    ensures ValidTime("0950") && ValidTime("09:45")
    ensures Less("0950", "09:45")
    ensures MinuteOfDay("0950") > MinuteOfDay("09:45")
  {
    assert Less("0950"[2..], "09:45"[2..]);
    assert "0950"[1..] == "950" && "09:45"[1..] == "9:45";
  }
}
