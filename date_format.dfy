/** The "DD/MM/YY HH:mm" formatter written identically as `formatDate` in
    frontend/src/pages/Commandes.jsx and `formatDateWestern` in
    frontend/src/pages/achat.jsx.  It works on the calendar components a
    JavaScript `Date` reports in local time (`getDate`, `getMonth`,
    `getFullYear`, `getHours`, `getMinutes`); turning a time stamp into
    those components is not part of this model. */
module DateFormat {
  import opened Text

  /** `month` is zero-based, as `getMonth()` returns it. */
  datatype DateParts = DateParts(year: nat, month: nat, day: nat, hours: nat, minutes: nat)

  predicate ValidParts(d: DateParts) {
    d.month < 12 && 1 <= d.day <= 31 && d.hours < 24 && d.minutes < 60
  }

  /** `String(n).slice(-2)`: the last two characters, or the whole string
      when it is shorter. */
  function LastTwo(s: string): (r: string)
    ensures |r| == if |s| >= 2 then 2 else |s|
    ensures r == s[|s| - |r|..]
  {
    if |s| >= 2 then s[|s| - 2..] else s
  }

  /** The template `${day}/${month}/${year} ${hours}:${minutes}`. */
  function Join(dd: string, mm: string, yy: string, hh: string, mi: string): string {
    dd + "/" + mm + "/" + yy + " " + hh + ":" + mi
  }

  function FormatDate(d: DateParts): string {
    Join(Pad2(d.day), Pad2(d.month + 1), LastTwo(NatToString(d.year)), Pad2(d.hours), Pad2(d.minutes))
  }

  /** The last character of `String(m)` is the digit `m % 10`. */
  lemma LastDigit(m: nat)
    ensures NatToString(m)[|NatToString(m)| - 1] == DigitChar(m % 10)
  {
  }

  lemma TwoDigitsValue(a: char, b: char)
    requires IsDigit(a) && IsDigit(b)
    ensures AllDigits([a, b]) && DigitsValue([a, b]) == 10 * DigitValue(a) + DigitValue(b)
  {
    assert [a, b][..1] == [a] && [a][..0] == [];
    assert DigitsValue([a]) == DigitValue(a);
  }

  lemma Mod100(n: nat)
    ensures 10 * ((n / 10) % 10) + n % 10 == n % 100
  {
    var q, r := n / 10, n % 10;
    assert n == 10 * q + r;
    var q1, q0 := q / 10, q % 10;
    assert q == 10 * q1 + q0;
    assert n == 100 * q1 + (10 * q0 + r);
    assert 0 <= 10 * q0 + r < 100;
  }

  /** The last two digits of a year of two or more digits are its value
      modulo 100. */
  lemma LastTwoDigits(n: nat)
    requires n >= 10
    ensures AllDigits(LastTwo(NatToString(n)))
    ensures DigitsValue(LastTwo(NatToString(n))) == n % 100
  {
    var s := NatToString(n);
    var h := NatToString(n / 10);
    assert s == h + [DigitChar(n % 10)];
    LastDigit(n / 10);
    var a, b := DigitChar((n / 10) % 10), DigitChar(n % 10);
    assert LastTwo(s) == [a, b] by {
      assert s[|s| - 2] == h[|h| - 1];
    }
    TwoDigitsValue(a, b);
    Mod100(n);
  }

  /** A two-character field followed by a separator, at the head of a text. */
  lemma Piece(f: string, c: char, rest: string)
    requires |f| == 2
    ensures var r := f + [c] + rest;
      |r| == 3 + |rest| && r[0] == f[0] && r[1] == f[1] && r[2] == c && r[3..] == rest
  {
    assert (f + [c] + rest)[3..] == rest;
  }

  /** Where the five two-character fields and the separators sit. */
  lemma Layout(dd: string, mm: string, yy: string, hh: string, mi: string)
    requires |dd| == 2 && |mm| == 2 && |yy| == 2 && |hh| == 2 && |mi| == 2
    ensures var r := Join(dd, mm, yy, hh, mi);
      && |r| == 14
      && r[2] == '/' && r[5] == '/' && r[8] == ' ' && r[11] == ':'
      && r[0] == dd[0] && r[1] == dd[1] && r[3] == mm[0] && r[4] == mm[1]
      && r[6] == yy[0] && r[7] == yy[1] && r[9] == hh[0] && r[10] == hh[1]
      && r[12] == mi[0] && r[13] == mi[1]
  {
    var t4 := hh + ":" + mi;
    var t3 := yy + " " + t4;
    var t2 := mm + "/" + t3;
    var r := dd + "/" + t2;
    assert Join(dd, mm, yy, hh, mi) == r;
    Piece(hh, ':', mi);
    Piece(yy, ' ', t4);
    Piece(mm, '/', t3);
    Piece(dd, '/', t2);
  }

  /** The two characters at `start` are digits reading `value`. */
  predicate FieldReads(r: string, start: nat, value: nat) {
    && start + 2 <= |r| && IsDigit(r[start]) && IsDigit(r[start + 1])
    && 10 * DigitValue(r[start]) + DigitValue(r[start + 1]) == value
  }

  lemma TwoCharsRead(s: string)
    requires |s| == 2 && AllDigits(s)
    ensures FieldReads(s, 0, DigitsValue(s))
  {
    TwoDigitsValue(s[0], s[1]);
    assert s == [s[0], s[1]];
  }

  /** The DD/MM/YY HH:mm layout: fourteen characters, the separators at
      fixed places, and the five two-digit fields reading the given values. */
  predicate LaidOut(r: string, day: nat, month: nat, year: nat, hours: nat, minutes: nat) {
    && |r| == 14
    && r[2] == '/' && r[5] == '/' && r[8] == ' ' && r[11] == ':'
    && FieldReads(r, 0, day) && FieldReads(r, 3, month) && FieldReads(r, 6, year)
    && FieldReads(r, 9, hours) && FieldReads(r, 12, minutes)
  }

  /** Each two-digit field of the layout reads back its value. */
  lemma LayoutReads(dd: string, mm: string, yy: string, hh: string, mi: string,
                    a: nat, b: nat, c: nat, e: nat, f: nat)
    requires |dd| == 2 && |mm| == 2 && |yy| == 2 && |hh| == 2 && |mi| == 2
    requires FieldReads(dd, 0, a) && FieldReads(mm, 0, b) && FieldReads(yy, 0, c)
    requires FieldReads(hh, 0, e) && FieldReads(mi, 0, f)
    ensures LaidOut(Join(dd, mm, yy, hh, mi), a, b, c, e, f)
  {
    Layout(dd, mm, yy, hh, mi);
  }

  /** The fields the formatter pads, each two digits reading its value. */
  lemma FieldsRead(d: DateParts)
    requires ValidParts(d) && d.year >= 10
    ensures |Pad2(d.day)| == 2 && FieldReads(Pad2(d.day), 0, d.day)
    ensures |Pad2(d.month + 1)| == 2 && FieldReads(Pad2(d.month + 1), 0, d.month + 1)
    ensures |LastTwo(NatToString(d.year))| == 2 && FieldReads(LastTwo(NatToString(d.year)), 0, d.year % 100)
    ensures |Pad2(d.hours)| == 2 && FieldReads(Pad2(d.hours), 0, d.hours)
    ensures |Pad2(d.minutes)| == 2 && FieldReads(Pad2(d.minutes), 0, d.minutes)
  {
    Pad2Digits(d.day);
    TwoCharsRead(Pad2(d.day));
    Pad2Digits(d.month + 1);
    TwoCharsRead(Pad2(d.month + 1));
    Pad2Digits(d.hours);
    TwoCharsRead(Pad2(d.hours));
    Pad2Digits(d.minutes);
    TwoCharsRead(Pad2(d.minutes));
    LastTwoDigits(d.year);
    TwoCharsRead(LastTwo(NatToString(d.year)));
  }

  /** The formatted text has the fixed layout DD/MM/YY HH:mm: fourteen
      characters, separators at fixed places, and each two-digit field reads
      back as the day, the one-based month, the year modulo 100, the hours
      and the minutes. */
  lemma FormatDateLayout(d: DateParts)
    requires ValidParts(d) && d.year >= 10
    ensures LaidOut(FormatDate(d), d.day, d.month + 1, d.year % 100, d.hours, d.minutes)
  {
    FieldsLaidOut(d);
  }

  lemma FieldsLaidOut(d: DateParts)
    requires ValidParts(d) && d.year >= 10
    ensures LaidOut(Join(Pad2(d.day), Pad2(d.month + 1), LastTwo(NatToString(d.year)), Pad2(d.hours), Pad2(d.minutes)),
                    d.day, d.month + 1, d.year % 100, d.hours, d.minutes)
  {
    FieldsRead(d);
    LayoutReads(Pad2(d.day), Pad2(d.month + 1), LastTwo(NatToString(d.year)), Pad2(d.hours), Pad2(d.minutes),
                d.day, d.month + 1, d.year % 100, d.hours, d.minutes);
  }

  /** Two dates format alike exactly when they agree on day, month, hour,
      minute and the year modulo 100. */
  lemma FormatDateInjective(d: DateParts, e: DateParts)
    requires ValidParts(d) && ValidParts(e) && d.year >= 10 && e.year >= 10
    ensures FormatDate(d) == FormatDate(e) <==>
      d.day == e.day && d.month == e.month && d.hours == e.hours && d.minutes == e.minutes
      && d.year % 100 == e.year % 100
  {
    if FormatDate(d) == FormatDate(e) {
      SameTextSameParts(d, e);
    }
    if d.day == e.day && d.month == e.month && d.hours == e.hours && d.minutes == e.minutes
      && d.year % 100 == e.year % 100
    {
      YearDigitsAgree(d.year, e.year);
      assert FormatDate(d) == FormatDate(e);
    }
  }

  lemma SameTextSameParts(d: DateParts, e: DateParts)
    requires ValidParts(d) && ValidParts(e) && d.year >= 10 && e.year >= 10
    requires FormatDate(d) == FormatDate(e)
    ensures d.day == e.day && d.month == e.month && d.hours == e.hours && d.minutes == e.minutes
    ensures d.year % 100 == e.year % 100
  {
    var r := FormatDate(d);
    FormatDateLayout(d);
    FormatDateLayout(e);
    ReadsOne(r, 0, d.day, e.day);
    ReadsOne(r, 3, d.month + 1, e.month + 1);
    ReadsOne(r, 6, d.year % 100, e.year % 100);
    ReadsOne(r, 9, d.hours, e.hours);
    ReadsOne(r, 12, d.minutes, e.minutes);
  }

  /** A field reads one value only. */
  lemma ReadsOne(r: string, start: nat, a: nat, b: nat)
    requires FieldReads(r, start, a) && FieldReads(r, start, b)
    ensures a == b
  {
  }

  lemma YearDigitsAgree(y: nat, z: nat)
    requires y >= 10 && z >= 10 && y % 100 == z % 100
    ensures LastTwo(NatToString(y)) == LastTwo(NatToString(z))
  {
    LastTwoDigits(y);
    LastTwoDigits(z);
    TwoCharsRead(LastTwo(NatToString(y)));
    TwoCharsRead(LastTwo(NatToString(z)));
    FieldsInjective(LastTwo(NatToString(y)), LastTwo(NatToString(z)), y % 100);
  }

  /** Two two-digit strings reading the same value are equal. */
  lemma FieldsInjective(s: string, t: string, v: nat)
    requires |s| == 2 && |t| == 2 && FieldReads(s, 0, v) && FieldReads(t, 0, v)
    ensures s == t
  {
    assert s == [s[0], s[1]] && t == [t[0], t[1]];
  }
}
