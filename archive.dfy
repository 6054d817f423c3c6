/**
 Report naming and archiving paths (conftest.py, `pytest_configure` and
 `pytest_sessionfinish`): the `%Y%m%dT%H%M%S` timestamp that prefixes a
 default report name, the default name itself, and the object-store key
 `YYYY/MM/DD/<htmlpath>` under which a report is archived.
 */
module Archive {
  import opened Decimal

  /** A `datetime.datetime` value, down to the second. */
  datatype DateTime = DateTime(year: nat, month: nat, day: nat, hour: nat, minute: nat, second: nat)

  /** The ranges `datetime` enforces (the length of each month is not modelled). */
  predicate ValidDateTime(t: DateTime) {
    1 <= t.year <= 9999 && 1 <= t.month <= 12 && 1 <= t.day <= 31 &&
    t.hour < 24 && t.minute < 60 && t.second < 60
  }

  predicate SameDate(a: DateTime, b: DateTime) {
    a.year == b.year && a.month == b.month && a.day == b.day
  }

  /** `s[i..j]` is a digit string denoting `v`. */
  predicate FieldIs(s: string, i: nat, j: nat, v: nat) {
    i <= j <= |s| && AllDigits(s[i..j]) && Value(s[i..j]) == v
  }

  /** `now.strftime("%Y%m%dT%H%M%S")`: fifteen characters, 'T' at index 8,
      every field readable back from its fixed position. */
  function Timestamp(t: DateTime): (ts: string)
    requires ValidDateTime(t)
    ensures |ts| == 15 && ts[8] == 'T'
    ensures FieldIs(ts, 0, 4, t.year) && FieldIs(ts, 4, 6, t.month) && FieldIs(ts, 6, 8, t.day)
    ensures FieldIs(ts, 9, 11, t.hour) && FieldIs(ts, 11, 13, t.minute) && FieldIs(ts, 13, 15, t.second)
  {
    assert Pow10(2) == 100 && Pow10(4) == 10000;
    var y, mo, d := ZeroPad(t.year, 4), ZeroPad(t.month, 2), ZeroPad(t.day, 2);
    var h, mi, s := ZeroPad(t.hour, 2), ZeroPad(t.minute, 2), ZeroPad(t.second, 2);
    TimestampSlices(y, mo, d, h, mi, s);
    y + mo + d + "T" + h + mi + s
  }

  /** Where each field of `%Y%m%dT%H%M%S` sits, whatever its digits. */
  lemma TimestampSlices(y: string, mo: string, d: string, h: string, mi: string, s: string)
    requires |y| == 4 && |mo| == 2 && |d| == 2 && |h| == 2 && |mi| == 2 && |s| == 2
    ensures var ts := y + mo + d + "T" + h + mi + s;
      |ts| == 15 && ts[8] == 'T' &&
      ts[0..4] == y && ts[4..6] == mo && ts[6..8] == d &&
      ts[9..11] == h && ts[11..13] == mi && ts[13..15] == s
  {
  }

  /** Distinct instants (to the second) give distinct timestamps. */
  lemma TimestampInjective(a: DateTime, b: DateTime)
    requires ValidDateTime(a) && ValidDateTime(b)
    ensures Timestamp(a) == Timestamp(b) <==> a == b
  {
  }

  /** `f'{timestamp}_{filename}.html'`, the report name chosen when none is given. */
  function DefaultReportName(t: DateTime, filename: string): (name: string)
    requires ValidDateTime(t)
    ensures |name| == 21 + |filename|
    ensures name[..15] == Timestamp(t) && name[15] == '_'
    ensures name[16..|name| - 5] == filename && name[|name| - 5..] == ".html"
  {
    var name := Timestamp(t) + "_" + filename + ".html";
    assert name[16..|name| - 5] == filename;
    name
  }

  /** `f'{year:04}/{month:02}/{day:02}/{htmlpath}'`: the whole `htmlpath`,
      directories included, follows the date. */
  function ArchiveKey(t: DateTime, htmlpath: string): string {
    ZeroPad(t.year, 4) + "/" + ZeroPad(t.month, 2) + "/" + ZeroPad(t.day, 2) + "/" + htmlpath
  }

  /** For a valid date the three fields of an archive key sit at fixed
      positions and read back as the date; the rest is `htmlpath` verbatim. */
  lemma ArchiveKeyLayout(t: DateTime, htmlpath: string)
    requires ValidDateTime(t)
    ensures var key := ArchiveKey(t, htmlpath);
      |key| == 11 + |htmlpath| && key[11..] == htmlpath &&
      key[4] == '/' && key[7] == '/' && key[10] == '/' &&
      FieldIs(key, 0, 4, t.year) && FieldIs(key, 5, 7, t.month) && FieldIs(key, 8, 10, t.day)
  {
    assert Pow10(2) == 100 && Pow10(4) == 10000;
    var y, m, d := ZeroPad(t.year, 4), ZeroPad(t.month, 2), ZeroPad(t.day, 2);
    KeySlices(y, m, d, htmlpath);
  }

  /** Where each part of `YYYY/MM/DD/<path>` sits, whatever its digits. */
  lemma KeySlices(y: string, m: string, d: string, p: string)
    requires |y| == 4 && |m| == 2 && |d| == 2
    ensures var key := y + "/" + m + "/" + d + "/" + p;
      |key| == 11 + |p| && key[4] == '/' && key[7] == '/' && key[10] == '/' &&
      key[0..4] == y && key[5..7] == m && key[8..10] == d && key[11..] == p
  {
  }

  /** Two reports share an archive key exactly when they were archived on the
      same date under the same local path. */
  lemma ArchiveKeyInjective(a: DateTime, p: string, b: DateTime, q: string)
    requires ValidDateTime(a) && ValidDateTime(b)
    ensures ArchiveKey(a, p) == ArchiveKey(b, q) <==> SameDate(a, b) && p == q
  {
    var ka, kb := ArchiveKey(a, p), ArchiveKey(b, q);
    ArchiveKeyLayout(a, p);
    ArchiveKeyLayout(b, q);
    if ka == kb {
      assert ka[..4] == kb[..4] && ka[5..7] == kb[5..7] && ka[8..10] == kb[8..10];
    }
  }

  /** The archive key of a default-named report carries two dates: the folder
      from `clock` (the instant `pytest_configure` captures) and the name from
      `importTime` (the instant the plugin was imported). */
  lemma DefaultNameKeyFields(importTime: DateTime, clock: DateTime, filename: string)
    requires ValidDateTime(importTime) && ValidDateTime(clock)
    ensures var key := ArchiveKey(clock, DefaultReportName(importTime, filename));
      FieldIs(key, 0, 4, clock.year) && FieldIs(key, 5, 7, clock.month) && FieldIs(key, 8, 10, clock.day) &&
      FieldIs(key, 11, 15, importTime.year) && FieldIs(key, 15, 17, importTime.month) &&
      FieldIs(key, 17, 19, importTime.day)
  {
    var name := DefaultReportName(importTime, filename);
    var key := ArchiveKey(clock, name);
    var ts := Timestamp(importTime);
    ArchiveKeyLayout(clock, name);
    DateInName(key, name, ts, importTime);
  }

  /** The date fields of a timestamp that opens the name at index 11 of a key. */
  lemma DateInName(key: string, name: string, ts: string, t: DateTime)
    requires |key| >= 11 && key[11..] == name && |name| >= 15 && name[..15] == ts && |ts| == 15
    requires FieldIs(ts, 0, 4, t.year) && FieldIs(ts, 4, 6, t.month) && FieldIs(ts, 6, 8, t.day)
    ensures FieldIs(key, 11, 15, t.year) && FieldIs(key, 15, 17, t.month) && FieldIs(key, 17, 19, t.day)
  {
    assert key[11..11 + |name|] == name;
    assert name[0..0 + |ts|] == ts;
    FieldWithin(name, 0, ts, 0, 4, t.year);
    FieldWithin(name, 0, ts, 4, 6, t.month);
    FieldWithin(name, 0, ts, 6, 8, t.day);
    FieldWithin(key, 11, name, 0, 4, t.year);
    FieldWithin(key, 11, name, 4, 6, t.month);
    FieldWithin(key, 11, name, 6, 8, t.day);
  }

  /** A field of a string that sits at index `k` of `s` is a field of `s`. */
  lemma FieldWithin(s: string, k: nat, t: string, i: nat, j: nat, v: nat)
    requires k + |t| <= |s| && s[k..k + |t|] == t && FieldIs(t, i, j, v)
    ensures FieldIs(s, k + i, k + j, v)
  {
    SliceWithin(s, k, t, i, j);
  }

  /** A slice of a string that sits at index `k` of `s` is the matching slice of `s`. */
  lemma SliceWithin(s: string, k: nat, t: string, a: nat, b: nat)
    requires k + |t| <= |s| && s[k..k + |t|] == t && a <= b <= |t|
    ensures s[k + a..k + b] == t[a..b]
  {
    forall i | 0 <= i < b - a ensures s[k + a..k + b][i] == t[a..b][i] {
      assert s[k + a + i] == s[k..k + |t|][a + i];
    }
  }

  /** The folder date and the date in the name agree exactly when the import
      and the configuration happened on the same date. */
  lemma DefaultNameArchiveDates(importTime: DateTime, clock: DateTime, filename: string)
    requires ValidDateTime(importTime) && ValidDateTime(clock)
    ensures var key := ArchiveKey(clock, DefaultReportName(importTime, filename));
      |key| >= 19 &&
      ((key[..4] == key[11..15] && key[5..7] == key[15..17] && key[8..10] == key[17..19])
        <==> SameDate(clock, importTime))
  {
    var key := ArchiveKey(clock, DefaultReportName(importTime, filename));
    ArchiveKeyLayout(clock, DefaultReportName(importTime, filename));
    DefaultNameKeyFields(importTime, clock, filename);
    SameWidthSameValue(key[..4], key[11..15]);
    SameWidthSameValue(key[5..7], key[15..17]);
    SameWidthSameValue(key[8..10], key[17..19]);
  }

  lemma PaddedYear()
    ensures ZeroPad(2024, 4) == "2024"
  {
    assert Digits(2) == "2" && Digits(20) == "20" && Digits(202) == "202" && Digits(2024) == "2024";
  }

  lemma PaddedSmall()
    ensures ZeroPad(1, 2) == "01" && ZeroPad(12, 2) == "12" && ZeroPad(0, 2) == "00"
  {
    assert Digits(1) == "1" && Digits(12) == "12" && Digits(0) == "0";
    assert Zeros(1) == "0";
  }

  /** The worked example: a report named at noon on 1 January 2024 ... */
  lemma TimestampExample()
    ensures Timestamp(DateTime(2024, 1, 1, 12, 0, 0)) == "20240101T120000"
  {
    PaddedYear();
    PaddedSmall();
  }

  /** ... and archived the same day, under the path it was given. */
  lemma ArchiveKeyExample(htmlpath: string)
    ensures ArchiveKey(DateTime(2024, 1, 1, 12, 0, 0), htmlpath) == "2024/01/01/" + htmlpath
  {
    PaddedYear();
    PaddedSmall();
  }

  lemma DefaultReportNameExample()
    ensures DefaultReportName(DateTime(2024, 1, 1, 12, 0, 0), "report") == "20240101T120000_report.html"
  {
    TimestampExample();
  }
}
