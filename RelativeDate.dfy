/**
 * The age label of a saved scan on the folders screen (`getDate`): how long
 * ago the scan was taken, from the calendar difference between the scan date
 * and now. The calendar computation and the date formatter are outside the
 * model: the label is computed from the year, month and day components (each
 * possibly missing) and from the formatter's text, which is used only when a
 * component is missing.
 */
module RelativeDate {
  import opened Optional
  import opened Strings

  predicate IsDigit(c: char) {
    '0' <= c <= '9'
  }

  predicate AllDigits(s: string) {
    forall i :: 0 <= i < |s| ==> IsDigit(s[i])
  }

  /** Digits as Swift writes an `Int`: at least one, and no leading zero unless the number is 0. */
  predicate Canonical(s: string) {
    |s| > 0 && AllDigits(s) && (|s| > 1 ==> s[0] != '0')
  }

  function DigitChar(d: nat): (c: char)
    requires d < 10
    ensures IsDigit(c) && c as int - '0' as int == d
  {
    (d + '0' as int) as char
  }

  /** Swift's decimal rendering of a non-negative `Int` (`"\(n)"`). */
  function Decimal(n: nat): (s: string)
    ensures Canonical(s)
    ensures n > 0 ==> s[0] != '0'
  {
    if n < 10 then [DigitChar(n)] else Decimal(n / 10) + [DigitChar(n % 10)]
  }

  /** The number a string of decimal digits denotes. */
  function DecimalValue(s: string): nat
    requires AllDigits(s)
  {
    if s == [] then 0 else DecimalValue(s[..|s| - 1]) * 10 + (s[|s| - 1] as int - '0' as int)
  }

  /** Reading back a rendered number gives the number. */
  lemma {:induction false} DecimalRoundTrip(n: nat)
    ensures DecimalValue(Decimal(n)) == n
  {
    if n >= 10 {
      DecimalRoundTrip(n / 10);
      var s := Decimal(n);
      assert s[..|s| - 1] == Decimal(n / 10);
    }
  }

  /** "N unit ago", with the singular word exactly when N is 1. */
  function Ago(n: nat, singular: string, plural: string): string {
    Decimal(n) + (" " + ((if n == 1 then singular else plural) + (" " + "ago")))
  }

  /**
   * `getDate`: the first positive component among years, months and days
   * decides the label; when none is positive the label is "Today"; when a
   * component is missing the formatter's text is used.
   */
  function AgeLabel(years: Option<int>, months: Option<int>, days: Option<int>, formatted: string): string {
    if years.Some? && months.Some? && days.Some? then
      if years.value > 0 then Ago(years.value, "year", "years")
      else if months.value > 0 then Ago(months.value, "month", "months")
      else if days.value > 0 then Ago(days.value, "day", "days")
      else "Today"
    else formatted
  }

  datatype Unit = Year | Month | Day

  /** What a label says: a count of some unit, and whether the plural word was used. */
  datatype Reading = Reading(count: nat, unit: Unit, plural: bool)

  /** The unit named by a word of the label, and whether the word is plural. */
  function UnitWord(w: string): Option<(Unit, bool)> {
    if w == "year" then Some((Year, false))
    else if w == "years" then Some((Year, true))
    else if w == "month" then Some((Month, false))
    else if w == "months" then Some((Month, true))
    else if w == "day" then Some((Day, false))
    else if w == "days" then Some((Day, true))
    else None
  }

  /** Reads an "N unit ago" label back; any other text reads as nothing. */
  function ReadLabel(text: string): Option<Reading> {
    match FirstIndexOf(text, ' ')
    case None => None
    case Some(k) => ReadCount(text[..k], text[k + 1..])
  }

  /** Reads the count `number` and the words after it. */
  function ReadCount(number: string, rest: string): Option<Reading> {
    if !Canonical(number) then None
    else match FirstIndexOf(rest, ' ')
      case None => None
      case Some(w) => ReadUnit(DecimalValue(number), rest[..w], rest[w + 1..])
  }

  /** Reads the unit word and the closing "ago". */
  function ReadUnit(count: nat, word: string, tail: string): Option<Reading> {
    if tail != "ago" then None
    else match UnitWord(word)
      case None => None
      case Some(u) => Some(Reading(count, u.0, u.1))
  }

  /** The word `getDate` writes for a unit, singular or plural. */
  function UnitName(unit: Unit, plural: bool): (w: string)
    ensures UnitWord(w) == Some((unit, plural))
  {
    match unit
    case Year => if plural then "years" else "year"
    case Month => if plural then "months" else "month"
    case Day => if plural then "days" else "day"
  }

  /** The first positive component, in the order years, months, days. */
  function FirstPositive(years: int, months: int, days: int): Option<(nat, Unit)> {
    if years > 0 then Some((years, Year))
    else if months > 0 then Some((months, Month))
    else if days > 0 then Some((days, Day))
    else None
  }

  /** A decimal rendering holds no space. */
  lemma DigitsHaveNoSpace(d: string)
    requires AllDigits(d)
    ensures ' ' !in d
  {
    forall i | 0 <= i < |d| ensures d[i] != ' ' {
      assert IsDigit(d[i]);
    }
  }

  lemma SlicesAroundSpace(head: string, tail: string)
    ensures (head + (" " + tail))[..|head|] == head
    ensures (head + (" " + tail))[|head|] == ' '
    ensures (head + (" " + tail))[|head| + 1..] == tail
  {
  }

  /** The first space of `head + " " + tail` is the one after a space-free `head`. */
  lemma SplitAtFirstSpace(head: string, tail: string)
    requires ' ' !in head
    ensures FirstIndexOf(head + (" " + tail), ' ') == Some(|head|)
    ensures (head + (" " + tail))[..|head|] == head
    ensures (head + (" " + tail))[|head| + 1..] == tail
  {
    SlicesAroundSpace(head, tail);
    FirstIndexAt(head + (" " + tail), ' ', |head|);
  }

  /** A unit word followed by " ago" reads as that unit after the count `d`. */
  lemma ReadWord(d: string, word: string, unit: Unit, plural: bool)
    requires Canonical(d) && ' ' !in word
    requires UnitWord(word) == Some((unit, plural))
    ensures ReadCount(d, word + (" " + "ago")) == Some(Reading(DecimalValue(d), unit, plural))
  {
    SplitAtFirstSpace(word, "ago");
    assert ReadUnit(DecimalValue(d), word, "ago") == Some(Reading(DecimalValue(d), unit, plural));
  }

  /** A number, a unit word and "ago", separated by single spaces, read back as that count and unit. */
  lemma ReadWords(d: string, word: string, unit: Unit, plural: bool)
    requires Canonical(d) && ' ' !in word
    requires UnitWord(word) == Some((unit, plural))
    ensures ReadLabel(d + (" " + (word + (" " + "ago")))) == Some(Reading(DecimalValue(d), unit, plural))
  {
    DigitsHaveNoSpace(d);
    SplitAtFirstSpace(d, word + (" " + "ago"));
    ReadWord(d, word, unit, plural);
  }

  lemma ReadAgo(n: nat, singular: string, plural: string, unit: Unit)
    requires n > 0
    requires UnitWord(singular) == Some((unit, false)) && UnitWord(plural) == Some((unit, true))
    requires ' ' !in singular && ' ' !in plural
    ensures ReadLabel(Ago(n, singular, plural)) == Some(Reading(n, unit, n != 1))
  {
    var word := if n == 1 then singular else plural;
    ReadWords(Decimal(n), word, unit, n != 1);
    DecimalRoundTrip(n);
  }

  /**
   * With all three components present, the label reads back as the count and
   * unit of the first positive component, using the plural word exactly when
   * the count is not 1; when no component is positive it is "Today", which
   * reads as nothing.
   */
  lemma AgeLabelReadsBack(years: int, months: int, days: int, formatted: string)
    ensures ReadLabel(AgeLabel(Some(years), Some(months), Some(days), formatted)) ==
      match FirstPositive(years, months, days)
      case None => None
      case Some(p) => Some(Reading(p.0, p.1, p.0 != 1))
  {
    if years > 0 {
      ReadAgo(years, "year", "years", Year);
    } else if months > 0 {
      ReadAgo(months, "month", "months", Month);
    } else if days > 0 {
      ReadAgo(days, "day", "days", Day);
    } else {
      var r := FirstIndexOf("Today", ' ');
    }
  }

  /** The label is "Today" exactly when no component is positive. */
  lemma TodayExactlyWhenNothingPositive(years: int, months: int, days: int, formatted: string)
    ensures AgeLabel(Some(years), Some(months), Some(days), formatted) == "Today" <==> FirstPositive(years, months, days).None?
  {
    AgeLabelReadsBack(years, months, days, formatted);
    var r := FirstIndexOf("Today", ' ');
  }

  /** A number with a non-zero leading digit is positive. */
  lemma {:induction false} LeadingDigitPositive(x: string)
    requires |x| > 0 && AllDigits(x) && x[0] != '0'
    ensures DecimalValue(x) > 0
    decreases |x|
  {
    if |x| > 1 {
      var init := x[..|x| - 1];
      assert init[0] == x[0];
      LeadingDigitPositive(init);
    }
  }

  /** Digits without a leading zero are the rendering of the number they denote. */
  lemma {:induction false} CanonicalRoundTrip(d: string)
    requires Canonical(d)
    ensures Decimal(DecimalValue(d)) == d
    decreases |d|
  {
    var n := DecimalValue(d);
    var last := d[|d| - 1] as int - '0' as int;
    if |d| > 1 {
      var init := d[..|d| - 1];
      assert init[0] == d[0];
      LeadingDigitPositive(init);
      CanonicalRoundTrip(init);
      var m := DecimalValue(init);
      assert n == m * 10 + last && 0 <= last < 10;
      assert n / 10 == m && n % 10 == last;
      assert d == init + [d[|d| - 1]];
    } else {
      assert d == [d[0]];
    }
  }

  /** Each unit word is the name of the unit and number it reads as. */
  lemma UnitWordNames(w: string)
    requires UnitWord(w).Some?
    ensures w == UnitName(UnitWord(w).value.0, UnitWord(w).value.1)
  {
  }

  /** A text is what lies before a space, the space, and what follows it. */
  lemma AroundSpace(text: string, k: nat)
    requires k < |text| && text[k] == ' '
    ensures text == text[..k] + (" " + text[k + 1..])
  {
  }

  /** The unit reader accepts only a unit's word followed by "ago". */
  lemma ReadUnitOnlyWords(count: nat, word: string, tail: string)
    requires ReadUnit(count, word, tail).Some?
    ensures tail == "ago"
    ensures word == UnitName(ReadUnit(count, word, tail).value.unit, ReadUnit(count, word, tail).value.plural)
    ensures ReadUnit(count, word, tail).value.count == count
  {
    UnitWordNames(word);
  }

  /** The count reader accepts only a rendered count, and then a unit's word and "ago". */
  lemma ReadCountOnlyRenderings(number: string, rest: string)
    requires ReadCount(number, rest).Some?
    ensures var r := ReadCount(number, rest).value;
      number == Decimal(r.count) && rest == UnitName(r.unit, r.plural) + (" " + "ago")
  {
    CanonicalRoundTrip(number);
    var w := FirstIndexOf(rest, ' ').value;
    var word, tail := rest[..w], rest[w + 1..];
    AroundSpace(rest, w);
    ReadUnitOnlyWords(DecimalValue(number), word, tail);
  }

  /**
   * The reader accepts nothing but renderings: a text that reads as a count,
   * a unit and a plural flag is exactly that count in decimal, the unit's
   * word and "ago", separated by single spaces.
   */
  lemma ReadLabelOnlyRenderings(text: string)
    requires ReadLabel(text).Some?
    ensures var r := ReadLabel(text).value;
      text == Decimal(r.count) + (" " + (UnitName(r.unit, r.plural) + (" " + "ago")))
  {
    var k := FirstIndexOf(text, ' ').value;
    AroundSpace(text, k);
    ReadCountOnlyRenderings(text[..k], text[k + 1..]);
  }

  /**
   * With all components present and one of them positive, `getDate` writes
   * exactly the first positive count in decimal, the unit's word (singular
   * exactly for 1) and "ago".
   */
  lemma AgeLabelText(years: int, months: int, days: int, formatted: string)
    requires FirstPositive(years, months, days).Some?
    ensures var p := FirstPositive(years, months, days).value;
      AgeLabel(Some(years), Some(months), Some(days), formatted) ==
      Decimal(p.0) + (" " + (UnitName(p.1, p.0 != 1) + (" " + "ago")))
  {
    AgeLabelReadsBack(years, months, days, formatted);
    ReadLabelOnlyRenderings(AgeLabel(Some(years), Some(months), Some(days), formatted));
  }

  /** A zero-padded count is not a rendering, so it does not read back. */
  lemma ZeroPaddedRejected()
    ensures ReadLabel("01 year ago") == None
  {
    SplitAtFirstSpace("01", "year ago");
    assert "01 year ago" == "01" + (" " + "year ago");
  }
}
