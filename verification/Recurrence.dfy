/** `UNTIL` normalisation of recurrence rules (app/services/recurrence.py; section 3.3.10 of RFC 5545). */
module Recurrence {
  import opened Wrappers
  import opened Text

  /** The civil fields of a date-time. */
  datatype Civil = Civil(year: nat, month: nat, day: nat, hour: nat, minute: nat, second: nat)

  predicate Leap(year: nat) { year % 4 == 0 && (year % 100 != 0 || year % 400 == 0) }

  function DaysIn(year: nat, month: nat): nat {
    if month == 2 then (if Leap(year) then 29 else 28)
    else if month == 4 || month == 6 || month == 9 || month == 11 then 30 else 31
  }

  /** A date-time there is. */
  predicate Real(d: Civil) {
    && 1 <= d.year <= 9999 && 1 <= d.month <= 12 && 1 <= d.day <= DaysIn(d.year, d.month)
    && d.hour < 24 && d.minute < 60 && d.second < 60
  }

  type Moment = d: Civil | Real(d) witness Civil(1, 1, 1, 0, 0, 0)

  /** The libraries: `toUtc(d, tz)` is the UTC reading of local time `d` (of UTC itself when the zone
      is missing or unknown), None when it overflows the calendar; `parseOdd` is what `strptime`
      makes of text that is not eight digits, a T and six digits; `padsYears` tells whether
      `strftime` prints years below 1000 with four digits, as it does from Python 3.13 on. */
  datatype Zones = Zones(
    toUtc: (Moment, Option<string>) -> Option<Moment>, parseOdd: string -> Option<Moment>, padsYears: bool)

  // ---- text helpers ----------------------------------------------------

  function Digit(n: nat): char
    requires n < 10
  {
    (48 + n) as char
  }

  predicate IsDigit(c: char) { '0' <= c <= '9' }

  function Value(c: char): nat
    requires IsDigit(c)
  {
    c as int - 48
  }

  function Two(n: nat): string
    requires n < 100
  {
    [Digit(n / 10), Digit(n % 10)]
  }

  function Four(n: nat): string
    requires n < 10000
  {
    Two(n / 100) + Two(n % 100)
  }

  /** `s.replace(c, "")`. */
  function Without(s: string, c: char): string {
    if s == "" then "" else (if s[0] == c then "" else [s[0]]) + Without(s[1..], c)
  }

  function UpperChar(c: char): char {
    if 'a' <= c <= 'z' then (c as int - 32) as char else if c as int == 0x131 then 'I' else c
  }

  function Upper(s: string): string {
    seq(|s|, i requires 0 <= i < |s| => UpperChar(s[i]))
  }

  /** `s.split("T", 1)` of a text that has a T. */
  function CutAtT(s: string): (string, string)
    requires 'T' in s
  {
    if s[0] == 'T' then ("", s[1..])
    else
      assert s == [s[0]] + s[1..];
      var (a, b) := CutAtT(s[1..]);
      ([s[0]] + a, b)
  }

  predicate AllDigits(s: string) { forall c :: c in s ==> IsDigit(c) }

  function Number(s: string): nat
    requires AllDigits(s)
  {
    if s == "" then 0 else Number(Front(s)) * 10 + Value(Last(s))
  }

  /** `strptime(date + "T" + time, "%Y%m%dT%H%M%S")`. */
  function Strptime(z: Zones, date: string, time: string): Option<Moment> {
    if |date| == 8 && |time| == 6 && AllDigits(date) && AllDigits(time) then
      var d := Civil(Number(date[..4]), Number(date[4..6]), Number(date[6..]),
                     Number(time[..2]), Number(time[2..4]), Number(time[4..]));
      if Real(d) then Some(d) else None
    else z.parseOdd(date + ['T'] + time)
  }

  function DateText(d: Civil, dashed: bool): string
    requires d.year < 10000 && d.month < 100 && d.day < 100
  {
    var dash := if dashed then "-" else "";
    Four(d.year) + dash + Two(d.month) + dash + Two(d.day)
  }

  function TimeText(d: Civil, colons: bool): string
    requires d.hour < 100 && d.minute < 100 && d.second < 100
  {
    var colon := if colons then ":" else "";
    Two(d.hour) + colon + Two(d.minute) + colon + Two(d.second)
  }

  /** The year prints with four digits. */
  predicate PrintsFour(z: Zones, year: nat) { z.padsYears || year >= 1000 }

  /** `strftime("%Y")`. */
  function YearText(z: Zones, year: nat): string
    requires year < 10000
  {
    if PrintsFour(z, year) then Four(year)
    else if year < 10 then [Digit(year)]
    else if year < 100 then Two(year)
    else [Digit(year / 100)] + Two(year % 100)
  }

  /** `strftime` of the date and of the time, joined by a T and closed by a Z. */
  function StampText(z: Zones, d: Moment): string {
    StampDate(z, d) + ['T'] + TimeText(d, false) + ['Z']
  }

  function StampDate(z: Zones, d: Moment): string {
    YearText(z, d.year) + Two(d.month) + Two(d.day)
  }

  // ---- normalisation ---------------------------------------------------

  predicate EndsInZ(v: string) { v != "" && UpperChar(Last(v)) == 'Z' }

  /** A Z of either case counts. */
  lemma EndsInZExactly(v: string)
    ensures EndsInZ(v) <==> v != "" && (v[|v| - 1] == 'Z' || v[|v| - 1] == 'z')
  {
  }

  /** The date-time branch: dashes and colons go, a short time is padded, local time becomes UTC. */
  function NormalizeDateTime(
    z: Zones, datePart: string, timePart: string, hasZ: bool, tz: Option<string>): Option<string> {
    var date, time := Without(datePart, '-'), (Without(timePart, ':') + "000000")[..6];
    if hasZ then Some(date + ['T'] + time + ['Z'])
    else
      match Strptime(z, date, time)
      case None => None
      case Some(d) =>
        match z.toUtc(d, tz)
        case None => None
        case Some(utc) => Some(StampText(z, utc))
  }

  function NormalizeBody(z: Zones, body: string, hasZ: bool, tz: Option<string>): Option<string> {
    if 'T' in body then
      var (datePart, timePart) := CutAtT(body);
      NormalizeDateTime(z, datePart, timePart, hasZ, tz)
    else Some(Without(body, '-'))
  }

  /** `_normalize_until_value`, without the `UNTIL=` it puts in front; None stands for a
      ValueError of `strptime` or an OverflowError of the zone conversion. */
  function NormalizeUntilValue(z: Zones, value: string, tz: Option<string>): Option<string> {
    var v := Strip(value);
    var hasZ := EndsInZ(v);
    NormalizeBody(z, if hasZ then Front(v) else v, hasZ, tz)
  }

  const UNTIL := "UNTIL="

  predicate IsUntil(part: string) {
    UNTIL <= Upper(Strip(part))
  }

  function UntilValue(part: string): string
    requires IsUntil(part)
  {
    Strip(part)[6..]
  }

  function Tagged(value: string): string {
    UNTIL + value
  }

  /** An `UNTIL=` in any mixture of cases; a dotless i counts, since its capital is an I. */
  predicate UntilKey(key: string) {
    && |key| == 6 && key[0] in "uU" && key[1] in "nN" && key[2] in "tT" && (key[3] in "iI" || key[3] as int == 0x131)
    && key[4] in "lL" && key[5] == '='
  }

  lemma UntilKeyExactly(key: string)
    requires |key| == 6
    ensures UntilKey(key) <==> Upper(key) == UNTIL
  {
    var up := Upper(key);
    if UntilKey(key) {
      assert up == UNTIL;
    }
    if up == UNTIL {
      assert up[0] == 'U' && up[1] == 'N' && up[2] == 'T' && up[3] == 'I' && up[4] == 'L' && up[5] == '=';
    }
  }

  /** White space around it aside, the part is such a key and a value that does not end in white space. */
  ghost predicate UntilWith(part: string, left: string, key: string, value: string, right: string) {
    && part == left + (key + value) + right && AllSpace(left) && AllSpace(right) && UntilKey(key)
    && (value != "" ==> !IsSpace(Last(value)))
  }

  /** Every such part is taken as an `UNTIL` with that value. */
  lemma UntilTaken(part: string, left: string, key: string, value: string, right: string)
    requires UntilWith(part, left, key, value, right)
    ensures IsUntil(part) && UntilValue(part) == value
  {
    StripAround(left, key + value, right);
    UntilKeyExactly(key);
    assert Upper(key + value)[..6] == Upper(key);
  }

  /** And no other part is. */
  lemma OnlyUntilTaken(part: string) returns (left: string, key: string, right: string)
    requires IsUntil(part)
    ensures UntilWith(part, left, key, UntilValue(part), right)
  {
    left, right := StripMeaning(part);
    var text := Strip(part);
    assert |text| == |Upper(text)| >= 6;
    key := text[..6];
    assert Upper(key) == Upper(text)[..6] == UNTIL;
    UntilKeyExactly(key);
    assert text == key + text[6..];
  }

  function NormalizePart(z: Zones, part: string, tz: Option<string>): Option<string> {
    if IsUntil(part) then
      match NormalizeUntilValue(z, UntilValue(part), tz)
      case None => None
      case Some(text) => Some(Tagged(text))
    else Some(part)
  }

  function NormalizeParts(z: Zones, parts: seq<string>, tz: Option<string>): Option<seq<string>> {
    if parts == [] then Some([])
    else
      match NormalizeParts(z, Front(parts), tz)
      case None => None
      case Some(out) =>
        match NormalizePart(z, Last(parts), tz)
        case None => None
        case Some(p) => Some(out + [p])
  }

  function NormalizedRule(z: Zones, rule: string, tz: Option<string>): Option<string> {
    match NormalizeParts(z, Split(';', rule), tz)
    case None => None
    case Some(out) => Some(Join(';', out))
  }

  lemma {:induction false} ErrorsPropagate(z: Zones, parts: seq<string>, tz: Option<string>, k: nat)
    requires k <= |parts| && NormalizeParts(z, parts[..k], tz).None?
    ensures NormalizeParts(z, parts, tz).None?
    decreases |parts| - k
  {
    if k == |parts| {
      assert parts[..k] == parts;
    } else {
      assert Front(parts[..k + 1]) == parts[..k];
      ErrorsPropagate(z, parts, tz, k + 1);
    }
  }

  lemma PartsSnoc(z: Zones, parts: seq<string>, i: nat, tz: Option<string>, out: seq<string>)
    requires i < |parts| && NormalizeParts(z, parts[..i], tz) == Some(out)
    ensures NormalizeParts(z, parts[..i + 1], tz)
         == match NormalizePart(z, parts[i], tz) { case None => None case Some(p) => Some(out + [p]) }
  {
    assert Front(parts[..i + 1]) == parts[..i] && Last(parts[..i + 1]) == parts[i];
  }

  /** One part: an `UNTIL` is normalised, anything else kept. */
  method NormalizeOne(z: Zones, part: string, tz: Option<string>) returns (r: Option<string>)
    ensures r == NormalizePart(z, part, tz)
  {
    if !IsUntil(part) {
      return Some(part);
    }
    var value := NormalizeUntilValue(z, UntilValue(part), tz);
    return if value.None? then None else Some(Tagged(value.value));
  }

  /** `normalize_rrule`: part by part, the first bad `UNTIL` ends it. */
  method NormalizeRrule(z: Zones, rule: string, tz: Option<string>) returns (r: Option<string>)
    ensures r == NormalizedRule(z, rule, tz)
  {
    var parts := Split(';', rule);
    var out: seq<string> := [];
    var i := 0;
    while i < |parts|
      invariant 0 <= i <= |parts|
      invariant NormalizeParts(z, parts[..i], tz) == Some(out)
    {
      PartsSnoc(z, parts, i, tz, out);
      var p := NormalizeOne(z, parts[i], tz);
      if p.None? {
        ErrorsPropagate(z, parts, tz, i + 1);
        return None;
      }
      out := out + [p.value];
      i := i + 1;
    }
    assert parts[..i] == parts;
    return Some(Join(';', out));
  }

  // ---- spellings of one instant ------------------------------------------

  /** A date-time as calendars write it: dashes, colons and the final Z are each optional. */
  function Spelled(d: Civil, dashed: bool, colons: bool, utc: bool): string
    requires Real(d)
  {
    DateText(d, dashed) + ['T'] + TimeText(d, colons) + (if utc then "Z" else "")
  }

  /** The compact UTC form RFC 5545 asks for. */
  function CompactUtc(d: Civil): string
    requires Real(d)
  {
    Spelled(d, false, false, true)
  }

  predicate Neutral(c: char) { IsDigit(c) || c == '-' || c == ':' }

  lemma TwoIsDigits(n: nat)
    requires n < 100
    ensures AllDigits(Two(n)) && Number(Two(n)) == n
  {
    var s := Two(n);
    assert Front(s) == [s[0]] && Front([s[0]]) == [];
    assert Number([s[0]]) == Number([]) * 10 + Value(s[0]);
  }

  lemma {:induction false} NumberConcat(a: string, b: string)
    requires AllDigits(a) && AllDigits(b) && |b| == 2
    ensures AllDigits(a + b) && Number(a + b) == Number(a) * 100 + Number(b)
  {
    assert a + b == (a + [b[0]]) + [b[1]];
    assert Front(a + b) == a + [b[0]] && Front(a + [b[0]]) == a;
    assert b[0] in b && b[1] in b;
    assert Front(b) == [b[0]] && Front([b[0]]) == [];
    assert Number([b[0]]) == Number([]) * 10 + Value(b[0]);
    assert Number(a + [b[0]]) == Number(a) * 10 + Value(b[0]);
  }

  lemma FourIsDigits(n: nat)
    requires n < 10000
    ensures AllDigits(Four(n)) && |Four(n)| == 4 && Number(Four(n)) == n
  {
    TwoIsDigits(n / 100);
    TwoIsDigits(n % 100);
    NumberConcat(Two(n / 100), Two(n % 100));
  }

  lemma WithoutCons(x: char, s: string, c: char)
    ensures Without([x] + s, c) == if x == c then Without(s, c) else [x] + Without(s, c)
  {
    assert ([x] + s)[1..] == s;
    assert "" + Without(s, c) == Without(s, c);
  }

  lemma {:induction false} WithoutConcat(a: string, b: string, c: char)
    ensures Without(a + b, c) == Without(a, c) + Without(b, c)
  {
    if a == "" {
      assert a + b == b;
      assert "" + Without(b, c) == Without(b, c);
    } else {
      var x, rest := a[0], a[1..];
      assert a == [x] + rest && a + b == [x] + (rest + b);
      WithoutConcat(rest, b, c);
      WithoutCons(x, rest, c);
      WithoutCons(x, rest + b, c);
      assert [x] + (Without(rest, c) + Without(b, c)) == ([x] + Without(rest, c)) + Without(b, c);
    }
  }

  lemma {:induction false} WithoutAbsent(s: string, c: char)
    requires c !in s
    ensures Without(s, c) == s
  {
    if s != "" {
      WithoutAbsent(s[1..], c);
      assert s == [s[0]] + s[1..];
    }
  }

  /** A digit group and an optional separator lose exactly the separator. */
  lemma GroupWithout(a: string, sep: string, rest: string, mark: char)
    requires AllDigits(a) && !IsDigit(mark) && (sep == "" || sep == [mark])
    ensures Without(a + sep + rest, mark) == a + Without(rest, mark)
  {
    WithoutAbsent(a, mark);
    assert Without(sep, mark) == "" by { if sep == [mark] { assert sep[1..] == ""; } }
    WithoutConcat(a + sep, rest, mark);
    WithoutConcat(a, sep, mark);
    assert a + "" == a;
  }

  lemma GroupsWithout(a: string, b: string, c: string, sep: string, mark: char)
    requires AllDigits(a) && AllDigits(b) && AllDigits(c) && !IsDigit(mark) && (sep == "" || sep == [mark])
    ensures Without(a + sep + b + sep + c, mark) == a + b + c
  {
    assert a + sep + b + sep + c == a + sep + (b + sep + c);
    GroupWithout(a, sep, b + sep + c, mark);
    GroupWithout(b, sep, c, mark);
    WithoutAbsent(c, mark);
    assert a + (b + c) == a + b + c;
  }

  lemma TextsAreClean(d: Civil, dashed: bool, colons: bool)
    requires Real(d)
    ensures Without(DateText(d, dashed), '-') == DateText(d, false) && |DateText(d, false)| == 8
    ensures Without(TimeText(d, colons), ':') == TimeText(d, false) && |TimeText(d, false)| == 6
    ensures forall c :: c in DateText(d, dashed) || c in TimeText(d, colons) ==> Neutral(c)
    ensures AllDigits(DateText(d, false)) && AllDigits(TimeText(d, false))
    ensures DateText(d, dashed) != "" && TimeText(d, colons) != "" && IsDigit(DateText(d, dashed)[0])
  {
    FourIsDigits(d.year);
    TwoIsDigits(d.month); TwoIsDigits(d.day); TwoIsDigits(d.hour); TwoIsDigits(d.minute); TwoIsDigits(d.second);
    GroupsWithout(Four(d.year), Two(d.month), Two(d.day), if dashed then "-" else "", '-');
    GroupsWithout(Two(d.hour), Two(d.minute), Two(d.second), if colons then ":" else "", ':');
    assert DateText(d, false) == Four(d.year) + Two(d.month) + Two(d.day);
    assert TimeText(d, false) == Two(d.hour) + Two(d.minute) + Two(d.second);
  }

  lemma {:induction false} CutOnce(a: string, b: string)
    requires 'T' !in a
    ensures 'T' in a + ['T'] + b && CutAtT(a + ['T'] + b) == (a, b)
  {
    var s := a + ['T'] + b;
    if a != "" {
      CutOnce(a[1..], b);
      assert s[1..] == a[1..] + ['T'] + b;
      assert a == [a[0]] + a[1..];
    }
  }

  lemma StripNothing(s: string)
    requires s != "" && !IsSpace(s[0]) && !IsSpace(Last(s))
    ensures Strip(s) == s
  {
  }

  /** Reading the digits of the compact form gives the instant back. */
  lemma StrptimeReads(z: Zones, d: Civil)
    requires Real(d)
    ensures Strptime(z, DateText(d, false), TimeText(d, false)) == Some(d)
  {
    TextsAreClean(d, false, false);
    FourIsDigits(d.year);
    TwoIsDigits(d.month); TwoIsDigits(d.day); TwoIsDigits(d.hour); TwoIsDigits(d.minute); TwoIsDigits(d.second);
    var date, time := DateText(d, false), TimeText(d, false);
    assert date[..4] == Four(d.year) && date[4..6] == Two(d.month) && date[6..] == Two(d.day);
    assert time[..2] == Two(d.hour) && time[2..4] == Two(d.minute) && time[4..] == Two(d.second);
  }

  /** Two instants never share a compact form. */
  lemma CompactIsInjective(z: Zones, a: Civil, b: Civil)
    requires Real(a) && Real(b) && CompactUtc(a) == CompactUtc(b)
    ensures a == b
  {
    TextsAreClean(a, false, false);
    TextsAreClean(b, false, false);
    assert CompactUtc(a)[..8] == DateText(a, false) && CompactUtc(b)[..8] == DateText(b, false);
    assert CompactUtc(a)[9..15] == TimeText(a, false) && CompactUtc(b)[9..15] == TimeText(b, false);
    StrptimeReads(z, a);
    StrptimeReads(z, b);
  }

  /** The instant an `UNTIL` stands for: itself with a Z, its UTC reading without, if it has one. */
  function InstantOf(z: Zones, d: Civil, utc: bool, tz: Option<string>): Option<Moment>
    requires Real(d)
  {
    if utc then Some(d) else z.toUtc(d, tz)
  }

  lemma SpelledBody(d: Civil, dashed: bool, colons: bool, utc: bool)
    requires Real(d)
    ensures var text, body := Spelled(d, dashed, colons, utc), DateText(d, dashed) + ['T'] + TimeText(d, colons);
      && Strip(text) == text && EndsInZ(text) == utc
      && (if utc then Front(text) else text) == body
  {
    var text, body := Spelled(d, dashed, colons, utc), DateText(d, dashed) + ['T'] + TimeText(d, colons);
    TextsAreClean(d, dashed, colons);
    assert text == if utc then body + ['Z'] else body;
    assert Last(body) == Last(TimeText(d, colons)) && Last(TimeText(d, colons)) in TimeText(d, colons);
    assert text[0] == DateText(d, dashed)[0];
    StripNothing(text);
  }

  lemma DateTimeParts(z: Zones, d: Civil, dashed: bool, colons: bool, utc: bool, tz: Option<string>)
    requires Real(d)
    ensures var r := NormalizeDateTime(z, DateText(d, dashed), TimeText(d, colons), utc, tz);
      if utc then r == Some(CompactUtc(d))
      else match z.toUtc(d, tz) { case None => r.None? case Some(i) => r == Some(StampText(z, i)) }
  {
    TextsAreClean(d, dashed, colons);
    assert (TimeText(d, false) + "000000")[..6] == TimeText(d, false);
    StrptimeReads(z, d);
    assert CompactUtc(d) == DateText(d, false) + ['T'] + TimeText(d, false) + ['Z'];
  }

  /** A value whose body has its first T between `a` and `b` takes the date-time branch on them. */
  lemma DateTimeBranch(z: Zones, text: string, a: string, b: string, hasZ: bool, tz: Option<string>)
    requires Strip(text) == text && EndsInZ(text) == hasZ && 'T' !in a
    requires (if hasZ then Front(text) else text) == a + ['T'] + b
    ensures NormalizeUntilValue(z, text, tz) == NormalizeDateTime(z, a, b, hasZ, tz)
  {
    CutOnce(a, b);
  }

  lemma SpelledNormalizes(z: Zones, d: Civil, dashed: bool, colons: bool, utc: bool, tz: Option<string>)
    requires Real(d)
    ensures var r := NormalizeUntilValue(z, Spelled(d, dashed, colons, utc), tz);
      if utc then r == Some(CompactUtc(d))
      else match z.toUtc(d, tz) { case None => r.None? case Some(i) => r == Some(StampText(z, i)) }
  {
    SpelledBody(d, dashed, colons, utc);
    NoTInDate(d, dashed);
    DateTimeBranch(z, Spelled(d, dashed, colons, utc), DateText(d, dashed), TimeText(d, colons), utc, tz);
    DateTimeParts(z, d, dashed, colons, utc, tz);
  }

  lemma StampIsCompact(z: Zones, d: Moment)
    requires PrintsFour(z, d.year)
    ensures StampText(z, d) == CompactUtc(d)
  {
    assert CompactUtc(d) == DateText(d, false) + ['T'] + TimeText(d, false) + ['Z'];
    assert DateText(d, false) == Four(d.year) + Two(d.month) + Two(d.day);
  }

  /** Every spelling of a date-time is normalised exactly when its instant has a UTC reading; it comes
      out ending in Z, and as the compact UTC form of that instant if the year prints with four digits. */
  lemma DateTimeNormalizes(z: Zones, d: Civil, dashed: bool, colons: bool, utc: bool, tz: Option<string>)
    requires Real(d)
    ensures var r, i := NormalizeUntilValue(z, Spelled(d, dashed, colons, utc), tz), InstantOf(z, d, utc, tz);
      && (r.Some? <==> i.Some?)
      && (r.Some? ==> Last(r.value) == 'Z')
      && (r.Some? && (utc || PrintsFour(z, i.value.year)) ==> r.value == CompactUtc(i.value))
  {
    SpelledNormalizes(z, d, dashed, colons, utc, tz);
    if !utc && z.toUtc(d, tz).Some? {
      var i := z.toUtc(d, tz).value;
      assert Last(StampText(z, i)) == 'Z';
      if PrintsFour(z, i.year) { StampIsCompact(z, i); }
    }
  }

  lemma NoTInDate(d: Civil, dashed: bool)
    requires Real(d)
    ensures 'T' !in DateText(d, dashed)
  {
    TextsAreClean(d, dashed, false);
    assert !Neutral('T');
  }

  /** A plain date stays a date, without its dashes. */
  lemma DateNormalizes(z: Zones, d: Civil, dashed: bool, tz: Option<string>)
    requires Real(d)
    ensures NormalizeUntilValue(z, DateText(d, dashed), tz) == Some(DateText(d, false))
  {
    TextsAreClean(d, dashed, false);
    var text := DateText(d, dashed);
    assert Last(text) in text;
    StripNothing(text);
  }

  /** Where the code falls short: it takes an upper-case T to be a date-time, so with a lower-case
      t, which the grammar of RFC 5545 allows, every UTC `UNTIL` loses its Z. */
  lemma LowerCaseTimeLosesZone(z: Zones, d: Civil, tz: Option<string>)
    requires Real(d)
    ensures NormalizeUntilValue(z, DateText(d, false) + ['t'] + TimeText(d, false) + ['Z'], tz)
         == Some(DateText(d, false) + ['t'] + TimeText(d, false))
  {
    var body := DateText(d, false) + ['t'] + TimeText(d, false);
    TextsAreClean(d, false, false);
    StripNothing(body + ['Z']);
    assert Front(body + ['Z']) == body;
    WithoutAbsent(body, '-');
  }

  lemma {:induction false} WithoutKeepsAbsence(s: string, c: char, x: char)
    requires x !in s
    ensures x !in Without(s, c)
  {
    if s != "" { WithoutKeepsAbsence(s[1..], c, x); }
  }

  /** Exactly: a UTC date-time comes out as its own compact form when, and only when, date and time
      are joined by an upper-case T. */
  lemma OnlyUpperCaseTimeKeepsZone(z: Zones, d: Civil, join: char, tz: Option<string>)
    requires Real(d)
    ensures NormalizeUntilValue(z, DateText(d, false) + [join] + TimeText(d, false) + ['Z'], tz) == Some(CompactUtc(d))
       <==> join == 'T'
  {
    var body := DateText(d, false) + [join] + TimeText(d, false);
    if join == 'T' {
      assert Spelled(d, false, false, true) == body + ['Z'];
      DateTimeNormalizes(z, d, false, false, true, tz);
    } else {
      OddJoin(d, join);
      NoTStaysNoT(z, body, tz);
      CompactHasT(d);
    }
  }

  lemma OddJoin(d: Civil, join: char)
    requires Real(d) && join != 'T'
    ensures var body := DateText(d, false) + [join] + TimeText(d, false);
      'T' !in body && Strip(body + ['Z']) == body + ['Z']
  {
    TextsAreClean(d, false, false);
    assert !Neutral('T');
    StripNothing(DateText(d, false) + [join] + TimeText(d, false) + ['Z']);
  }

  lemma CompactHasT(d: Civil)
    requires Real(d)
    ensures 'T' in CompactUtc(d)
  {
    TextsAreClean(d, false, false);
    assert CompactUtc(d)[8] == 'T';
  }

  lemma NoTStaysNoT(z: Zones, body: string, tz: Option<string>)
    requires 'T' !in body && Strip(body + ['Z']) == body + ['Z']
    ensures NormalizeUntilValue(z, body + ['Z'], tz) == Some(Without(body, '-')) && 'T' !in Without(body, '-')
  {
    assert Front(body + ['Z']) == body;
    WithoutKeepsAbsence(body, '-', 'T');
  }

  // ---- whole rules -----------------------------------------------------

  /** The value is a well-formed DATE or DATE-TIME, in any of its spellings. */
  ghost predicate WellFormedValue(value: string) {
    || (exists d: Civil, dashed: bool :: Real(d) && value == DateText(d, dashed))
    || (exists d: Civil, dashed: bool, colons: bool, utc: bool :: Real(d) && value == Spelled(d, dashed, colons, utc))
  }

  /** A part is fine unless it is an `UNTIL` with an ill-formed value. */
  ghost predicate WellFormedPart(part: string) {
    IsUntil(part) ==> WellFormedValue(UntilValue(part))
  }

  /** The normal form: a compact date, a compact UTC date-time, or a UTC reading as it prints. */
  ghost predicate NormalValue(z: Zones, value: string) {
    || (exists d: Civil :: Real(d) && value == DateText(d, false))
    || (exists d: Civil :: Real(d) && value == CompactUtc(d))
    || (exists d: Moment :: value == StampText(z, d))
  }

  lemma TaggedPart(value: string)
    requires value != "" && !IsSpace(Last(value)) && ';' !in value
    ensures IsUntil(Tagged(value)) && UntilValue(Tagged(value)) == value && ';' !in Tagged(value)
  {
    var part := Tagged(value);
    assert part[0] == 'U' && Last(part) == Last(value);
    StripNothing(part);
    assert Upper(part)[..6] == UNTIL;
    assert part[6..] == value;
  }

  lemma DateEnds(d: Civil, dashed: bool)
    requires Real(d)
    ensures var value := DateText(d, dashed); value != "" && !IsSpace(Last(value)) && ';' !in value
  {
    TextsAreClean(d, dashed, false);
    assert Last(DateText(d, dashed)) in DateText(d, dashed);
    assert !Neutral(';');
  }

  lemma SpelledEnds(d: Civil, dashed: bool, colons: bool, utc: bool)
    requires Real(d)
    ensures var value := Spelled(d, dashed, colons, utc); value != "" && !IsSpace(Last(value)) && ';' !in value
  {
    TextsAreClean(d, dashed, colons);
    var time := TimeText(d, colons);
    assert Last(time) in time && !Neutral(';');
    assert Last(Spelled(d, dashed, colons, utc)) == if utc then 'Z' else Last(time);
  }

  lemma StampDateDigits(z: Zones, d: Moment)
    ensures AllDigits(StampDate(z, d)) && StampDate(z, d) != ""
    ensures |StampDate(z, d)| == 8 <==> PrintsFour(z, d.year)
    ensures |StampDate(z, d)| <= 8
  {
    FourIsDigits(d.year);
    TwoIsDigits(d.year / 100 % 100);
    if d.year < 100 { TwoIsDigits(d.year); } else { TwoIsDigits(d.year % 100); }
    TwoIsDigits(d.month);
    TwoIsDigits(d.day);
  }

  lemma StampShape(z: Zones, d: Moment)
    ensures var text := StampText(z, d);
      && text != "" && text[0] == StampDate(z, d)[0] && IsDigit(text[0]) && Last(text) == 'Z' && ';' !in text
      && |text| == |StampDate(z, d)| + 8
      && Front(text) == StampDate(z, d) + ['T'] + TimeText(d, false)
  {
    StampDateDigits(z, d);
    TextsAreClean(d, false, false);
    assert !IsDigit(';');
    assert StampText(z, d) == (StampDate(z, d) + ['T'] + TimeText(d, false)) + ['Z'];
  }

  lemma StampIsFixed(z: Zones, d: Moment, tz: Option<string>)
    ensures NormalizeUntilValue(z, StampText(z, d), tz) == Some(StampText(z, d))
  {
    StampShape(z, d);
    StampDateDigits(z, d);
    TextsAreClean(d, false, false);
    StripNothing(StampText(z, d));
    assert !IsDigit('T') && !IsDigit('-') && !IsDigit(':');
    DateTimeBranch(z, StampText(z, d), StampDate(z, d), TimeText(d, false), true, tz);
    WithoutAbsent(StampDate(z, d), '-');
    assert (TimeText(d, false) + "000000")[..6] == TimeText(d, false);
  }

  /** A UTC reading is printed as a well-formed date-time exactly when its year prints with four digits. */
  lemma StampWellFormedExactly(z: Zones, d: Moment)
    ensures WellFormedValue(StampText(z, d)) <==> PrintsFour(z, d.year)
  {
    if PrintsFour(z, d.year) {
      StampIsCompact(z, d);
    } else {
      StampShape(z, d);
      StampDateDigits(z, d);
      forall e: Civil, dashed: bool | Real(e) ensures StampText(z, d) != DateText(e, dashed) {
        TextsAreClean(e, dashed, false);
        assert !Neutral('Z') && 'Z' !in DateText(e, dashed);
      }
      forall e: Civil, dashed: bool, colons: bool, utc: bool | Real(e)
        ensures StampText(z, d) != Spelled(e, dashed, colons, utc)
      {
        SpelledLength(e, dashed, colons, utc);
      }
    }
  }

  /** A spelled date-time is at least as long as the compact form, and ends in Z only as UTC. */
  lemma SpelledLength(d: Civil, dashed: bool, colons: bool, utc: bool)
    requires Real(d)
    ensures var text := Spelled(d, dashed, colons, utc);
      text != "" && (if utc then |text| >= 16 else Last(text) != 'Z')
  {
    TextsAreClean(d, dashed, colons);
    var time := TimeText(d, colons);
    assert Last(time) in time && !Neutral('Z');
    assert Last(Spelled(d, dashed, colons, utc)) == if utc then 'Z' else Last(time);
  }

  /** Every local date-time the value spells has a UTC reading. */
  ghost predicate Converts(z: Zones, value: string, tz: Option<string>) {
    forall d: Civil, dashed: bool, colons: bool |
      Real(d) && value == Spelled(d, dashed, colons, false) :: z.toUtc(d, tz).Some?
  }

  lemma LocalSpellings(z: Zones, value: string, tz: Option<string>)
    ensures forall d: Civil, dashed: bool, colons: bool |
      Real(d) && value == Spelled(d, dashed, colons, false) ::
      z.toUtc(d, tz).Some? <==> NormalizeUntilValue(z, value, tz).Some?
  {
    forall d: Civil, dashed: bool, colons: bool | Real(d) && value == Spelled(d, dashed, colons, false)
      ensures z.toUtc(d, tz).Some? <==> NormalizeUntilValue(z, value, tz).Some?
    {
      SpelledNormalizes(z, d, dashed, colons, false, tz);
    }
  }

  lemma SpelledValueNormalizes(z: Zones, d: Civil, dashed: bool, colons: bool, utc: bool, tz: Option<string>)
    requires Real(d)
    ensures var r := NormalizeUntilValue(z, Spelled(d, dashed, colons, utc), tz);
      && (utc ==> r.Some?) && (!utc ==> (r.Some? <==> z.toUtc(d, tz).Some?))
      && (r.Some? ==> NormalValue(z, r.value))
  {
    SpelledNormalizes(z, d, dashed, colons, utc, tz);
  }

  /** A well-formed value becomes a normal one exactly when it converts. */
  lemma ValueNormalizes(z: Zones, value: string, tz: Option<string>)
    requires WellFormedValue(value)
    ensures NormalizeUntilValue(z, value, tz).Some? <==> Converts(z, value, tz)
    ensures NormalizeUntilValue(z, value, tz).Some? ==> NormalValue(z, NormalizeUntilValue(z, value, tz).value)
  {
    LocalSpellings(z, value, tz);
    if d: Civil, dashed: bool :| Real(d) && value == DateText(d, dashed) {
      DateNormalizes(z, d, dashed, tz);
    } else {
      var d: Civil, dashed: bool, colons: bool, utc: bool :| Real(d) && value == Spelled(d, dashed, colons, utc);
      SpelledValueNormalizes(z, d, dashed, colons, utc, tz);
    }
  }

  /** A normal value is its own normal form, in any zone. */
  lemma NormalIsFixed(z: Zones, value: string, tz: Option<string>)
    requires NormalValue(z, value)
    ensures NormalizeUntilValue(z, value, tz) == Some(value)
  {
    if d: Civil :| Real(d) && value == DateText(d, false) {
      DateNormalizes(z, d, false, tz);
    } else if d: Civil :| Real(d) && value == CompactUtc(d) {
      SpelledNormalizes(z, d, false, false, true, tz);
    } else {
      var d: Moment :| value == StampText(z, d);
      StampIsFixed(z, d, tz);
    }
  }

  lemma NormalEnds(z: Zones, value: string)
    requires NormalValue(z, value)
    ensures value != "" && !IsSpace(Last(value)) && ';' !in value
  {
    if d: Civil :| Real(d) && value == DateText(d, false) {
      DateEnds(d, false);
    } else if d: Civil :| Real(d) && value == CompactUtc(d) {
      SpelledEnds(d, false, false, true);
    } else {
      var d: Moment :| value == StampText(z, d);
      StampShape(z, d);
    }
  }

  /** The part is left alone by normalisation: not an `UNTIL`, or one in normal form. */
  ghost predicate SettledPart(z: Zones, part: string) {
    IsUntil(part) ==> part == Tagged(UntilValue(part)) && NormalValue(z, UntilValue(part))
  }

  /** What becomes of one part: an `UNTIL` takes its normal value, anything else is untouched. */
  ghost predicate PartMatches(z: Zones, part: string, out: string, tz: Option<string>) {
    if IsUntil(part) then
      var value := NormalizeUntilValue(z, UntilValue(part), tz);
      value.Some? && out == Tagged(value.value)
    else out == part
  }

  /** The part is not a local date-time `UNTIL` without a UTC reading. */
  ghost predicate ConvertsPart(z: Zones, part: string, tz: Option<string>) {
    IsUntil(part) ==> Converts(z, UntilValue(part), tz)
  }

  lemma PartNormalizes(z: Zones, part: string, tz: Option<string>)
    requires WellFormedPart(part) && ';' !in part
    ensures NormalizePart(z, part, tz).Some? <==> ConvertsPart(z, part, tz)
    ensures NormalizePart(z, part, tz).Some? ==>
      var out := NormalizePart(z, part, tz).value;
      PartMatches(z, part, out, tz) && SettledPart(z, out) && ';' !in out && (IsUntil(part) <==> IsUntil(out))
  {
    if IsUntil(part) {
      ValueNormalizes(z, UntilValue(part), tz);
      var value := NormalizeUntilValue(z, UntilValue(part), tz);
      if value.Some? {
        NormalEnds(z, value.value);
        TaggedPart(value.value);
      }
    }
  }

  lemma SettledIsFixed(z: Zones, part: string, tz: Option<string>)
    requires SettledPart(z, part)
    ensures NormalizePart(z, part, tz) == Some(part)
  {
    if IsUntil(part) { NormalIsFixed(z, UntilValue(part), tz); }
  }

  /** The parts of a normalised rule match the original's one for one. */
  ghost predicate PartsMatch(z: Zones, parts: seq<string>, out: seq<string>, tz: Option<string>) {
    |out| == |parts| && forall k :: 0 <= k < |parts| ==> PartMatches(z, parts[k], out[k], tz) && SettledPart(z, out[k])
  }

  lemma {:induction false} PartsNormalize(z: Zones, parts: seq<string>, tz: Option<string>)
    requires forall p :: p in parts ==> WellFormedPart(p) && ';' !in p
    ensures NormalizeParts(z, parts, tz).Some? <==> forall p | p in parts :: ConvertsPart(z, p, tz)
    ensures NormalizeParts(z, parts, tz).Some? ==>
      && PartsMatch(z, parts, NormalizeParts(z, parts, tz).value, tz)
      && forall p :: p in NormalizeParts(z, parts, tz).value ==> ';' !in p
  {
    if parts != [] {
      assert parts == Front(parts) + [Last(parts)];
      PartsNormalize(z, Front(parts), tz);
      PartNormalizes(z, Last(parts), tz);
      assert forall p :: p in parts <==> p in Front(parts) || p == Last(parts);
    }
  }

  lemma {:induction false} SettledPartsFixed(z: Zones, parts: seq<string>, tz: Option<string>)
    requires forall p :: p in parts ==> SettledPart(z, p)
    ensures NormalizeParts(z, parts, tz) == Some(parts)
  {
    if parts != [] {
      assert parts == Front(parts) + [Last(parts)];
      SettledPartsFixed(z, Front(parts), tz);
      SettledIsFixed(z, Last(parts), tz);
    }
  }

  /** A rule whose `UNTIL`s are well formed is normalised exactly when each local date-time among them
      has a UTC reading; then the number of parts and every other part stay in place, and normalising
      again, even with another zone, changes nothing. */
  lemma NormalizationSettles(z: Zones, rule: string, tz: Option<string>, other: Option<string>)
    requires forall p :: p in Split(';', rule) ==> WellFormedPart(p)
    ensures var r := NormalizedRule(z, rule, tz);
      && (r.Some? <==> forall p | p in Split(';', rule) :: ConvertsPart(z, p, tz))
      && (r.Some? ==> PartsMatch(z, Split(';', rule), Split(';', r.value), tz)
                      && NormalizedRule(z, r.value, other) == r)
  {
    var parts := Split(';', rule);
    SplitPartsClean(';', rule);
    PartsNormalize(z, parts, tz);
    if NormalizeParts(z, parts, tz).Some? {
      var out := NormalizeParts(z, parts, tz).value;
      forall p | p in out ensures SettledPart(z, p) {
        var k :| 0 <= k < |out| && out[k] == p;
        assert PartMatches(z, parts[k], out[k], tz);
      }
      SplitJoin(';', out);
      SettledPartsFixed(z, out, other);
    }
  }

  /** A rule of one part. */
  lemma SinglePart(z: Zones, rule: string, tz: Option<string>)
    requires ';' !in rule && NormalizePart(z, rule, tz).None?
    ensures NormalizedRule(z, rule, tz).None?
  {
    SplitWhole(';', rule);
    assert Front([rule]) == [] && Last([rule]) == rule;
  }

  /** A well-formed local `UNTIL` without a UTC reading raises. */
  lemma LocalUntilRaises(z: Zones, d: Civil, dashed: bool, colons: bool, tz: Option<string>)
    requires Real(d) && z.toUtc(d, tz).None?
    ensures WellFormedPart(Tagged(Spelled(d, dashed, colons, false)))
    ensures NormalizedRule(z, Tagged(Spelled(d, dashed, colons, false)), tz).None?
  {
    SpelledEnds(d, dashed, colons, false);
    TaggedPart(Spelled(d, dashed, colons, false));
    SpelledNormalizes(z, d, dashed, colons, false, tz);
    SinglePart(z, Tagged(Spelled(d, dashed, colons, false)), tz);
  }

  lemma LastDaySpelled()
    ensures DateText(Civil(9999, 12, 31, 23, 59, 59), false) == "99991231"
  {
    assert Two(99) == "99" && Two(12) == "12" && Two(31) == "31";
  }

  lemma LastSecondSpelled()
    ensures Tagged(Spelled(Civil(9999, 12, 31, 23, 59, 59), false, false, false)) == "UNTIL=99991231T235959"
  {
    LastDaySpelled();
    assert Two(23) == "23" && Two(59) == "59";
  }

  /** The last second of the calendar, as a zone west of Greenwich writes it, is such an `UNTIL`. */
  lemma LastSecondRaises(z: Zones, tz: Option<string>)
    requires z.toUtc(Civil(9999, 12, 31, 23, 59, 59), tz).None?
    ensures WellFormedPart("UNTIL=99991231T235959")
    ensures NormalizedRule(z, "UNTIL=99991231T235959", tz).None?
  {
    LocalUntilRaises(z, Civil(9999, 12, 31, 23, 59, 59), false, false, tz);
    LastSecondSpelled();
  }
}
