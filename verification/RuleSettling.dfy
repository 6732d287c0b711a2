/** Exactly when normalising a recurrence rule twice is normalising it once
    (app/services/recurrence.py). */
module RuleSettling {
  import opened Wrappers
  import opened Text
  import opened Recurrence

  /** A value without its final Z. */
  function BodyOf(v: string): string {
    if EndsInZ(v) then Front(v) else v
  }

  /** Only dashes from `lo` up to `hi`. */
  ghost predicate Dashes(s: string, lo: int, hi: int)
    requires 0 <= lo && hi <= |s|
  {
    forall j | lo <= j < hi :: s[j] == '-'
  }

  /** The first character that is not a dash is white space. */
  ghost predicate StartsBlank(s: string) {
    exists k | 0 <= k < |s| :: IsSpace(s[k]) && Dashes(s, 0, k)
  }

  /** The last character that is not a dash is white space or a Z. */
  ghost predicate EndsOdd(s: string) {
    exists k | 0 <= k < |s| :: OddEnd(s[k]) && Dashes(s, k + 1, |s|)
  }

  predicate OddEnd(c: char) { IsSpace(c) || UpperChar(c) == 'Z' }

  /** Dashes aside, the date of a UTC date-time does not start with white space, and a plain date
      neither starts nor ends with white space nor ends in another Z. */
  ghost predicate Tidy(value: string) {
    var v := Strip(value);
    if 'T' in BodyOf(v) then EndsInZ(v) ==> !StartsBlank(CutAtT(BodyOf(v)).0)
    else !StartsBlank(BodyOf(v)) && !EndsOdd(BodyOf(v))
  }

  lemma StartsBlankLater(rest: string)
    ensures StartsBlank("-" + rest) <==> StartsBlank(rest)
  {
    var s := "-" + rest;
    if StartsBlank(rest) {
      var k :| 0 <= k < |rest| && IsSpace(rest[k]) && Dashes(rest, 0, k);
      assert IsSpace(s[k + 1]) && Dashes(s, 0, k + 1);
    }
    if StartsBlank(s) {
      var k :| 0 <= k < |s| && IsSpace(s[k]) && Dashes(s, 0, k);
      assert forall j | 0 <= j < |rest| :: rest[j] == s[j + 1];
      assert k > 0 && IsSpace(rest[k - 1]) && Dashes(rest, 0, k - 1);
    }
  }

  lemma {:induction false} WithoutStart(s: string)
    ensures Without(s, '-') != "" && IsSpace(Without(s, '-')[0]) <==> StartsBlank(s)
  {
    if s != "" {
      var rest := s[1..];
      assert s == [s[0]] + rest;
      WithoutCons(s[0], rest, '-');
      if s[0] == '-' {
        WithoutStart(rest);
        StartsBlankLater(rest);
      } else if IsSpace(s[0]) {
        assert Dashes(s, 0, 0);
      }
    }
  }

  /** A dash at the end makes no difference. */
  lemma EndsOddBeforeDash(front: string)
    ensures EndsOdd(front + "-") == EndsOdd(front)
  {
    var s := front + "-";
    assert forall j | 0 <= j < |front| :: s[j] == front[j];
    if EndsOdd(front) {
      var k :| 0 <= k < |front| && OddEnd(front[k]) && Dashes(front, k + 1, |front|);
      assert OddEnd(s[k]) && Dashes(s, k + 1, |s|);
    }
    if EndsOdd(s) {
      var k :| 0 <= k < |s| && OddEnd(s[k]) && Dashes(s, k + 1, |s|);
      assert k < |front| && OddEnd(front[k]);
      forall j | k < j < |front| ensures front[j] == '-' { assert s[j] == '-'; }
      assert Dashes(front, k + 1, |front|);
    }
  }

  lemma WithoutSnoc(front: string, x: char)
    ensures Without(front + [x], '-') == Without(front, '-') + if x == '-' then "" else [x]
  {
    WithoutConcat(front, [x], '-');
    WithoutCons(x, "", '-');
    assert [x] + "" == [x];
  }

  lemma {:induction false} WithoutEnd(s: string)
    ensures Without(s, '-') != "" && OddEnd(Last(Without(s, '-'))) <==> EndsOdd(s)
  {
    if s != "" {
      var front, x := Front(s), Last(s);
      assert s == front + [x];
      WithoutSnoc(front, x);
      if x == '-' {
        assert Without(s, '-') == Without(front, '-');
        WithoutEnd(front);
        EndsOddBeforeDash(front);
      } else if OddEnd(x) {
        assert Dashes(s, |s|, |s|);
      }
    }
  }

  /** Stripping leaves alone exactly the text with no white space at its ends. */
  lemma StripFixed(w: string)
    ensures Strip(w) == w <==> w == "" || (!IsSpace(w[0]) && !IsSpace(Last(w)))
  {
    if w != "" {
      LStripShorter(w);
      RStripShorter(LStrip(w));
      if IsSpace(w[0]) {
        LStripShorter(w[1..]);
      } else if IsSpace(Last(w)) {
        RStripShorter(Front(w));
      }
    }
  }

  lemma {:induction false} LStripShorter(s: string)
    ensures |LStrip(s)| <= |s| && (|LStrip(s)| == |s| ==> LStrip(s) == s)
    ensures forall c :: c in LStrip(s) ==> c in s
  {
    if s != "" && IsSpace(s[0]) { LStripShorter(s[1..]); }
  }

  lemma {:induction false} RStripShorter(s: string)
    ensures |RStrip(s)| <= |s| && (|RStrip(s)| == |s| ==> RStrip(s) == s)
    ensures forall c :: c in RStrip(s) ==> c in s
  {
    if s != "" && IsSpace(Last(s)) { RStripShorter(Front(s)); }
  }

  lemma StripShorter(s: string)
    ensures |Strip(s)| <= |s| && (|Strip(s)| == |s| ==> Strip(s) == s)
    ensures forall c :: c in Strip(s) ==> c in s
  {
    LStripShorter(s);
    RStripShorter(LStrip(s));
  }

  lemma {:induction false} LStripConcat(a: string, b: string)
    requires b != "" && !IsSpace(b[0])
    ensures LStrip(a + b) == LStrip(a) + b
  {
    if a == "" {
      assert a + b == b;
    } else {
      assert (a + b)[1..] == a[1..] + b;
      LStripConcat(a[1..], b);
    }
  }

  lemma {:induction false} WithoutClean(s: string, c: char)
    ensures c !in Without(s, c) && |Without(s, c)| <= |s|
  {
    if s != "" { WithoutClean(s[1..], c); }
  }

  lemma {:induction false} CutParts(s: string)
    requires 'T' in s
    ensures s == CutAtT(s).0 + ['T'] + CutAtT(s).1 && 'T' !in CutAtT(s).0
  {
    if s[0] != 'T' {
      assert s == [s[0]] + s[1..];
      CutParts(s[1..]);
    }
  }

  /** Text with neither dash nor T loses its outer white space and a final Z, nothing else. */
  lemma PlainTextNormalizes(z: Zones, w: string, tz: Option<string>)
    requires 'T' !in w && '-' !in w
    ensures NormalizeUntilValue(z, w, tz) == Some(BodyOf(Strip(w)))
    ensures NormalizeUntilValue(z, w, tz) == Some(w) <==> Strip(w) == w && !EndsInZ(w)
  {
    StripShorter(w);
    var body := BodyOf(Strip(w));
    assert forall c :: c in body ==> c in Strip(w);
    WithoutAbsent(body, '-');
  }

  lemma ZonedStrip(date: string, time: string)
    ensures Strip(date + ['T'] + time + ['Z']) == LStrip(date) + ['T'] + time + ['Z']
  {
    var rest := ['T'] + time + ['Z'];
    assert date + ['T'] + time + ['Z'] == date + rest;
    LStripConcat(date, rest);
    assert Last(LStrip(date) + rest) == 'Z';
  }

  lemma ZonedBranch(z: Zones, text: string, a: string, b: string, tz: Option<string>)
    requires Strip(text) == a + ['T'] + b + ['Z'] && 'T' !in a
    ensures NormalizeUntilValue(z, text, tz) == NormalizeDateTime(z, a, b, true, tz)
  {
    assert Front(a + ['T'] + b + ['Z']) == a + ['T'] + b;
    CutOnce(a, b);
  }

  /** A UTC date-time already free of dashes and colons only loses leading white space. */
  lemma ZonedTextNormalizes(z: Zones, date: string, time: string, tz: Option<string>)
    requires 'T' !in date && '-' !in date && ':' !in time && |time| == 6
    ensures NormalizeUntilValue(z, date + ['T'] + time + ['Z'], tz) == Some(LStrip(date) + ['T'] + time + ['Z'])
  {
    ZonedStrip(date, time);
    LStripShorter(date);
    ZonedBranch(z, date + ['T'] + time + ['Z'], LStrip(date), time, tz);
    WithoutAbsent(LStrip(date), '-');
    WithoutAbsent(time, ':');
    assert (time + "000000")[..6] == time;
  }

  /** What a value without a T becomes. */
  lemma PlainShape(z: Zones, value: string, tz: Option<string>)
    requires 'T' !in BodyOf(Strip(value))
    ensures var r := Without(BodyOf(Strip(value)), '-');
      NormalizeUntilValue(z, value, tz) == Some(r) && 'T' !in r && '-' !in r
  {
    WithoutKeepsAbsence(BodyOf(Strip(value)), '-', 'T');
    WithoutClean(BodyOf(Strip(value)), '-');
  }

  /** What a date-time with a Z becomes. */
  lemma ZonedShape(z: Zones, value: string, tz: Option<string>) returns (date: string, time: string)
    requires 'T' in BodyOf(Strip(value)) && EndsInZ(Strip(value))
    ensures date == Without(CutAtT(BodyOf(Strip(value))).0, '-') && 'T' !in date && '-' !in date
    ensures |time| == 6 && ':' !in time
    ensures time == (Without(CutAtT(BodyOf(Strip(value))).1, ':') + "000000")[..6]
    ensures NormalizeUntilValue(z, value, tz) == Some(date + ['T'] + time + ['Z'])
  {
    var (a, b) := CutAtT(BodyOf(Strip(value)));
    date, time := Without(a, '-'), (Without(b, ':') + "000000")[..6];
    CutParts(BodyOf(Strip(value)));
    WithoutKeepsAbsence(a, '-', 'T');
    WithoutClean(a, '-');
    WithoutClean(b, ':');
  }

  /** What a local date-time becomes: its UTC reading as it prints. */
  lemma LocalShape(z: Zones, value: string, tz: Option<string>, r: string)
    requires NormalizeUntilValue(z, value, tz) == Some(r)
    requires 'T' in BodyOf(Strip(value)) && !EndsInZ(Strip(value))
    ensures NormalValue(z, r)
  {
    var (a, b) := CutAtT(Strip(value));
    var d := Strptime(z, Without(a, '-'), (Without(b, ':') + "000000")[..6]).value;
    assert r == StampText(z, z.toUtc(d, tz).value);
  }

  /** A value that ends in Z always normalises, and what comes out ends in Z exactly when an
      upper-case T is left before the final Z or, dashes aside, another Z stood there. */
  lemma ZoneKeptExactly(z: Zones, value: string, tz: Option<string>)
    requires EndsInZ(Strip(value))
    ensures var r := NormalizeUntilValue(z, value, tz);
      && r.Some?
      && (EndsInZ(r.value) <==> 'T' in BodyOf(Strip(value)) || EndsInZ(Without(BodyOf(Strip(value)), '-')))
  {
    if 'T' in BodyOf(Strip(value)) {
      var date, time := ZonedShape(z, value, tz);
      assert Last(date + ['T'] + time + ['Z']) == 'Z';
    } else {
      PlainShape(z, value, tz);
    }
  }

  lemma UntilPrefix(x: string)
    ensures UNTIL <= Upper(UNTIL + x) && (UNTIL + x)[6..] == x
  {
    assert Upper(UNTIL + x)[..6] == UNTIL;
  }

  lemma TaggedStrip(r: string)
    ensures Strip(Tagged(r)) == UNTIL + RStrip(r)
  {
    assert Tagged(r)[0] == 'U' && LStrip(Tagged(r)) == Tagged(r);
    RStripTagged(r);
  }

  lemma TaggedValue(r: string)
    ensures IsUntil(Tagged(r)) && UntilValue(Tagged(r)) == RStrip(r)
  {
    TaggedStrip(r);
    UntilPrefix(RStrip(r));
  }

  lemma {:induction false} RStripTagged(r: string)
    ensures RStrip(UNTIL + r) == UNTIL + RStrip(r)
  {
    if r == "" {
      assert UNTIL + r == UNTIL && Last(UNTIL) == '=';
    } else {
      assert Front(UNTIL + r) == UNTIL + Front(r);
      RStripTagged(Front(r));
    }
  }

  lemma RStripOfStripped(r: string)
    requires Strip(r) == r
    ensures RStrip(r) == r
  {
    LStripShorter(r);
    RStripShorter(LStrip(r));
  }

  lemma SecondPass(z: Zones, r: string, tz: Option<string>)
    ensures NormalizePart(z, Tagged(r), tz) == Some(Tagged(r)) <==> NormalizeUntilValue(z, RStrip(r), tz) == Some(r)
  {
    TaggedValue(r);
    var again := NormalizeUntilValue(z, RStrip(r), tz);
    if again.Some? && Tagged(again.value) == Tagged(r) {
      assert again.value == Tagged(again.value)[6..] && r == Tagged(r)[6..];
    }
  }

  lemma ZonedTextSettles(z: Zones, date: string, time: string, tz: Option<string>)
    requires 'T' !in date && '-' !in date && ':' !in time && |time| == 6
    ensures var r := date + ['T'] + time + ['Z'];
      NormalizeUntilValue(z, RStrip(r), tz) == Some(r) <==> (date != "" ==> !IsSpace(date[0]))
  {
    var r := date + ['T'] + time + ['Z'];
    assert Last(r) == 'Z' && RStrip(r) == r;
    ZonedTextNormalizes(z, date, time, tz);
    LStripShorter(date);
    if date != "" && IsSpace(date[0]) {
      LStripShorter(date[1..]);
      assert |LStrip(date) + ['T'] + time + ['Z']| < |r|;
    }
  }

  lemma NormalSettles(z: Zones, r: string, tz: Option<string>)
    requires NormalValue(z, r)
    ensures NormalizeUntilValue(z, RStrip(r), tz) == Some(r)
  {
    NormalIsFixed(z, r, tz);
    NormalEnds(z, r);
    assert RStrip(r) == r;
  }

  /** A part's normal form is left alone by a second pass exactly when its value was tidy. */
  lemma PartSettlesExactly(z: Zones, part: string, tz: Option<string>, other: Option<string>, r: string)
    requires IsUntil(part) && NormalizeUntilValue(z, UntilValue(part), tz) == Some(r)
    ensures NormalizePart(z, Tagged(r), other) == Some(Tagged(r)) <==> Tidy(UntilValue(part))
  {
    var value := UntilValue(part);
    SecondPass(z, r, other);
    if 'T' !in BodyOf(Strip(value)) {
      PlainShape(z, value, tz);
      PlainTextSettles(z, r, other);
      PlainIsTidy(BodyOf(Strip(value)));
    } else if !EndsInZ(Strip(value)) {
      LocalShape(z, value, tz, r);
      NormalSettles(z, r, other);
    } else {
      var date, time := ZonedShape(z, value, tz);
      ZonedTextSettles(z, date, time, other);
      WithoutStart(CutAtT(BodyOf(Strip(value))).0);
    }
  }

  lemma PlainIsTidy(body: string)
    ensures var date := Without(body, '-');
      Strip(date) == date && !EndsInZ(date) <==> !StartsBlank(body) && !EndsOdd(body)
  {
    StripFixed(Without(body, '-'));
    WithoutStart(body);
    WithoutEnd(body);
  }

  lemma PlainTextSettles(z: Zones, r: string, tz: Option<string>)
    requires 'T' !in r && '-' !in r
    ensures NormalizeUntilValue(z, RStrip(r), tz) == Some(r) <==> Strip(r) == r && !EndsInZ(r)
  {
    RStripShorter(r);
    StripShorter(RStrip(r));
    PlainTextNormalizes(z, RStrip(r), tz);
    if Strip(r) == r { RStripOfStripped(r); }
  }

  lemma SliceKeepsAbsence(s: string, lo: nat, hi: nat, x: char)
    requires lo <= hi <= |s| && x !in s
    ensures x !in s[lo..hi]
  {
  }

  /** Normalising adds no semicolon. */
  lemma ValueStaysOnePart(z: Zones, value: string, tz: Option<string>, r: string)
    requires ';' !in value && NormalizeUntilValue(z, value, tz) == Some(r)
    ensures ';' !in r
  {
    StripShorter(value);
    var body := BodyOf(Strip(value));
    assert forall c :: c in body ==> c in Strip(value);
    if 'T' !in body {
      PlainShape(z, value, tz);
      WithoutKeepsAbsence(body, '-', ';');
    } else if !EndsInZ(Strip(value)) {
      LocalShape(z, value, tz, r);
      NormalEnds(z, r);
    } else {
      var date, time := ZonedShape(z, value, tz);
      CutParts(body);
      var (a, b) := CutAtT(body);
      assert forall c :: c in a || c in b ==> c in body;
      WithoutKeepsAbsence(a, '-', ';');
      WithoutKeepsAbsence(b, ':', ';');
      SliceKeepsAbsence(Without(b, ':') + "000000", 0, 6, ';');
    }
  }

  lemma PartStaysOne(z: Zones, part: string, tz: Option<string>)
    requires ';' !in part && NormalizePart(z, part, tz).Some?
    ensures ';' !in NormalizePart(z, part, tz).value
  {
    if IsUntil(part) {
      StripShorter(part);
      SliceKeepsAbsence(Strip(part), 6, |Strip(part)|, ';');
      ValueStaysOnePart(z, UntilValue(part), tz, NormalizeUntilValue(z, UntilValue(part), tz).value);
    }
  }

  /** Part by part: what normalisation makes of a list of parts, when it succeeds. */
  lemma {:induction false} PartsPointwise(z: Zones, parts: seq<string>, tz: Option<string>, out: seq<string>)
    requires NormalizeParts(z, parts, tz) == Some(out)
    ensures |out| == |parts| && forall k | 0 <= k < |parts| :: NormalizePart(z, parts[k], tz) == Some(out[k])
    ensures (forall p :: p in parts ==> ';' !in p) ==> forall p :: p in out ==> ';' !in p
  {
    if parts != [] {
      assert parts == Front(parts) + [Last(parts)];
      var front := NormalizeParts(z, Front(parts), tz).value;
      PartsPointwise(z, Front(parts), tz, front);
      if ';' !in Last(parts) { PartStaysOne(z, Last(parts), tz); }
    }
  }

  lemma {:induction false} FixedPartsExactly(z: Zones, parts: seq<string>, tz: Option<string>)
    ensures NormalizeParts(z, parts, tz) == Some(parts)
       <==> forall k | 0 <= k < |parts| :: NormalizePart(z, parts[k], tz) == Some(parts[k])
  {
    if parts != [] {
      FixedPartsExactly(z, Front(parts), tz);
      assert parts == Front(parts) + [Last(parts)];
      assert forall k | 0 <= k < |Front(parts)| :: Front(parts)[k] == parts[k];
    }
  }

  /** The rule is left alone by a second pass exactly when the second pass leaves its parts alone. */
  lemma RuleFixedExactly(z: Zones, out: seq<string>, tz: Option<string>)
    requires out != [] && forall p :: p in out ==> ';' !in p
    ensures NormalizedRule(z, Join(';', out), tz) == Some(Join(';', out)) <==> NormalizeParts(z, out, tz) == Some(out)
  {
    SplitJoin(';', out);
    var again := NormalizeParts(z, out, tz);
    if again.Some? {
      PartsPointwise(z, out, tz, again.value);
      SplitJoin(';', again.value);
    }
  }

  lemma OutputSettlesExactly(z: Zones, part: string, tz: Option<string>, other: Option<string>, out: string)
    requires NormalizePart(z, part, tz) == Some(out)
    ensures NormalizePart(z, out, other) == Some(out) <==> (IsUntil(part) ==> Tidy(UntilValue(part)))
  {
    if IsUntil(part) {
      PartSettlesExactly(z, part, tz, other, NormalizeUntilValue(z, UntilValue(part), tz).value);
    }
  }

  /** Every `UNTIL` among the parts is tidy. */
  ghost predicate AllTidy(parts: seq<string>) {
    forall k | 0 <= k < |parts| :: IsUntil(parts[k]) ==> Tidy(UntilValue(parts[k]))
  }

  lemma PartsSettleExactly(z: Zones, parts: seq<string>, tz: Option<string>, other: Option<string>, out: seq<string>)
    requires NormalizeParts(z, parts, tz) == Some(out)
    ensures NormalizeParts(z, out, other) == Some(out) <==> AllTidy(parts)
  {
    PartsPointwise(z, parts, tz, out);
    FixedPartsExactly(z, out, other);
    forall k | 0 <= k < |parts|
      ensures NormalizePart(z, out[k], other) == Some(out[k]) <==> (IsUntil(parts[k]) ==> Tidy(UntilValue(parts[k])))
    {
      OutputSettlesExactly(z, parts[k], tz, other, out[k]);
    }
  }

  /** On every rule at all: a second pass, in whatever zone, changes nothing exactly when each
      `UNTIL` value of the original rule is tidy. */
  lemma IdempotentExactlyWhenTidy(z: Zones, rule: string, tz: Option<string>, other: Option<string>)
    requires NormalizedRule(z, rule, tz).Some?
    ensures var once := NormalizedRule(z, rule, tz).value;
      NormalizedRule(z, once, other) == Some(once) <==> AllTidy(Split(';', rule))
  {
    var parts := Split(';', rule);
    var out := NormalizeParts(z, parts, tz).value;
    SplitPartsClean(';', rule);
    PartsPointwise(z, parts, tz, out);
    PartsSettleExactly(z, parts, tz, other, out);
    RuleFixedExactly(z, out, other);
  }

  /** So the promise of idempotence fails: a date with a doubled Z sheds one on each pass. */
  lemma DoubledZoneIsNotSettled(z: Zones, d: Civil, tz: Option<string>)
    requires Real(d)
    ensures NormalizeUntilValue(z, DateText(d, false) + "ZZ", tz) == Some(DateText(d, false) + "Z")
    ensures NormalizeUntilValue(z, DateText(d, false) + "Z", tz) == Some(DateText(d, false))
    ensures !Tidy(DateText(d, false) + "ZZ")
  {
    var date := DateText(d, false);
    CleanDate(d);
    StripNothing(date + "ZZ");
    StripNothing(date + "Z");
    assert Front(date + "ZZ") == date + "Z" && Front(date + "Z") == date;
    assert 'T' !in date + "Z";
    WithoutAbsent(date + "Z", '-');
  }

  lemma CleanDate(d: Civil)
    requires Real(d)
    ensures var date := DateText(d, false);
      && date != "" && !IsSpace(date[0]) && 'T' !in date && '-' !in date && Without(date, '-') == date
  {
    TextsAreClean(d, false, false);
    assert !Neutral('T') && !IsDigit('-');
    WithoutAbsent(DateText(d, false), '-');
  }
}
