/** Category assignment (app/categorize/categorize.py, app/services/categories.py). */
module Categorize {
  import opened Wrappers
  import opened Text
  import opened Schema

  /** The text fields a rule may name; the first five are those it searches by default. */
  datatype TextField = Uid | Title | Description | Location | Url | Timezone | Rrule
  datatype Selector = Star | Field(field: TextField)
  datatype Mode = Assign | Regex
  datatype Rule = Rule(mode: Mode, fields: seq<Selector>, regex: Option<string>, categories: seq<string>)

  /** The intake settings the stage reads.  `lower` is `str.lower`; `search(p, t)` tells
      whether regular expression `p` is found in text `t`. */
  datatype Intake = Intake(
    definitions: seq<(string, seq<string>)>, lower: string -> string, search: (string, string) -> bool)

  const DEFAULT_CLASS := "intake"

  // ---- slugs -----------------------------------------------------------

  predicate SlugChar(c: char) {
    'a' <= c <= 'z' || 'A' <= c <= 'Z' || '0' <= c <= '9' || c == '-'
  }

  /** Spaces become dashes; everything that is not ASCII alphanumeric or a dash goes. */
  function KeepSlugChars(s: string): string {
    if s == "" then ""
    else
      var c := if s[0] == ' ' then '-' else s[0];
      (if SlugChar(c) then [c] else "") + KeepSlugChars(s[1..])
  }

  function CollapseDashes(s: string): string {
    if |s| < 2 then s
    else if s[0] == '-' && s[1] == '-' then CollapseDashes(s[1..])
    else [s[0]] + CollapseDashes(s[1..])
  }

  function LTrimDashes(s: string): string {
    if s != "" && s[0] == '-' then LTrimDashes(s[1..]) else s
  }

  function RTrimDashes(s: string): string {
    if s != "" && Last(s) == '-' then RTrimDashes(Front(s)) else s
  }

  function Slugify(intake: Intake, value: string): string {
    RTrimDashes(LTrimDashes(CollapseDashes(KeepSlugChars(intake.lower(value)))))
  }

  ghost predicate NoDoubleDash(s: string) {
    forall i :: 0 <= i < |s| - 1 ==> !(s[i] == '-' && s[i + 1] == '-')
  }

  /** A slug: ASCII alphanumerics and single inner dashes. */
  ghost predicate IsSlug(s: string) {
    && (forall c :: c in s ==> SlugChar(c))
    && NoDoubleDash(s)
    && (s != "" ==> s[0] != '-' && Last(s) != '-')
  }

  lemma {:induction false} KeepSlugCharsShape(s: string)
    ensures forall c :: c in KeepSlugChars(s) ==> SlugChar(c) && (c in s || c == '-')
  {
    if s != "" { KeepSlugCharsShape(s[1..]); }
  }

  lemma {:induction false} CollapseDashesShape(s: string)
    requires forall c :: c in s ==> SlugChar(c)
    ensures forall c :: c in CollapseDashes(s) ==> SlugChar(c)
    ensures NoDoubleDash(CollapseDashes(s))
    ensures s != "" ==> CollapseDashes(s) != "" && CollapseDashes(s)[0] == s[0]
  {
    if |s| >= 2 { CollapseDashesShape(s[1..]); }
  }

  ghost predicate Dashed(s: string) {
    (forall c :: c in s ==> SlugChar(c)) && NoDoubleDash(s)
  }

  lemma {:induction false} LTrimShape(s: string)
    requires Dashed(s)
    ensures Dashed(LTrimDashes(s))
    ensures LTrimDashes(s) != "" ==> LTrimDashes(s)[0] != '-'
  {
    if s != "" && s[0] == '-' {
      assert forall i :: 0 <= i < |s[1..]| ==> s[1..][i] == s[i + 1];
      LTrimShape(s[1..]);
    }
  }

  lemma {:induction false} RTrimShape(s: string)
    requires Dashed(s) && (s != "" ==> s[0] != '-')
    ensures IsSlug(RTrimDashes(s))
  {
    if s != "" && Last(s) == '-' { RTrimShape(Front(s)); }
  }

  /** Whatever the input, the result is a slug. */
  lemma SlugifyShape(intake: Intake, value: string)
    ensures IsSlug(Slugify(intake, value))
  {
    var kept := KeepSlugChars(intake.lower(value));
    KeepSlugCharsShape(intake.lower(value));
    CollapseDashesShape(kept);
    LTrimShape(CollapseDashes(kept));
    RTrimShape(LTrimDashes(CollapseDashes(kept)));
  }

  lemma {:induction false} SlugIsFixed(s: string)
    requires IsSlug(s)
    ensures KeepSlugChars(s) == s && CollapseDashes(s) == s
    ensures RTrimDashes(LTrimDashes(s)) == s
  {
    KeepsSlugChars(s);
    KeepsSingleDashes(s);
  }

  lemma {:induction false} KeepsSlugChars(s: string)
    requires forall c :: c in s ==> SlugChar(c)
    ensures KeepSlugChars(s) == s
  {
    if s != "" { KeepsSlugChars(s[1..]); assert s[0] in s; }
  }

  lemma {:induction false} KeepsSingleDashes(s: string)
    requires NoDoubleDash(s)
    ensures CollapseDashes(s) == s
  {
    if |s| >= 2 {
      assert !(s[0] == '-' && s[0 + 1] == '-');
      forall i | 0 <= i < |s[1..]| - 1 ensures !(s[1..][i] == '-' && s[1..][i + 1] == '-') {
        assert !(s[i + 1] == '-' && s[(i + 1) + 1] == '-');
      }
      KeepsSingleDashes(s[1..]);
    }
  }

  predicate LowerSlugChar(c: char) { 'a' <= c <= 'z' || '0' <= c <= '9' || c == '-' }

  /** What is known of `str.lower`: no ASCII capital is left, and text that is already a lower-case
      slug is left alone. */
  ghost predicate Lowers(intake: Intake) {
    && (forall s: string, c: char | c in intake.lower(s) :: !('A' <= c <= 'Z'))
    && (forall s: string | (forall c :: c in s ==> LowerSlugChar(c)) :: intake.lower(s) == s)
  }

  lemma {:induction false} CollapseDashesOrigin(s: string)
    ensures forall c :: c in CollapseDashes(s) ==> c in s
  {
    if |s| >= 2 { CollapseDashesOrigin(s[1..]); }
  }

  lemma {:induction false} LTrimOrigin(s: string)
    ensures forall c :: c in LTrimDashes(s) ==> c in s
  {
    if s != "" && s[0] == '-' { LTrimOrigin(s[1..]); }
  }

  lemma {:induction false} RTrimOrigin(s: string)
    ensures forall c :: c in RTrimDashes(s) ==> c in s
  {
    if s != "" && Last(s) == '-' { RTrimOrigin(Front(s)); }
  }

  /** Slugs are lower-case, and slugifying a slug changes nothing: so the second `slugify` of
      `category_class` is harmless. */
  lemma SlugifyIdempotent(intake: Intake, value: string)
    requires Lowers(intake)
    ensures forall c :: c in Slugify(intake, value) ==> LowerSlugChar(c)
    ensures Slugify(intake, Slugify(intake, value)) == Slugify(intake, value)
  {
    var lowered := intake.lower(value);
    KeepSlugCharsShape(lowered);
    CollapseDashesOrigin(KeepSlugChars(lowered));
    LTrimOrigin(CollapseDashes(KeepSlugChars(lowered)));
    RTrimOrigin(LTrimDashes(CollapseDashes(KeepSlugChars(lowered))));
    SlugifyShape(intake, value);
    SlugIsFixed(Slugify(intake, value));
  }

  // ---- slugs as words ----------------------------------------------------

  /** The text cut at every space and every dash, with nothing but ASCII letters and digits left. */
  function Words(s: string): (words: seq<string>)
    ensures words != []
  {
    if s == "" then [""]
    else
      var rest := Words(s[1..]);
      if s[0] == ' ' || s[0] == '-' then [""] + rest
      else if 'a' <= s[0] <= 'z' || 'A' <= s[0] <= 'Z' || '0' <= s[0] <= '9' then [[s[0]] + rest[0]] + rest[1..]
      else rest
  }

  lemma {:induction false} KeptIsWords(s: string)
    ensures Split('-', KeepSlugChars(s)) == Words(s)
  {
    if s != "" {
      KeptIsWords(s[1..]);
      var rest := KeepSlugChars(s[1..]);
      assert forall c: char :: ([c] + rest)[0] == c && ([c] + rest)[1..] == rest;
      assert "" + rest == rest;
    }
  }

  /** The words of a dashed text, without the empty ones, joined by single dashes. */
  function Rejoined(t: string): string {
    Join('-', NonEmpty(Split('-', t)))
  }

  lemma {:induction false} NonEmptyParts(parts: seq<string>)
    ensures "" !in NonEmpty(parts)
  {
    if parts != [] { NonEmptyParts(parts[1..]); }
  }

  lemma JoinNonEmpty(parts: seq<string>)
    requires "" !in parts
    ensures Join('-', parts) == "" <==> parts == []
    ensures parts != [] ==> |Join('-', parts)| >= |parts[0]| > 0
  {
    if parts != [] { assert parts[0] in parts; }
  }

  /** What one more character in front does to the rejoined words. */
  lemma RejoinedCons(c: char, rest: string)
    ensures Rejoined([c] + rest)
         == if c == '-' then Rejoined(rest)
            else if rest == "" || rest[0] != '-' || Rejoined(rest) == "" then [c] + Rejoined(rest)
            else [c, '-'] + Rejoined(rest)
  {
    var parts := Split('-', rest);
    assert ([c] + rest)[1..] == rest;
    NonEmptyParts(parts[1..]);
    JoinNonEmpty(NonEmpty(parts[1..]));
    if c == '-' {
      assert ([""] + parts)[1..] == parts && [] + NonEmpty(parts) == NonEmpty(parts);
    } else {
      var word, others := [c] + parts[0], NonEmpty(parts[1..]);
      assert ([word] + parts[1..])[1..] == parts[1..];
      assert NonEmpty([word] + parts[1..]) == [word] + others;
      FirstPart(rest);
      if parts[0] == "" {
        assert NonEmpty(parts) == others && word == [c];
        if others != [] { JoinCons([c], others); }
      } else {
        assert NonEmpty(parts) == [parts[0]] + others;
        if others != [] {
          JoinCons(word, others);
          JoinCons(parts[0], others);
        }
      }
    }
  }

  lemma JoinCons(word: string, others: seq<string>)
    requires others != []
    ensures Join('-', [word] + others) == word + ['-'] + Join('-', others)
  {
    assert ([word] + others)[1..] == others;
  }

  lemma FirstPart(t: string)
    ensures Split('-', t)[0] == "" <==> t == "" || t[0] == '-'
    ensures t == "" ==> Split('-', t) == [""]
  {
  }

  lemma {:induction false} RTrimCons(c: char, t: string)
    ensures RTrimDashes([c] + t) == if c == '-' && RTrimDashes(t) == "" then "" else [c] + RTrimDashes(t)
  {
    if t == "" {
      assert Front([c]) == "" && Last([c]) == c;
    } else {
      assert Front([c] + t) == [c] + Front(t) && Last([c] + t) == Last(t);
      if Last(t) == '-' { RTrimCons(c, Front(t)); }
    }
  }

  lemma {:induction false} CollapseStart(t: string)
    requires t != "" && t[0] == '-'
    ensures CollapseDashes(t) == ['-'] + LTrimDashes(CollapseDashes(t[1..]))
  {
    if |t| >= 2 {
      if t[1] == '-' {
        CollapseStart(t[1..]);
        var inner := LTrimDashes(CollapseDashes(t[1..][1..]));
        assert (['-'] + inner)[1..] == inner;
        TrimmedStart(CollapseDashes(t[1..][1..]));
      } else {
        assert CollapseDashes(t[1..])[0] == t[1];
      }
    } else {
      assert t == "-";
    }
  }

  lemma {:induction false} TrimmedStart(t: string)
    ensures LTrimDashes(LTrimDashes(t)) == LTrimDashes(t)
    ensures LTrimDashes(t) != "" ==> LTrimDashes(t)[0] != '-'
  {
    if t != "" && t[0] == '-' { TrimmedStart(t[1..]); }
  }

  function Trimmed(t: string): string {
    RTrimDashes(LTrimDashes(CollapseDashes(t)))
  }

  lemma TrimmedDash(rest: string)
    ensures Trimmed(['-'] + rest) == Trimmed(rest)
  {
    var t, inner := ['-'] + rest, LTrimDashes(CollapseDashes(rest));
    assert t[1..] == rest;
    CollapseStart(t);
    assert (['-'] + inner)[1..] == inner;
    TrimmedStart(CollapseDashes(rest));
  }

  lemma TrimmedLetter(c: char, rest: string)
    requires c != '-'
    ensures Trimmed([c] + rest)
         == if rest == "" || rest[0] != '-' || Trimmed(rest) == "" then [c] + Trimmed(rest)
            else [c, '-'] + Trimmed(rest)
  {
    var t, collapsed := [c] + rest, CollapseDashes(rest);
    assert t[1..] == rest && CollapseDashes(t) == [c] + collapsed;
    RTrimCons(c, collapsed);
    if rest != "" && rest[0] == '-' {
      CollapseStart(rest);
      var inner := LTrimDashes(CollapseDashes(rest[1..]));
      assert collapsed == ['-'] + inner && collapsed[1..] == inner;
      TrimmedStart(CollapseDashes(rest[1..]));
      RTrimCons('-', inner);
      assert LTrimDashes(collapsed) == inner;
      assert [c] + (['-'] + RTrimDashes(inner)) == [c, '-'] + RTrimDashes(inner);
    } else {
      CollapseKeepsStart(rest);
    }
  }

  lemma {:induction false} TrimmedIsRejoined(t: string)
    ensures Trimmed(t) == Rejoined(t)
  {
    if t == "" {
      assert NonEmpty([""]) == NonEmpty([""][1..]) == [];
    } else {
      hide Trimmed, Rejoined;
      var c, rest := t[0], t[1..];
      assert t == [c] + rest;
      TrimmedIsRejoined(rest);
      RejoinedCons(c, rest);
      if c == '-' { TrimmedDash(rest); } else { TrimmedLetter(c, rest); }
    }
  }

  lemma CollapseKeepsStart(t: string)
    ensures t != "" && t[0] != '-' ==> CollapseDashes(t) != "" && CollapseDashes(t)[0] == t[0]
  {
  }

  /** A slug is the words of the lower-cased text, joined by single dashes. */
  lemma SlugifyExactly(intake: Intake, value: string)
    ensures Slugify(intake, value) == Join('-', NonEmpty(Words(intake.lower(value))))
  {
    KeptIsWords(intake.lower(value));
    TrimmedIsRejoined(KeepSlugChars(intake.lower(value)));
  }

  // ---- classes ---------------------------------------------------------

  function ClassOf(intake: Intake, slug: string, definitions: seq<(string, seq<string>)>): string {
    if definitions == [] then DEFAULT_CLASS
    else if slug in definitions[0].1 then Slugify(intake, definitions[0].0)
    else ClassOf(intake, slug, definitions[1..])
  }

  function CategoryClass(intake: Intake, name: string): string {
    ClassOf(intake, Slugify(intake, name), intake.definitions)
  }

  function Qualify(intake: Intake, name: string): string {
    var slug := Slugify(intake, name);
    CategoryClass(intake, slug) + ":" + slug
  }

  /** The definition at `k` is the first that lists the slug. */
  ghost predicate FirstListing(definitions: seq<(string, seq<string>)>, slug: string, k: nat) {
    k < |definitions| && slug in definitions[k].1 && forall j | 0 <= j < k :: slug !in definitions[j].1
  }

  /** A listed slug belongs to the first class that lists it, an unlisted one to "intake". */
  lemma {:induction false} ClassExactly(intake: Intake, slug: string, definitions: seq<(string, seq<string>)>)
    ensures forall k: nat | FirstListing(definitions, slug, k) ::
              ClassOf(intake, slug, definitions) == Slugify(intake, definitions[k].0)
    ensures (forall d | d in definitions :: slug !in d.1) ==> ClassOf(intake, slug, definitions) == "intake"
  {
    hide Slugify;
    if definitions != [] {
      ClassExactly(intake, slug, definitions[1..]);
      forall k: nat | FirstListing(definitions, slug, k)
        ensures ClassOf(intake, slug, definitions) == Slugify(intake, definitions[k].0)
      {
        if k > 0 {
          assert definitions[1..][k - 1] == definitions[k];
          assert forall j | 0 <= j < k - 1 :: definitions[1..][j] == definitions[j + 1];
          assert FirstListing(definitions[1..], slug, k - 1);
        }
      }
    }
  }

  /** So a name is qualified by its slug's class and its slug. */
  lemma QualifyExactly(intake: Intake, name: string)
    requires Lowers(intake)
    ensures var slug := Slugify(intake, name);
      && (forall k: nat | FirstListing(intake.definitions, slug, k) ::
            Qualify(intake, name) == Slugify(intake, intake.definitions[k].0) + ":" + slug)
      && ((forall d | d in intake.definitions :: slug !in d.1) ==> Qualify(intake, name) == "intake:" + slug)
  {
    SlugifyIdempotent(intake, name);
    ClassExactly(intake, Slugify(intake, name), intake.definitions);
    assert "intake" + ":" == "intake:";
  }

  lemma {:induction false} ClassShape(intake: Intake, slug: string, definitions: seq<(string, seq<string>)>)
    ensures IsSlug(ClassOf(intake, slug, definitions))
  {
    if definitions != [] {
      SlugifyShape(intake, definitions[0].0);
      ClassShape(intake, slug, definitions[1..]);
    }
  }

  /** A qualified name reads back unambiguously: class and name are the two colon-separated slugs. */
  lemma QualifyShape(intake: Intake, name: string)
    ensures var q := Qualify(intake, name);
      && q != "" && ',' !in q
      && Split(':', q) == [CategoryClass(intake, Slugify(intake, name)), Slugify(intake, name)]
  {
    var slug := Slugify(intake, name);
    var cls := CategoryClass(intake, slug);
    SlugifyShape(intake, name);
    ClassShape(intake, Slugify(intake, slug), intake.definitions);
    SlugHasNoMarks(cls);
    SlugHasNoMarks(slug);
    SplitAtSeparator(':', cls, slug);
    SplitWhole(':', cls);
    SplitWhole(':', slug);
    assert Qualify(intake, name) == cls + [':'] + slug;
  }

  lemma SlugHasNoMarks(s: string)
    requires IsSlug(s)
    ensures ':' !in s && ',' !in s
  {
    assert !SlugChar(':') && !SlugChar(',');
  }

  // ---- rules -----------------------------------------------------------

  function TextOf(e: ScrapedEvent, f: TextField): string {
    match f
    case Uid => e.uid.GetOr("")
    case Title => e.title
    case Description => e.description.GetOr("")
    case Location => e.location.GetOr("")
    case Url => e.url.GetOr("")
    case Timezone => e.timezone.GetOr("")
    case Rrule => e.rrule.GetOr("")
  }

  predicate Selects(rule: Rule, f: TextField) {
    if rule.fields == [] || Star in rule.fields then f in {Uid, Title, Description, Location, Url}
    else Field(f) in rule.fields
  }

  /** Whether `rule` adds its categories to `e`; categories are never matched against. */
  predicate Fires(intake: Intake, rule: Rule, e: ScrapedEvent) {
    match rule.mode
    case Assign => true
    case Regex =>
      && Truthy(rule.regex)
      && exists f | f in {Uid, Title, Description, Location, Url, Timezone, Rrule} ::
           Selects(rule, f) && intake.search(rule.regex.value, TextOf(e, f))
  }

  /** A text the rule is to search: of the five default fields, or of the fields it names. */
  predicate Searched(rule: Rule, e: ScrapedEvent, text: string) {
    if rule.fields == [] || Star in rule.fields then
      || text == e.uid.GetOr("") || text == e.title || text == e.description.GetOr("")
      || text == e.location.GetOr("") || text == e.url.GetOr("")
    else
      || (Field(Uid) in rule.fields && text == e.uid.GetOr(""))
      || (Field(Title) in rule.fields && text == e.title)
      || (Field(Description) in rule.fields && text == e.description.GetOr(""))
      || (Field(Location) in rule.fields && text == e.location.GetOr(""))
      || (Field(Url) in rule.fields && text == e.url.GetOr(""))
      || (Field(Timezone) in rule.fields && text == e.timezone.GetOr(""))
      || (Field(Rrule) in rule.fields && text == e.rrule.GetOr(""))
  }

  /** An assigning rule always fires; a searching one exactly when it has a pattern and the pattern is found
      in one of its texts. */
  lemma FiresExactly(intake: Intake, rule: Rule, e: ScrapedEvent)
    ensures rule.mode == Assign ==> Fires(intake, rule, e)
    ensures rule.mode == Regex ==>
      (Fires(intake, rule, e)
       <==> && rule.regex.Some? && rule.regex.value != ""
            && exists text | Searched(rule, e, text) :: intake.search(rule.regex.value, text))
  {
    if rule.mode == Regex && rule.regex.Some? && rule.regex.value != "" {
      SearchedIsSelected(rule, e);
      if Fires(intake, rule, e) {
        var f :| Selects(rule, f) && intake.search(rule.regex.value, TextOf(e, f));
        assert Searched(rule, e, TextOf(e, f));
      }
    }
  }

  lemma SearchedIsSelected(rule: Rule, e: ScrapedEvent)
    ensures forall text :: Searched(rule, e, text) <==> exists f :: Selects(rule, f) && TextOf(e, f) == text
  {
    forall text | Searched(rule, e, text) ensures exists f :: Selects(rule, f) && TextOf(e, f) == text {
      var f := if Selects(rule, Uid) && TextOf(e, Uid) == text then Uid
               else if Selects(rule, Title) && TextOf(e, Title) == text then Title
               else if Selects(rule, Description) && TextOf(e, Description) == text then Description
               else if Selects(rule, Location) && TextOf(e, Location) == text then Location
               else if Selects(rule, Url) && TextOf(e, Url) == text then Url
               else if Selects(rule, Timezone) && TextOf(e, Timezone) == text then Timezone else Rrule;
      assert Selects(rule, f) && TextOf(e, f) == text;
    }
  }

  function ApplyRule(intake: Intake, rule: Rule, e: ScrapedEvent): ScrapedEvent {
    if rule.categories != [] && Fires(intake, rule, e)
    then e.(categories := SortedSet(e.categories + rule.categories))
    else e
  }

  function ApplyRules(intake: Intake, rules: seq<Rule>, e: ScrapedEvent): ScrapedEvent {
    if rules == [] then e
    else ApplyRule(intake, Last(rules), ApplyRules(intake, Front(rules), e))
  }

  function QualifyAll(intake: Intake, names: seq<string>): seq<string> {
    if names == [] then []
    else (if Slugify(intake, names[0]) == "" then [] else [Qualify(intake, names[0])])
         + QualifyAll(intake, names[1..])
  }

  /** The event after the whole stage. */
  function Categorized(intake: Intake, rules: seq<Rule>, e: ScrapedEvent): ScrapedEvent {
    e.(categories := SortedSet(QualifyAll(intake, ApplyRules(intake, rules, e).categories)))
  }

  /** A raw name an event carries itself or gets from a rule that fires. */
  ghost predicate Assigned(intake: Intake, rules: seq<Rule>, e: ScrapedEvent, raw: string) {
    raw in e.categories || exists r :: r in rules && Fires(intake, r, e) && raw in r.categories
  }

  lemma {:induction false} ApplyRulesMembers(intake: Intake, rules: seq<Rule>, e: ScrapedEvent)
    ensures ApplyRules(intake, rules, e) == e.(categories := ApplyRules(intake, rules, e).categories)
    ensures forall raw :: raw in ApplyRules(intake, rules, e).categories <==> Assigned(intake, rules, e, raw)
  {
    if rules != [] {
      var before, rule := ApplyRules(intake, Front(rules), e), Last(rules);
      ApplyRulesMembers(intake, Front(rules), e);
      assert rules == Front(rules) + [rule];
      assert Fires(intake, rule, before) == Fires(intake, rule, e) by {
        assert forall f :: TextOf(before, f) == TextOf(e, f);
      }
      SortedSetSpec(before.categories + rule.categories);
      forall raw ensures raw in ApplyRule(intake, rule, before).categories <==> Assigned(intake, rules, e, raw) {
        assert Assigned(intake, rules, e, raw)
            <==> Assigned(intake, Front(rules), e, raw) || (Fires(intake, rule, e) && raw in rule.categories);
      }
    }
  }

  lemma {:induction false} QualifyAllMembers(intake: Intake, names: seq<string>)
    ensures forall c :: c in QualifyAll(intake, names)
                   <==> exists raw :: raw in names && Slugify(intake, raw) != "" && c == Qualify(intake, raw)
  {
    if names != [] {
      QualifyAllMembers(intake, names[1..]);
      assert names == [names[0]] + names[1..];
    }
  }

  /** The stage's result, stated without its loops: exactly the qualified names of everything
      the event carries or a firing rule assigns, sorted and distinct; nothing else moves. */
  lemma CategorizedMeaning(intake: Intake, rules: seq<Rule>, e: ScrapedEvent)
    ensures var r := Categorized(intake, rules, e);
      && Clean(r.categories)
      && (forall c :: c in r.categories
           <==> exists raw ::
                  Assigned(intake, rules, e, raw) && Slugify(intake, raw) != "" && c == Qualify(intake, raw))
  {
    var names := ApplyRules(intake, rules, e).categories;
    ApplyRulesMembers(intake, rules, e);
    QualifyAllMembers(intake, names);
    SortedSetSpec(QualifyAll(intake, names));
    forall c | c in Categorized(intake, rules, e).categories ensures c != "" && ',' !in c {
      var raw :| raw in names && Slugify(intake, raw) != "" && c == Qualify(intake, raw);
      QualifyShape(intake, raw);
    }
  }

  /** The order in which rules are configured does not matter. */
  lemma RuleOrderIrrelevant(intake: Intake, r1: seq<Rule>, r2: seq<Rule>, e: ScrapedEvent)
    requires forall r :: r in r1 <==> r in r2
    ensures Categorized(intake, r1, e) == Categorized(intake, r2, e)
  {
    CategorizedMeaning(intake, r1, e);
    CategorizedMeaning(intake, r2, e);
    forall raw ensures Assigned(intake, r1, e, raw) <==> Assigned(intake, r2, e, raw) {}
    SortedUnique(Categorized(intake, r1, e).categories, Categorized(intake, r2, e).categories);
  }

  // ---- the stage -------------------------------------------------------

  /** The stage as it runs: every rule over every event in place, then one qualifying pass. */
  method Apply(intake: Intake, rules: seq<Rule>, batch: array<ScrapedEvent>)
    modifies batch
    ensures forall k :: 0 <= k < batch.Length ==> batch[k] == Categorized(intake, rules, old(batch[k]))
  {
    ghost var was := batch[..];
    var r := 0;
    while r < |rules|
      invariant 0 <= r <= |rules|
      invariant forall k :: 0 <= k < batch.Length ==> batch[k] == ApplyRules(intake, rules[..r], was[k])
    {
      assert Front(rules[..r + 1]) == rules[..r] && Last(rules[..r + 1]) == rules[r];
      var i := 0;
      while i < batch.Length
        invariant 0 <= i <= batch.Length
        invariant forall k :: 0 <= k < i ==> batch[k] == ApplyRules(intake, rules[..r + 1], was[k])
        invariant forall k :: i <= k < batch.Length ==> batch[k] == ApplyRules(intake, rules[..r], was[k])
      {
        batch[i] := ApplyRule(intake, rules[r], batch[i]);
        i := i + 1;
      }
      r := r + 1;
    }
    assert rules[..r] == rules;
    var i := 0;
    while i < batch.Length
      invariant 0 <= i <= batch.Length
      invariant forall k :: 0 <= k < i ==> batch[k] == Categorized(intake, rules, was[k])
      invariant forall k :: i <= k < batch.Length ==> batch[k] == ApplyRules(intake, rules, was[k])
    {
      ApplyRulesMembers(intake, rules, was[i]);
      batch[i] := batch[i].(categories := SortedSet(QualifyAll(intake, batch[i].categories)));
      i := i + 1;
    }
  }

  /** No rule looks at the images. */
  lemma {:induction false} RulesIgnoreImages(intake: Intake, rules: seq<Rule>, e: ScrapedEvent, images: seq<ImageRef>)
    ensures ApplyRules(intake, rules, e.(images := images)) == ApplyRules(intake, rules, e).(images := images)
  {
    if rules != [] {
      RulesIgnoreImages(intake, Front(rules), e, images);
      FiringIgnoresImages(intake, Last(rules), ApplyRules(intake, Front(rules), e), images);
    }
  }

  lemma FiringIgnoresImages(intake: Intake, rule: Rule, e: ScrapedEvent, images: seq<ImageRef>)
    ensures Fires(intake, rule, e.(images := images)) == Fires(intake, rule, e)
  {
    assert forall f :: TextOf(e.(images := images), f) == TextOf(e, f);
  }
}
