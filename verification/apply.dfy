/**
 Applying a resolved theme to the page (`applyTheme`, `setCSSVariables`,
 `setDerivedColors`) and the constructor's whole run (`init`). The page is
 the body's class list, the hero's class list (the hero may be missing)
 and the root element's inline style properties. The hero is taken to be
 an element other than the body.

 A category that resolved to `undefined` makes the source throw a
 `TypeError` part-way through; the model returns `Threw` with the page as
 it was left at that point.
 */
module ThemeApply {
  import opened Wrappers
  import opened KeyValueStore
  import opened ClassList
  import opened Catalog
  import opened ThemeSelection

  datatype Document = Document(body: seq<string>, hero: Option<seq<string>>, style: map<string, string>)

  datatype Outcome = Applied(doc: Document) | Threw(doc: Document)

  /** The scheme whose derived colours are the fixed dark palette. */
  const DarkSchemeName := "dark-mode"

  /** The eight style properties the theme sets on the root element. */
  function CssVariableNames(): set<string> {
    {"--primary-color", "--secondary-color", "--accent-color", "--background-color",
     "--text-color", "--text-light", "--card-bg", "--card-border"}
  }

  /** `setCSSVariables`: the scheme's four colours under the four base names. */
  function BaseColors(p: Palette): (r: map<string, string>)
    ensures r.Keys == {"--primary-color", "--secondary-color", "--accent-color", "--background-color"}
    ensures && r["--primary-color"] == p.primary && r["--secondary-color"] == p.secondary
            && r["--accent-color"] == p.accent && r["--background-color"] == p.background
  {
    map["--primary-color" := p.primary, "--secondary-color" := p.secondary,
        "--accent-color" := p.accent, "--background-color" := p.background]
  }

  /** `setDerivedColors`: a fixed palette for the dark scheme, the scheme's own colours otherwise. */
  function DerivedColors(schemeName: string, p: Palette): (r: map<string, string>)
    ensures r.Keys == {"--text-color", "--text-light", "--card-bg", "--card-border"}
    ensures schemeName == DarkSchemeName ==>
              && r["--text-color"] == "#ffffff" && r["--text-light"] == "#b0b0b0"
              && r["--card-bg"] == "#1e1e1e" && r["--card-border"] == "#333333"
    ensures schemeName != DarkSchemeName ==>
              && r["--text-color"] == p.primary && r["--text-light"] == p.secondary
              && r["--card-bg"] == "rgba(0, 0, 0, 0.02)" && r["--card-border"] == "rgba(0, 0, 0, 0.08)"
  {
    if schemeName == DarkSchemeName then
      map["--text-color" := "#ffffff", "--text-light" := "#b0b0b0",
          "--card-bg" := "#1e1e1e", "--card-border" := "#333333"]
    else
      map["--text-color" := p.primary, "--text-light" := p.secondary,
          "--card-bg" := "rgba(0, 0, 0, 0.02)", "--card-border" := "rgba(0, 0, 0, 0.08)"]
  }

  /** All eight properties; the base and derived names do not overlap, so neither set overrides the other. */
  function CssVariables(schemeName: string, p: Palette): (r: map<string, string>)
    ensures r.Keys == CssVariableNames()
    ensures forall k :: k in BaseColors(p) ==> r[k] == BaseColors(p)[k]
    ensures forall k :: k in DerivedColors(schemeName, p) ==> r[k] == DerivedColors(schemeName, p)[k]
  {
    var base := BaseColors(p);
    var derived := DerivedColors(schemeName, p);
    assert base.Keys !! derived.Keys;
    base + derived
  }

  /** The variants whose classes go on the body, in the order they are added. */
  function BodyVariants(s: Selection): seq<Option<Variant>> {
    [s.color, s.layout, s.animation, s.font]
  }

  /** The classes added before the first `undefined` variant throws. */
  function LeadingClasses(vs: seq<Option<Variant>>): (r: seq<string>)
    ensures |r| <= |vs|
    ensures forall i :: 0 <= i < |r| ==> vs[i].Some? && r[i] == vs[i].value.cssClass
    ensures |r| < |vs| ==> vs[|r|].None?
  {
    if |vs| == 0 || vs[0].None? then []
    else [vs[0].value.cssClass] + LeadingClasses(vs[1..])
  }

  /** All four body classes are added exactly when all four body variants are defined. */
  lemma LeadingClassesOfBody(s: Selection)
    ensures |LeadingClasses(BodyVariants(s))| == 4 <==>
              s.color.Some? && s.layout.Some? && s.animation.Some? && s.font.Some?
    ensures |LeadingClasses(BodyVariants(s))| == 4 ==>
              LeadingClasses(BodyVariants(s))
              == [s.color.value.cssClass, s.layout.value.cssClass, s.animation.value.cssClass, s.font.value.cssClass]
  {
    var vs := BodyVariants(s);
    var r := LeadingClasses(vs);
    if |r| == 4 {
      assert vs[0].Some? && vs[1].Some? && vs[2].Some? && vs[3].Some?;
    } else {
      assert vs[|r|].None?;
    }
  }

  /** `applyTheme()` followed by `setCSSVariables()`, run against `doc`. */
  function ApplyTheme(doc: Document, s: Selection): (r: Outcome)
    ensures r.doc.hero.Some? <==> doc.hero.Some?
    ensures r.Applied? <==>
              && s.color.Some? && s.layout.Some? && s.animation.Some? && s.font.Some?
              && (doc.hero.Some? ==> s.pattern.Some?)
              && s.color.value.colors.Some?
    ensures r.Threw? ==> r.doc.style == doc.style
  {
    LeadingClassesOfBody(s);
    var stripped := Without(doc.body, ThemePrefixes);
    var leading := LeadingClasses(BodyVariants(s));
    var body := AddClasses(stripped, leading);
    if |leading| < 4 then Threw(doc.(body := body))
    else
      var hero := if doc.hero.Some? then Some(Without(doc.hero.value, PatternPrefixes)) else None;
      if hero.Some? && s.pattern.None? then Threw(doc.(body := body, hero := hero))
      else
        var hero' := if hero.Some? then Some(AddClass(hero.value, s.pattern.value.cssClass)) else None;
        var scheme := s.color.value;
        if scheme.colors.None? then Threw(doc.(body := body, hero := hero'))
        else Applied(Document(body, hero', doc.style + CssVariables(scheme.name, scheme.colors.value)))
  }

  /** The four body classes of a selection whose body variants are all defined. */
  function ThemeClasses(s: Selection): seq<string>
    requires s.color.Some? && s.layout.Some? && s.animation.Some? && s.font.Some?
  {
    [s.color.value.cssClass, s.layout.value.cssClass, s.animation.value.cssClass, s.font.value.cssClass]
  }

  /** Every class the body step may add is a system-owned one. */
  lemma LeadingClassesOwned(s: Selection)
    requires WellFormedSelection(s)
    ensures forall i :: 0 <= i < |LeadingClasses(BodyVariants(s))| ==>
              HasAnyPrefix(LeadingClasses(BodyVariants(s))[i], ThemePrefixes)
  {
    var vs := BodyVariants(s);
    var leading := LeadingClasses(vs);
    PrefixStrippedFromBody(ColorScheme);
    PrefixStrippedFromBody(Layout);
    PrefixStrippedFromBody(Animation);
    PrefixStrippedFromBody(Font);
    forall i | 0 <= i < |leading|
      ensures HasAnyPrefix(leading[i], ThemePrefixes)
    {
      assert vs[i].Some? && leading[i] == vs[i].value.cssClass;
    }
  }

  /**
   Whatever happens, even when the run throws, every body token the theme
   does not own survives in its original order and no other unowned token
   appears.
   */
  lemma ApplyKeepsUserClasses(doc: Document, s: Selection)
    requires WellFormedSelection(s)
    ensures Without(ApplyTheme(doc, s).doc.body, ThemePrefixes) == Without(doc.body, ThemePrefixes)
  {
    LeadingClassesOwned(s);
    AddOwnedKeepsUnowned(Without(doc.body, ThemePrefixes), LeadingClasses(BodyVariants(s)), ThemePrefixes);
  }


  /** A class marked by a body category's prefix is stripped from the body and is not a pattern class. */
  lemma BodyCategoryClass(tok: string, c: Category)
    requires c != Pattern && StartsWith(tok, Prefix(c))
    ensures HasAnyPrefix(tok, ThemePrefixes)
    ensures !StartsWith(tok, Prefix(Pattern))
  {
    PrefixStrippedFromBody(c);
    if StartsWith(tok, Prefix(Pattern)) {
      PrefixesExclusive(tok, c, Pattern);
    }
  }

  /** Classes marked by different categories' prefixes differ. */
  lemma ClassesOfDifferentCategories(x: string, c: Category, y: string, d: Category)
    requires c != d && StartsWith(x, Prefix(c)) && StartsWith(y, Prefix(d))
    ensures x != y
  {
    if x == y {
      PrefixesExclusive(x, c, d);
    }
  }

  /** The four body classes carry four different prefixes, so they are distinct and none is a pattern class. */
  lemma ThemeClassesShape(s: Selection)
    requires Complete(s) && WellFormedSelection(s)
    ensures Distinct(ThemeClasses(s))
    ensures forall i :: 0 <= i < 4 ==> HasAnyPrefix(ThemeClasses(s)[i], ThemePrefixes)
    ensures forall i :: 0 <= i < 4 ==> !StartsWith(ThemeClasses(s)[i], Prefix(Pattern))
  {
    var cs := ThemeClasses(s);
    var cats := [ColorScheme, Layout, Animation, Font];
    forall i | 0 <= i < 4
      ensures StartsWith(cs[i], Prefix(cats[i])) && cats[i] != Pattern
    {
      assert i in {0, 1, 2, 3};
    }
    forall i | 0 <= i < 4
      ensures HasAnyPrefix(cs[i], ThemePrefixes) && !StartsWith(cs[i], Prefix(Pattern))
    {
      BodyCategoryClass(cs[i], cats[i]);
    }
    forall i, j | 0 <= i < j < 4
      ensures cs[i] != cs[j]
    {
      ClassesOfDifferentCategories(cs[i], cats[i], cs[j], cats[j]);
    }
  }

  /** A fully resolved theme never throws. */
  lemma ApplyCompleteSucceeds(doc: Document, s: Selection)
    requires Complete(s) && WellFormedSelection(s)
    ensures ApplyTheme(doc, s).Applied?
  {
    LeadingClassesOfBody(s);
  }

  /** After a complete run the body is its unowned tokens followed by the four selected classes. */
  lemma ApplyCompleteBody(doc: Document, s: Selection)
    requires Complete(s) && WellFormedSelection(s)
    ensures ApplyTheme(doc, s).doc.body == Without(doc.body, ThemePrefixes) + ThemeClasses(s)
  {
    LeadingClassesOfBody(s);
    var stripped := Without(doc.body, ThemePrefixes);
    var cs := ThemeClasses(s);
    assert ApplyTheme(doc, s).doc.body == AddClasses(stripped, cs);
    ThemeClassesShape(s);
    forall i | 0 <= i < |cs|
      ensures cs[i] !in stripped
    {
    }
    AddClassesFresh(stripped, cs);
  }

  /** After a complete run the hero, when present, is its non-pattern tokens followed by the pattern class. */
  lemma ApplyCompleteHero(doc: Document, s: Selection)
    requires Complete(s) && WellFormedSelection(s)
    requires doc.hero.Some?
    ensures ApplyTheme(doc, s).doc.hero == Some(Without(doc.hero.value, PatternPrefixes) + [s.pattern.value.cssClass])
  {
    LeadingClassesOfBody(s);
    var h := Without(doc.hero.value, PatternPrefixes);
    var pc := s.pattern.value.cssClass;
    assert ApplyTheme(doc, s).doc.hero == Some(AddClass(h, pc));
    PatternClassOwned(s);
    assert pc !in h;
  }

  /** After a complete run the root style holds the eight colour properties; every other property is untouched. */
  lemma ApplyCompleteStyle(doc: Document, s: Selection)
    requires Complete(s) && WellFormedSelection(s)
    ensures ApplyTheme(doc, s).doc.style == doc.style + CssVariables(s.color.value.name, s.color.value.colors.value)
    ensures forall k :: k !in CssVariableNames() ==> SameAt(doc.style, ApplyTheme(doc, s).doc.style, k)
  {
    LeadingClassesOfBody(s);
  }

  /** Owned tokens on the body after a complete run are exactly the four selected classes; no pattern class is left there. */
  lemma ApplyBodyOwnership(doc: Document, s: Selection)
    requires Complete(s) && WellFormedSelection(s)
    ensures forall tok :: tok in ApplyTheme(doc, s).doc.body ==>
              (HasAnyPrefix(tok, ThemePrefixes) <==> tok in ThemeClasses(s))
    ensures forall tok :: tok in ApplyTheme(doc, s).doc.body ==> !StartsWith(tok, Prefix(Pattern))
  {
    ApplyCompleteBody(doc, s);
    ThemeClassesShape(s);
    var stripped := Without(doc.body, ThemePrefixes);
    assert ThemePrefixes[4] == Prefix(Pattern);
    forall tok | tok in stripped
      ensures !StartsWith(tok, Prefix(Pattern))
    {
    }
  }

  /** On the hero only pattern tokens are replaced: the selected pattern class is the one pattern token left. */
  lemma ApplyHeroOwnership(doc: Document, s: Selection)
    requires Complete(s) && WellFormedSelection(s)
    requires doc.hero.Some?
    ensures Without(ApplyTheme(doc, s).doc.hero.value, PatternPrefixes) == Without(doc.hero.value, PatternPrefixes)
    ensures forall tok :: tok in ApplyTheme(doc, s).doc.hero.value ==>
              (StartsWith(tok, Prefix(Pattern)) <==> tok == s.pattern.value.cssClass)
  {
    ApplyCompleteHero(doc, s);
    PatternClassOwned(s);
    PatternTokens(Without(doc.hero.value, PatternPrefixes), s.pattern.value.cssClass);
  }

  /** In unowned tokens followed by one pattern class, that class is the only pattern token and the filter gives the rest back. */
  lemma PatternTokens(base: seq<string>, pc: string)
    requires forall i :: 0 <= i < |base| ==> !HasAnyPrefix(base[i], PatternPrefixes)
    requires HasAnyPrefix(pc, PatternPrefixes)
    ensures Without(base + [pc], PatternPrefixes) == base
    ensures forall tok :: tok in base + [pc] ==> (StartsWith(tok, Prefix(Pattern)) <==> tok == pc)
  {
    assert PatternPrefixes[0] == Prefix(Pattern);
    WithoutAppend(base, [pc], PatternPrefixes);
    WithoutAllPrefixed([pc], PatternPrefixes);
    forall tok | tok in base
      ensures !StartsWith(tok, Prefix(Pattern))
    {
    }
  }

  /** Applying the same theme twice leaves the page as applying it once. */
  lemma ApplyIdempotent(doc: Document, s: Selection)
    requires Complete(s) && WellFormedSelection(s)
    ensures ApplyTheme(ApplyTheme(doc, s).doc, s) == ApplyTheme(doc, s)
  {
    var once := ApplyTheme(doc, s).doc;
    var twice := ApplyTheme(once, s).doc;
    ApplyCompleteSucceeds(doc, s);
    ApplyCompleteSucceeds(once, s);
    IdempotentBody(doc, s);
    IdempotentHero(doc, s);
    IdempotentStyle(doc, s);
    assert twice == once;
  }

  lemma IdempotentBody(doc: Document, s: Selection)
    requires Complete(s) && WellFormedSelection(s)
    ensures ApplyTheme(ApplyTheme(doc, s).doc, s).doc.body == ApplyTheme(doc, s).doc.body
  {
    var once := ApplyTheme(doc, s).doc;
    ApplyCompleteBody(doc, s);
    ApplyCompleteBody(once, s);
    ThemeClassesShape(s);
    RestripIdempotent(doc.body, ThemeClasses(s), ThemePrefixes);
  }

  lemma IdempotentHero(doc: Document, s: Selection)
    requires Complete(s) && WellFormedSelection(s)
    ensures ApplyTheme(ApplyTheme(doc, s).doc, s).doc.hero == ApplyTheme(doc, s).doc.hero
  {
    if doc.hero.Some? {
      ApplyCompleteHero(doc, s);
      ReapplyHero(ApplyTheme(doc, s).doc, s, Without(doc.hero.value, PatternPrefixes));
    }
  }

  /** A hero already holding unowned tokens followed by the selected pattern class is left as it is. */
  lemma ReapplyHero(doc: Document, s: Selection, base: seq<string>)
    requires Complete(s) && WellFormedSelection(s)
    requires doc.hero == Some(base + [s.pattern.value.cssClass])
    requires forall i :: 0 <= i < |base| ==> !HasAnyPrefix(base[i], PatternPrefixes)
    ensures ApplyTheme(doc, s).doc.hero == doc.hero
  {
    var pc := s.pattern.value.cssClass;
    ApplyCompleteHero(doc, s);
    PatternClassOwned(s);
    assert Without(base, PatternPrefixes) == base;
    WithoutAppend(base, [pc], PatternPrefixes);
    WithoutAllPrefixed([pc], PatternPrefixes);
    assert Without(doc.hero.value, PatternPrefixes) == base;
  }

  /** The selected pattern class is one the hero filter strips. */
  lemma PatternClassOwned(s: Selection)
    requires s.pattern.Some? && WellFormedSelection(s)
    ensures HasAnyPrefix(s.pattern.value.cssClass, PatternPrefixes)
  {
    assert PatternPrefixes[0] == Prefix(Pattern);
  }

  lemma IdempotentStyle(doc: Document, s: Selection)
    requires Complete(s) && WellFormedSelection(s)
    ensures ApplyTheme(ApplyTheme(doc, s).doc, s).doc.style == ApplyTheme(doc, s).doc.style
  {
    var once := ApplyTheme(doc, s).doc;
    ApplyCompleteStyle(doc, s);
    ApplyCompleteStyle(once, s);
    var vars := CssVariables(s.color.value.name, s.color.value.colors.value);
    assert doc.style + vars + vars == doc.style + vars;
  }

  /** Stripping owned tokens and appending owned classes is idempotent on any token list. */
  lemma RestripIdempotent(toks: seq<string>, cs: seq<string>, prefixes: seq<string>)
    requires forall i :: 0 <= i < |cs| ==> HasAnyPrefix(cs[i], prefixes)
    ensures Without(Without(toks, prefixes) + cs, prefixes) == Without(toks, prefixes)
  {
    WithoutAppend(Without(toks, prefixes), cs, prefixes);
    WithoutAllPrefixed(cs, prefixes);
  }

  /** The dark palette's derived colours do not depend on the scheme's own colours. */
  lemma DarkDerivedColorsFixed(p: Palette, q: Palette)
    ensures var a := CssVariables(DarkSchemeName, p);
            var b := CssVariables(DarkSchemeName, q);
            && a["--text-color"] == b["--text-color"] && a["--text-light"] == b["--text-light"]
            && a["--card-bg"] == b["--card-bg"] && a["--card-border"] == b["--card-border"]
  {
  }

  /** For every shipped scheme the text colour is the scheme's primary colour (the dark one's primary is white). */
  lemma CatalogTextColorIsPrimary(v: Variant)
    requires v in Options(ColorScheme)
    ensures v.colors.Some?
    ensures CssVariables(v.name, v.colors.value)["--text-color"] == v.colors.value.primary
  {
    CatalogWellFormed(ColorScheme);
    assert WellFormedVariant(ColorScheme, v);
    if v.name == DarkSchemeName {
      assert v == ColorSchemes[0];
    }
  }

  datatype Init = Init(selection: Selection, store: Store, outcome: Outcome)

  /**
   The constructor's `init()`: resolve the five categories, apply the
   theme, then log every variant's label. The log is I/O and not modelled,
   but reading `label` of an unresolved pattern throws there when the page
   has no hero (with a hero, `applyTheme` has already thrown).
   */
  function InitTheme(store: Store, doc: Document, d: Draws): (r: Init)
    requires ValidDraws(d)
    ensures r.outcome.Applied? ==> Complete(r.selection)
  {
    var res := ResolveTheme(store, d);
    var out := ApplyTheme(doc, res.selection);
    var out' := if out.Applied? && res.selection.pattern.None? then Threw(out.doc) else out;
    Init(res.selection, res.store, out')
  }

  /** Construction finishes exactly when every stored name resolved; otherwise it throws. */
  lemma InitSucceedsIffComplete(store: Store, doc: Document, d: Draws)
    requires ValidDraws(d)
    ensures InitTheme(store, doc, d).outcome.Applied? <==> Complete(InitTheme(store, doc, d).selection)
  {
    var sel := ResolveTheme(store, d).selection;
    ResolveThemeFrame(store, d);
    CatalogSelectionWellFormed(sel);
  }

  /** Even a run that throws keeps every unowned body token, in order. */
  lemma InitKeepsUserClasses(store: Store, doc: Document, d: Draws)
    requires ValidDraws(d)
    ensures Without(InitTheme(store, doc, d).outcome.doc.body, ThemePrefixes) == Without(doc.body, ThemePrefixes)
  {
    var sel := ResolveTheme(store, d).selection;
    ResolveThemeFrame(store, d);
    CatalogSelectionWellFormed(sel);
    ApplyKeepsUserClasses(doc, sel);
  }

  /**
   `window.resetPortfolioTheme()`: it constructs a `PortfolioTheme`, and
   only if construction finishes does it call `resetTheme()`. When
   construction throws, the store keeps whatever resolution left in it.
   */
  function ConsoleReset(store: Store, doc: Document, d: Draws): (r: Store)
    requires ValidDraws(d)
    ensures InitTheme(store, doc, d).outcome.Applied? ==> r == ResetTheme(store)
    ensures InitTheme(store, doc, d).outcome.Threw? ==> r == ResolveTheme(store, d).store
    ensures InitTheme(store, doc, d).outcome.Threw? ==> AgreeOutside(store, r, ThemeKeys())
  {
    var init := InitTheme(store, doc, d);
    ResolveThenReset(store, d);
    ResolveThemeFrame(store, d);
    if init.outcome.Applied? then ResetTheme(init.store) else init.store
  }

  /**
   The console reset cannot clear a stale stored name: constructing the
   theme throws first, so `portfolio_colorScheme` still holds the stale
   name and the store is not the reset one.
   */
  lemma StaleNameSurvivesConsoleReset(doc: Document, d: Draws)
    requires ValidDraws(d)
    ensures var store := map[CategoryKey(ColorScheme) := "purple-haze"];
            var r := ConsoleReset(store, doc, d);
            && CategoryKey(ColorScheme) in r
            && r[CategoryKey(ColorScheme)] == "purple-haze"
            && r != ResetTheme(store)
  {
    var store := map[CategoryKey(ColorScheme) := "purple-haze"];
    StaleColorSchemeThrows(doc, d);
    ResolveCategory(store, d, ColorScheme);
    assert CategoryKey(ColorScheme) !in ResetTheme(store);
  }

  /**
   The reset the helper is evidently meant to perform: the five keys go
   whether or not constructing the theme throws, so a stale name can
   always be cleared from the console.
   */
  function ConsoleResetIntended(store: Store, doc: Document, d: Draws): (r: Store)
    requires ValidDraws(d)
    ensures forall c: Category :: CategoryKey(c) !in r
    ensures AgreeOutside(store, r, ThemeKeys())
    ensures r == ResetTheme(store)
  {
    ResolveThenReset(store, d);
    ResetTheme(InitTheme(store, doc, d).store)
  }

  /** The intended reset agrees with the helper exactly when constructing the theme finishes. */
  lemma ConsoleResetIntendedAgrees(store: Store, doc: Document, d: Draws)
    requires ValidDraws(d)
    ensures InitTheme(store, doc, d).outcome.Applied? <==>
              ConsoleResetIntended(store, doc, d) == ConsoleReset(store, doc, d)
  {
    if InitTheme(store, doc, d).outcome.Threw? {
      ResolveCategory(store, d, ColorScheme);
      assert CategoryKey(ColorScheme) in ConsoleReset(store, doc, d);
    }
  }

  /** With no colour scheme the run throws at the first class it adds: owned classes gone, none added, style untouched. */
  lemma ApplyWithoutColorScheme(doc: Document, s: Selection)
    requires s.color.None?
    ensures ApplyTheme(doc, s).Threw?
    ensures ApplyTheme(doc, s).doc.body == Without(doc.body, ThemePrefixes)
    ensures ApplyTheme(doc, s).doc.style == doc.style
  {
    assert LeadingClasses(BodyVariants(s)) == [];
  }

  /**
   A stale colour-scheme name (here one that was never in the catalog)
   makes construction throw: the body has already lost its owned classes
   and gained none, and the root style is untouched.
   */
  lemma StaleColorSchemeThrows(doc: Document, d: Draws)
    requires ValidDraws(d)
    ensures var r := InitTheme(map[CategoryKey(ColorScheme) := "purple-haze"], doc, d);
            && r.selection.color.None?
            && r.outcome.Threw?
            && r.outcome.doc.body == Without(doc.body, ThemePrefixes)
            && r.outcome.doc.style == doc.style
  {
    var store := map[CategoryKey(ColorScheme) := "purple-haze"];
    StaleColorSchemeResolvesToNothing(d);
    ApplyWithoutColorScheme(doc, ResolveTheme(store, d).selection);
  }

  /**
   A returning visitor with `blue-tech` stored gets the Blue Tech scheme:
   primary and text colour `#0066cc`, background `#f0f8ff`.
   */
  lemma BlueTechExample(store: Store, doc: Document, d: Draws)
    requires ValidDraws(d)
    requires CategoryKey(ColorScheme) in store && store[CategoryKey(ColorScheme)] == "blue-tech"
    ensures var r := InitTheme(store, doc, d);
            && r.selection.color == Some(ColorSchemes[1])
            && (r.outcome.Applied? ==>
                  && "--primary-color" in r.outcome.doc.style
                  && r.outcome.doc.style["--primary-color"] == "#0066cc"
                  && "--background-color" in r.outcome.doc.style
                  && r.outcome.doc.style["--background-color"] == "#f0f8ff"
                  && "--text-color" in r.outcome.doc.style
                  && r.outcome.doc.style["--text-color"] == "#0066cc")
  {
    BlueTechResolves(store, d);
    var r := InitTheme(store, doc, d);
    if r.outcome.Applied? {
      ResolveThemeFrame(store, d);
      CatalogSelectionWellFormed(r.selection);
      ApplyCompleteStyle(doc, r.selection);
    }
  }

}
