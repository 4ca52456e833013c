/**
 The five fixed catalogs of visual variants the theme engine draws from:
 colour schemes, layouts, animation styles, fonts and background patterns.
 Every variant has a stable `name` (what is persisted), a `caption` (the source's `label`) for the
 console log, and a `cssClass` whose prefix names its category; colour
 schemes also carry a four-colour palette.
 */
module Catalog {
  import opened Wrappers
  import opened ClassList

  datatype Palette = Palette(primary: string, secondary: string, accent: string, background: string)

  datatype Variant = Variant(name: string, caption: string, cssClass: string, colors: Option<Palette>)

  datatype Category = ColorScheme | Layout | Animation | Font | Pattern

  /** A variant that carries no palette. */
  function Style(name: string, caption: string, cssClass: string): Variant {
    Variant(name, caption, cssClass, None)
  }

  const ColorSchemes: seq<Variant> := [
    Variant("dark-mode", "Dark Mode", "theme-dark",
            Some(Palette("#ffffff", "#e0e0e0", "#b0b0b0", "#121212"))),
    Variant("blue-tech", "Blue Tech", "theme-blue",
            Some(Palette("#0066cc", "#00bfff", "#0099ff", "#f0f8ff"))),
    Variant("warm-professional", "Warm Professional", "theme-warm",
            Some(Palette("#8b4513", "#cd853f", "#daa520", "#fffdd0"))),
    Variant("minimalist-green", "Minimalist Green", "theme-green",
            Some(Palette("#556b2f", "#6b8e23", "#7cb342", "#f5f5f0")))
  ]

  const LayoutStyles: seq<Variant> := [
    Style("left-aligned", "Left-aligned Hero", "layout-left-aligned"),
    Style("centered", "Centered Layout", "layout-centered"),
    Style("split-screen", "Split-screen Design", "layout-split-screen"),
    Style("card-based", "Card-based Sections", "layout-card-based")
  ]

  const AnimationStyles: seq<Variant> := [
    Style("fade", "Subtle Fade-ins", "animation-fade"),
    Style("slide", "Gentle Slide Animations", "animation-slide"),
    Style("scale", "Hover Scaling Effects", "animation-scale"),
    Style("typewriter", "Typewriter Text Effects", "animation-typewriter")
  ]

  const FontStyles: seq<Variant> := [
    Style("sans", "Modern Sans-serif", "font-sans"),
    Style("geometric", "Clean Geometric Fonts", "font-geometric"),
    Style("serif", "Professional Serif Headings", "font-serif")
  ]

  const BackgroundPatterns: seq<Variant> := [
    Style("geometric", "Subtle Geometric Patterns", "pattern-geometric"),
    Style("dotted", "Dotted Backgrounds", "pattern-dotted"),
    Style("gradient", "Gradient Overlays", "pattern-gradient"),
    Style("solid", "Clean Solid Colors", "pattern-solid")
  ]

  /** The catalog of a category. */
  function Options(c: Category): seq<Variant> {
    match c
    case ColorScheme => ColorSchemes
    case Layout => LayoutStyles
    case Animation => AnimationStyles
    case Font => FontStyles
    case Pattern => BackgroundPatterns
  }

  /** The category's name in its storage key (`portfolio_<key>`). */
  function Key(c: Category): string {
    match c
    case ColorScheme => "colorScheme"
    case Layout => "layout"
    case Animation => "animation"
    case Font => "font"
    case Pattern => "pattern"
  }

  /** The class prefix that marks a token as owned by the category. */
  function Prefix(c: Category): string {
    match c
    case ColorScheme => "theme-"
    case Layout => "layout-"
    case Animation => "animation-"
    case Font => "font-"
    case Pattern => "pattern-"
  }

  /** The prefixes stripped from the body's class list, in the order the filter tests them. */
  const ThemePrefixes: seq<string> := ["theme-", "layout-", "animation-", "font-", "pattern-"]

  /** The prefixes stripped from the hero's class list. */
  const PatternPrefixes: seq<string> := ["pattern-"]

  /** No two variants share a name, so a name identifies one variant. */
  predicate DistinctNames(options: seq<Variant>) {
    forall i, j :: 0 <= i < j < |options| ==> options[i].name != options[j].name
  }

  /** A catalog entry as the rest of the script relies on it. */
  predicate WellFormedVariant(c: Category, v: Variant) {
    && v.name != ""
    && StartsWith(v.cssClass, Prefix(c))
    && (v.colors.Some? <==> c == ColorScheme)
  }

  /** Each catalog is non-empty, has distinct names and only well-formed entries. */
  lemma CatalogWellFormed(c: Category)
    ensures |Options(c)| > 0
    ensures DistinctNames(Options(c))
    ensures forall v :: v in Options(c) ==> WellFormedVariant(c, v)
  {
    match c
    case ColorScheme => ColorSchemesWellFormed();
    case Layout => LayoutStylesWellFormed();
    case Animation => AnimationStylesWellFormed();
    case Font => FontStylesWellFormed();
    case Pattern => BackgroundPatternsWellFormed();
  }

  lemma ColorSchemesWellFormed()
    ensures DistinctNames(ColorSchemes)
    ensures forall v :: v in ColorSchemes ==> WellFormedVariant(ColorScheme, v)
  {
    assert ColorSchemes[0].name[0] == 'd' && ColorSchemes[1].name[0] == 'b';
    assert ColorSchemes[2].name[0] == 'w' && ColorSchemes[3].name[0] == 'm';
  }

  lemma LayoutStylesWellFormed()
    ensures DistinctNames(LayoutStyles)
    ensures forall v :: v in LayoutStyles ==> WellFormedVariant(Layout, v)
  {
    assert LayoutStyles[0].name[0] == 'l' && LayoutStyles[1].name[0] == 'c';
    assert LayoutStyles[2].name[0] == 's' && LayoutStyles[3].name[1] == 'a';
  }

  lemma AnimationStylesWellFormed()
    ensures DistinctNames(AnimationStyles)
    ensures forall v :: v in AnimationStyles ==> WellFormedVariant(Animation, v)
  {
    assert AnimationStyles[0].name[0] == 'f' && AnimationStyles[1].name[1] == 'l';
    assert AnimationStyles[2].name[1] == 'c' && AnimationStyles[3].name[0] == 't';
  }

  lemma FontStylesWellFormed()
    ensures DistinctNames(FontStyles)
    ensures forall v :: v in FontStyles ==> WellFormedVariant(Font, v)
  {
    assert FontStyles[0].name[1] == 'a' && FontStyles[1].name[0] == 'g';
    assert FontStyles[2].name[1] == 'e';
  }

  lemma BackgroundPatternsWellFormed()
    ensures DistinctNames(BackgroundPatterns)
    ensures forall v :: v in BackgroundPatterns ==> WellFormedVariant(Pattern, v)
  {
    assert BackgroundPatterns[0].name[0] == 'g' && BackgroundPatterns[1].name[0] == 'd';
    assert BackgroundPatterns[2].name[1] == 'r' && BackgroundPatterns[3].name[0] == 's';
  }

  /** A category's prefix is one of the prefixes stripped from the body. */
  lemma PrefixStrippedFromBody(c: Category)
    ensures exists i :: 0 <= i < |ThemePrefixes| && ThemePrefixes[i] == Prefix(c)
  {
    match c
    case ColorScheme => assert ThemePrefixes[0] == Prefix(c);
    case Layout => assert ThemePrefixes[1] == Prefix(c);
    case Animation => assert ThemePrefixes[2] == Prefix(c);
    case Font => assert ThemePrefixes[3] == Prefix(c);
    case Pattern => assert ThemePrefixes[4] == Prefix(c);
  }

  /** No token starts with the prefixes of two different categories. */
  lemma PrefixesExclusive(tok: string, c: Category, d: Category)
    requires StartsWith(tok, Prefix(c)) && StartsWith(tok, Prefix(d))
    ensures c == d
  {
    assert tok[0] == Prefix(c)[0] == Prefix(d)[0];
  }

  /** A catalog entry's class is system-owned: the body filter strips it. */
  lemma CatalogClassIsStripped(c: Category, v: Variant)
    requires v in Options(c)
    ensures StartsWith(v.cssClass, Prefix(c))
    ensures HasAnyPrefix(v.cssClass, ThemePrefixes)
  {
    CatalogWellFormed(c);
    PrefixStrippedFromBody(c);
  }
}
