/**
 Resolving the theme: for each category, reuse the variant whose name is
 persisted under `portfolio_<key>`, or draw one, persist its name and use
 it. `Math.random` becomes a caller-supplied draw in `[0, |options|)`.

 A persisted name that matches no catalog entry resolves to `None` (the
 source's `undefined`); there is no fallback to a fresh draw.
 */
module ThemeSelection {
  import opened Wrappers
  import opened KeyValueStore
  import opened Catalog

  /** The storage key of a category key: `portfolio_${key}`. */
  function StorageKey(key: string): string {
    "portfolio_" + key
  }

  /** The storage key of a category. */
  function CategoryKey(c: Category): string {
    StorageKey(Key(c))
  }

  /** The five keys the theme engine owns. */
  function ThemeKeys(): set<string> {
    {CategoryKey(ColorScheme), CategoryKey(Layout), CategoryKey(Animation),
     CategoryKey(Font), CategoryKey(Pattern)}
  }

  /** A category's storage key is one of the theme keys. */
  lemma CategoryKeyIsThemeKey(c: Category)
    ensures CategoryKey(c) in ThemeKeys()
  {
    match c
    case ColorScheme =>
    case Layout =>
    case Animation =>
    case Font =>
    case Pattern =>
  }

  /** Different categories never share a storage key. */
  lemma CategoryKeysDistinct(c: Category, d: Category)
    requires c != d
    ensures CategoryKey(c) != CategoryKey(d)
  {
    assert CategoryKey(c)[10] == Key(c)[0];
    assert CategoryKey(d)[10] == Key(d)[0];
  }

  /** `options.find(opt => opt.name === name)`: the first entry with that name. */
  function FindByName(options: seq<Variant>, name: string): (r: Option<Variant>)
    ensures r.None? <==> forall i :: 0 <= i < |options| ==> options[i].name != name
    ensures r.Some? ==> r.value in options && r.value.name == name
    ensures r.Some? ==> exists i :: 0 <= i < |options| && options[i] == r.value
                                    && forall j :: 0 <= j < i ==> options[j].name != name
  {
    if |options| == 0 then None
    else if options[0].name == name then Some(options[0])
    else
      var rest := FindByName(options[1..], name);
      assert forall i :: 0 < i < |options| ==> options[i] == options[1..][i - 1];
      rest
  }

  /** With distinct names, looking up an entry's own name finds that entry. */
  lemma FindOwnName(options: seq<Variant>, k: nat)
    requires DistinctNames(options)
    requires k < |options|
    ensures FindByName(options, options[k].name) == Some(options[k])
  {
    var r := FindByName(options, options[k].name);
    var i :| 0 <= i < |options| && options[i] == r.value
             && forall j :: 0 <= j < i ==> options[j].name != options[k].name;
    assert i <= k;
  }

  /** JavaScript's `!stored`: no item, or the empty string. */
  predicate Unset(store: Store, key: string) {
    key !in store || store[key] == ""
  }

  datatype Pick = Pick(choice: Option<Variant>, store: Store)

  /** `getOrCreateSelection(key, options)`, with `draw` standing for the random index. */
  function GetOrCreateSelection(store: Store, key: string, options: seq<Variant>, draw: nat): (r: Pick)
    requires draw < |options|
    ensures AgreeOutside(store, r.store, {StorageKey(key)})
    ensures StorageKey(key) in r.store
    ensures r.choice == FindByName(options, r.store[StorageKey(key)])
    ensures Unset(store, StorageKey(key)) ==> r.store[StorageKey(key)] == options[draw].name
    ensures Unset(store, StorageKey(key)) ==> r.choice.Some? && r.choice.value.name == options[draw].name
    ensures Unset(store, StorageKey(key)) && DistinctNames(options) ==> r.choice == Some(options[draw])
    ensures !Unset(store, StorageKey(key)) ==> r.store == store
    ensures !Unset(store, StorageKey(key)) ==>
              (r.choice.None? <==> forall i :: 0 <= i < |options| ==> options[i].name != store[StorageKey(key)])
  {
    var storageKey := StorageKey(key);
    var stored := GetItem(store, storageKey);
    if stored.None? || stored.value == "" then
      var name := options[draw].name;
      var store' := store[storageKey := name];
      if DistinctNames(options) then FindOwnName(options, draw); Pick(FindByName(options, name), store')
      else Pick(FindByName(options, name), store')
    else
      Pick(FindByName(options, stored.value), store)
  }

  /** Once a non-empty name is stored, asking again returns the same answer and writes nothing. */
  lemma SelectionSticky(store: Store, key: string, options: seq<Variant>, draw: nat, draw': nat)
    requires draw < |options| && draw' < |options|
    requires forall i :: 0 <= i < |options| ==> options[i].name != ""
    ensures GetOrCreateSelection(GetOrCreateSelection(store, key, options, draw).store, key, options, draw')
            == GetOrCreateSelection(store, key, options, draw)
  {
    var first := GetOrCreateSelection(store, key, options, draw);
    assert !Unset(first.store, StorageKey(key));
  }

  /** `purple-haze` names no colour scheme. */
  lemma PurpleHazeIsUnknown()
    ensures FindByName(Options(ColorScheme), "purple-haze") == None
  {
    assert "purple-haze"[0] == 'p';
    assert ColorSchemes[0].name[0] == 'd' && ColorSchemes[1].name[0] == 'b';
    assert ColorSchemes[2].name[0] == 'w' && ColorSchemes[3].name[0] == 'm';
  }

  /** A stale name (one no longer in the catalog) resolves to nothing, with no fallback draw. */
  lemma StaleNameResolvesToNothing(draw: nat)
    requires draw < |ColorSchemes|
    ensures var store := map[StorageKey("colorScheme") := "purple-haze"];
            GetOrCreateSelection(store, "colorScheme", ColorSchemes, draw) == Pick(None, store)
  {
    PurpleHazeIsUnknown();
  }

  /** The random draws, one per category, used only where nothing is stored. */
  datatype Draws = Draws(color: nat, layout: nat, animation: nat, font: nat, pattern: nat)

  /** Each draw is an index into its category's catalog, as `Math.floor(Math.random() * options.length)` is. */
  ghost predicate ValidDraws(d: Draws) {
    forall c: Category :: DrawFor(d, c) < |Options(c)|
  }

  function DrawFor(d: Draws, c: Category): nat {
    match c
    case ColorScheme => d.color
    case Layout => d.layout
    case Animation => d.animation
    case Font => d.font
    case Pattern => d.pattern
  }

  /** The five `selected*` fields; `None` where a stale name resolved to `undefined`. */
  datatype Selection = Selection(color: Option<Variant>, layout: Option<Variant>, animation: Option<Variant>,
                                 font: Option<Variant>, pattern: Option<Variant>)

  function Chosen(s: Selection, c: Category): Option<Variant> {
    match c
    case ColorScheme => s.color
    case Layout => s.layout
    case Animation => s.animation
    case Font => s.font
    case Pattern => s.pattern
  }

  /** Every category resolved to a variant. */
  predicate Complete(s: Selection) {
    s.color.Some? && s.layout.Some? && s.animation.Some? && s.font.Some? && s.pattern.Some?
  }

  /** Whatever was resolved comes from its own category's catalog. */
  predicate FromCatalogs(s: Selection) {
    && (s.color.Some? ==> s.color.value in Options(ColorScheme))
    && (s.layout.Some? ==> s.layout.value in Options(Layout))
    && (s.animation.Some? ==> s.animation.value in Options(Animation))
    && (s.font.Some? ==> s.font.value in Options(Font))
    && (s.pattern.Some? ==> s.pattern.value in Options(Pattern))
  }

  /** Every resolved variant is a well-formed entry of its category. */
  predicate WellFormedSelection(s: Selection) {
    && (s.color.Some? ==> WellFormedVariant(ColorScheme, s.color.value))
    && (s.layout.Some? ==> WellFormedVariant(Layout, s.layout.value))
    && (s.animation.Some? ==> WellFormedVariant(Animation, s.animation.value))
    && (s.font.Some? ==> WellFormedVariant(Font, s.font.value))
    && (s.pattern.Some? ==> WellFormedVariant(Pattern, s.pattern.value))
  }

  /** Catalog entries are well formed, so a selection drawn from the catalogs is. */
  lemma CatalogSelectionWellFormed(s: Selection)
    requires FromCatalogs(s)
    ensures WellFormedSelection(s)
  {
    CatalogWellFormed(ColorScheme);
    CatalogWellFormed(Layout);
    CatalogWellFormed(Animation);
    CatalogWellFormed(Font);
    CatalogWellFormed(Pattern);
  }

  datatype Resolution = Resolution(selection: Selection, store: Store)

  /** One `getOrCreateSelection` call for a category. */
  function Resolve(store: Store, d: Draws, c: Category): (r: Pick)
    requires ValidDraws(d)
    ensures AgreeOutside(store, r.store, ThemeKeys())
    ensures r.choice.Some? ==> r.choice.value in Options(c)
  {
    CategoryKeyIsThemeKey(c);
    GetOrCreateSelection(store, Key(c), Options(c), DrawFor(d, c))
  }

  /** `init()`'s five calls, in source order, threading the store through. */
  function ResolveTheme(store: Store, d: Draws): (r: Resolution)
    requires ValidDraws(d)
  {
    var p1 := Resolve(store, d, ColorScheme);
    var p2 := Resolve(p1.store, d, Layout);
    var p3 := Resolve(p2.store, d, Animation);
    var p4 := Resolve(p3.store, d, Font);
    var p5 := Resolve(p4.store, d, Pattern);
    Resolution(Selection(p1.choice, p2.choice, p3.choice, p4.choice, p5.choice), p5.store)
  }

  /** Resolution writes only the theme's own keys and yields only catalog entries. */
  lemma ResolveThemeFrame(store: Store, d: Draws)
    requires ValidDraws(d)
    ensures AgreeOutside(store, ResolveTheme(store, d).store, ThemeKeys())
    ensures FromCatalogs(ResolveTheme(store, d).selection)
  {
    var p1 := Resolve(store, d, ColorScheme);
    var p2 := Resolve(p1.store, d, Layout);
    var p3 := Resolve(p2.store, d, Animation);
    var p4 := Resolve(p3.store, d, Font);
    var p5 := Resolve(p4.store, d, Pattern);
    var r := ResolveTheme(store, d);
    assert r.store == p5.store;
    forall k | k !in ThemeKeys()
      ensures SameAt(store, r.store, k)
    {
      assert SameAt(store, p1.store, k) && SameAt(p1.store, p2.store, k) && SameAt(p2.store, p3.store, k);
      assert SameAt(p3.store, p4.store, k) && SameAt(p4.store, p5.store, k);
    }
    assert r.selection.color == p1.choice;
    assert r.selection.layout == p2.choice;
    assert r.selection.animation == p3.choice;
    assert r.selection.font == p4.choice;
    assert r.selection.pattern == p5.choice;
  }

  /** A category's step leaves every other category's key alone. */
  lemma ResolveLeavesOthers(store: Store, d: Draws, step: Category, c: Category)
    requires ValidDraws(d)
    requires step != c
    ensures SameAt(store, Resolve(store, d, step).store, CategoryKey(c))
  {
    CategoryKeysDistinct(step, c);
  }

  /**
   What resolution does for one category: afterwards a non-empty name is
   stored and the chosen variant is the lookup of that name; a missing or
   empty entry is replaced by the drawn entry's name (and that entry is
   chosen), a non-empty one is kept as it was.
   */
  lemma ResolveCategory(store: Store, d: Draws, c: Category)
    requires ValidDraws(d)
    ensures var r := ResolveTheme(store, d);
            && !Unset(r.store, CategoryKey(c))
            && Chosen(r.selection, c) == FindByName(Options(c), r.store[CategoryKey(c)])
            && (Unset(store, CategoryKey(c)) ==>
                  && r.store[CategoryKey(c)] == Options(c)[DrawFor(d, c)].name
                  && Chosen(r.selection, c) == Some(Options(c)[DrawFor(d, c)]))
            && (!Unset(store, CategoryKey(c)) ==> r.store[CategoryKey(c)] == store[CategoryKey(c)])
  {
    var k := CategoryKey(c);
    var p1 := Resolve(store, d, ColorScheme);
    var p2 := Resolve(p1.store, d, Layout);
    var p3 := Resolve(p2.store, d, Animation);
    var p4 := Resolve(p3.store, d, Font);
    var p5 := Resolve(p4.store, d, Pattern);
    var r := ResolveTheme(store, d);
    assert r.store == p5.store;
    // The store just before, and just after, this category's own step.
    var before: Store, mine: Pick;
    match c {
      case ColorScheme =>
        before, mine := store, p1;
        ResolveLeavesOthers(p1.store, d, Layout, c);
        ResolveLeavesOthers(p2.store, d, Animation, c);
        ResolveLeavesOthers(p3.store, d, Font, c);
        ResolveLeavesOthers(p4.store, d, Pattern, c);
      case Layout =>
        before, mine := p1.store, p2;
        ResolveLeavesOthers(store, d, ColorScheme, c);
        ResolveLeavesOthers(p2.store, d, Animation, c);
        ResolveLeavesOthers(p3.store, d, Font, c);
        ResolveLeavesOthers(p4.store, d, Pattern, c);
      case Animation =>
        before, mine := p2.store, p3;
        ResolveLeavesOthers(store, d, ColorScheme, c);
        ResolveLeavesOthers(p1.store, d, Layout, c);
        ResolveLeavesOthers(p3.store, d, Font, c);
        ResolveLeavesOthers(p4.store, d, Pattern, c);
      case Font =>
        before, mine := p3.store, p4;
        ResolveLeavesOthers(store, d, ColorScheme, c);
        ResolveLeavesOthers(p1.store, d, Layout, c);
        ResolveLeavesOthers(p2.store, d, Animation, c);
        ResolveLeavesOthers(p4.store, d, Pattern, c);
      case Pattern =>
        before, mine := p4.store, p5;
        ResolveLeavesOthers(store, d, ColorScheme, c);
        ResolveLeavesOthers(p1.store, d, Layout, c);
        ResolveLeavesOthers(p2.store, d, Animation, c);
        ResolveLeavesOthers(p3.store, d, Font, c);
    }
    OwnStep(store, before, r.store, d, c);
    assert Chosen(r.selection, c) == mine.choice;
  }

  /** The category's own step, seen through stores that agree with its input and output on that key. */
  lemma OwnStep(store: Store, before: Store, final: Store, d: Draws, c: Category)
    requires ValidDraws(d)
    requires SameAt(store, before, CategoryKey(c))
    requires SameAt(Resolve(before, d, c).store, final, CategoryKey(c))
    ensures var mine := Resolve(before, d, c);
            && !Unset(final, CategoryKey(c))
            && mine.choice == FindByName(Options(c), final[CategoryKey(c)])
            && (Unset(store, CategoryKey(c)) ==>
                  && final[CategoryKey(c)] == Options(c)[DrawFor(d, c)].name
                  && mine.choice == Some(Options(c)[DrawFor(d, c)]))
            && (!Unset(store, CategoryKey(c)) ==> final[CategoryKey(c)] == store[CategoryKey(c)])
  {
    CatalogWellFormed(c);
    var k := CategoryKey(c);
    var mine := Resolve(before, d, c);
    assert mine.store[k] != "" by {
      assert mine.store[k] in {Options(c)[DrawFor(d, c)].name} || mine.store[k] == before[k];
    }
  }

  /** Two stores that agree outside the theme keys and on every category's key are equal. */
  lemma StoresEqual(a: Store, b: Store)
    requires AgreeOutside(a, b, ThemeKeys())
    requires forall c: Category :: SameAt(a, b, CategoryKey(c))
    ensures a == b
  {
    forall k
      ensures k in a <==> k in b
      ensures k in a ==> a[k] == b[k]
    {
      if k in ThemeKeys() {
        var c :| c in {ColorScheme, Layout, Animation, Font, Pattern} && k == CategoryKey(c);
        assert SameAt(a, b, CategoryKey(c));
      } else {
        assert SameAt(a, b, k);
      }
    }
  }

  /** Two selections that choose alike in every category are equal. */
  lemma SelectionsEqual(s: Selection, t: Selection)
    requires forall c: Category :: Chosen(s, c) == Chosen(t, c)
    ensures s == t
  {
    assert Chosen(s, ColorScheme) == Chosen(t, ColorScheme);
    assert Chosen(s, Layout) == Chosen(t, Layout);
    assert Chosen(s, Animation) == Chosen(t, Animation);
    assert Chosen(s, Font) == Chosen(t, Font);
    assert Chosen(s, Pattern) == Chosen(t, Pattern);
  }

  /** Resolving again on the store a resolution left behind changes nothing and resolves the same theme. */
  lemma ResolveSticky(store: Store, d: Draws, d': Draws)
    requires ValidDraws(d) && ValidDraws(d')
    ensures ResolveTheme(ResolveTheme(store, d).store, d') == ResolveTheme(store, d)
  {
    var r1 := ResolveTheme(store, d);
    var r2 := ResolveTheme(r1.store, d');
    ResolveThemeFrame(r1.store, d');
    forall c: Category
      ensures SameAt(r1.store, r2.store, CategoryKey(c))
      ensures Chosen(r2.selection, c) == Chosen(r1.selection, c)
    {
      ResolveCategory(store, d, c);
      ResolveCategory(r1.store, d', c);
    }
    StoresEqual(r1.store, r2.store);
    SelectionsEqual(r2.selection, r1.selection);
  }

  /** `resetTheme()`: removes the five theme keys and nothing else. */
  function ResetTheme(store: Store): (r: Store)
    ensures forall c: Category :: CategoryKey(c) !in r
    ensures AgreeOutside(store, r, ThemeKeys())
  {
    store - ThemeKeys()
  }

  /** After a reset every category is drawn afresh: the theme is exactly the drawn entries. */
  lemma ResolveAfterReset(store: Store, d: Draws, c: Category)
    requires ValidDraws(d)
    ensures Chosen(ResolveTheme(ResetTheme(store), d).selection, c) == Some(Options(c)[DrawFor(d, c)])
  {
    ResolveCategory(ResetTheme(store), d, c);
  }

  /** Stores that differ only under the theme keys are equal once reset. */
  lemma ResetForgetsThemeKeys(a: Store, b: Store)
    requires AgreeOutside(a, b, ThemeKeys())
    ensures ResetTheme(a) == ResetTheme(b)
  {
    var ra := ResetTheme(a);
    var rb := ResetTheme(b);
    forall k
      ensures SameAt(ra, rb, k)
    {
      if k !in ThemeKeys() {
        assert SameAt(a, b, k);
      }
    }
    assert ra.Keys == rb.Keys;
  }

  /** Resolving (which may write the five keys) and then resetting leaves the store as a plain reset does. */
  lemma ResolveThenReset(store: Store, d: Draws)
    requires ValidDraws(d)
    ensures ResetTheme(ResolveTheme(store, d).store) == ResetTheme(store)
  {
    ResolveThemeFrame(store, d);
    ResetForgetsThemeKeys(ResolveTheme(store, d).store, store);
  }

  /** In a full resolution, a stale colour-scheme name leaves the colour scheme unresolved. */
  lemma StaleColorSchemeResolvesToNothing(d: Draws)
    requires ValidDraws(d)
    ensures ResolveTheme(map[CategoryKey(ColorScheme) := "purple-haze"], d).selection.color.None?
  {
    var store := map[CategoryKey(ColorScheme) := "purple-haze"];
    ResolveCategory(store, d, ColorScheme);
    PurpleHazeIsUnknown();
  }

  /** A stored `blue-tech` resolves to the Blue Tech entry of the catalog. */
  lemma BlueTechResolves(store: Store, d: Draws)
    requires ValidDraws(d)
    requires CategoryKey(ColorScheme) in store && store[CategoryKey(ColorScheme)] == "blue-tech"
    ensures ResolveTheme(store, d).selection.color == Some(ColorSchemes[1])
  {
    ResolveCategory(store, d, ColorScheme);
    CatalogWellFormed(ColorScheme);
    FindOwnName(Options(ColorScheme), 1);
  }
}
