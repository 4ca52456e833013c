# Portfolio theme engine and page behaviours, in Dafny

`script.js` drives a personal portfolio page. This project models its
non-trivial logic as pure Dafny functions, with proofs about them:

- **Theme selection** (`PortfolioTheme`). The script has five fixed catalogs:
  colour schemes, layouts, animation styles, fonts and background patterns.
  For each one, `getOrCreateSelection` reuses the variant name stored under
  `portfolio_<key>` in `localStorage`. When nothing is stored it draws one
  at random, stores its name and uses it. `resetTheme` forgets all five keys.
- **Theme application**. `applyTheme` strips every system-owned class from
  the body, using the prefixes `theme-`, `layout-`, `animation-`, `font-` and
  `pattern-`. It then adds the four selected body classes. On the hero it
  replaces the `pattern-` classes with the selected pattern.
  `setCSSVariables` and `setDerivedColors` write eight colour properties on
  the root element.
- **Navigation** (`NavigationManager`). The mobile-menu state machine has a
  flag, the navbar's `data-nav-open` attribute and the toggle's
  `aria-expanded`. The scroll-spy `updateActiveLink` picks the current
  section and marks the links that point at it.
- **Typewriter** (`TextEffectManager`). The hero title is cleared and
  retyped one character per tick, but only when the resolved animation is
  `typewriter`.

Modules follow the script's structure:

- `Wrappers`: `Option`.
- `KeyValueStore`: `localStorage` as a `map<string, string>`.
- `ClassList`: a class attribute as its sequence of tokens. It covers the
  prefix filter, `classList.add` (append when absent) and `classList.remove`.
- `Catalog`: the five catalogs, with the source's exact names, labels,
  classes and colours. The source's `label` field is called `caption`,
  because `label` is a Dafny keyword.
- `ThemeSelection`: `getOrCreateSelection`, the five calls of `init`,
  and `resetTheme`.
- `ThemeApply`: `applyTheme`, the colour variables, and the whole
  constructor run.
- `NavMenu`, `ScrollSpy` and `Typewriter`.

When a stored name no longer matches any catalog entry, the code has no
fallback: `options.find` returns `undefined`, and the model returns `None`
in that case. The selection then throws a `TypeError` in `applyTheme` or
in `logThemeInfo`, and the model shows this as a `Threw` outcome that
carries the page as it was left when the error happened.

`Math.random()` becomes a caller-supplied index into the catalog (`Draws`).
`localStorage` becomes a map passed in and returned. The DOM becomes a
`Document` value: the body's tokens, the hero's tokens (the hero may be
absent) and the root's style properties.

## Model

| member | source | states |
|---|---|---|
| KeyValueStore.GetItem | script.js:100 | `getItem` yields a value exactly when the key is present, and that value is the stored one |
| Catalog.CatalogWellFormed | script.js:7-79 | Every catalog is non-empty and its names are distinct. Each entry has a non-empty name and a class that starts with its category's prefix. Exactly the colour schemes carry a palette. |
| Catalog.ColorSchemesWellFormed | script.js:7-52 | The four colour schemes have distinct names and well-formed entries with palettes |
| Catalog.LayoutStylesWellFormed | script.js:54-59 | The four layouts have distinct names and `layout-` classes |
| Catalog.AnimationStylesWellFormed | script.js:61-66 | The four animation styles have distinct names and `animation-` classes |
| Catalog.FontStylesWellFormed | script.js:68-72 | The three fonts have distinct names and `font-` classes |
| Catalog.BackgroundPatternsWellFormed | script.js:74-79 | The four patterns have distinct names and `pattern-` classes |
| Catalog.PrefixStrippedFromBody | script.js:117-118 | Every category's prefix is one of the five that the body filter strips |
| Catalog.PrefixesExclusive | script.js:117-118 | No class starts with the prefixes of two different categories |
| Catalog.CatalogClassIsStripped | script.js:115-119 | Every catalog class is system-owned: the body filter removes it |
| ClassList.Without | script.js:115-119 | The filter never lengthens the list and keeps no prefixed token. A list with no prefixed token comes back unchanged. |
| ClassList.WithoutMembership | script.js:117-118 | A token survives the filter exactly when it was present and has none of the prefixes |
| ClassList.WithoutAppend | script.js:115-119 | Filtering commutes with concatenation, so the kept tokens stay in their original order |
| ClassList.WithoutIdempotent | script.js:115-119 | Filtering twice is the same as filtering once |
| ClassList.AddClass | script.js:122 | `classList.add` is a no-op when the token is already there, and otherwise appends exactly that one token |
| ClassList.AddClasses | script.js:122-125 | A run of adds keeps the old list as a prefix. It makes every added class present, and anything new is one of the added classes. |
| ClassList.AddClassesFresh | script.js:122-125 | Adding distinct classes, none of them already present, appends them in call order |
| ClassList.RemoveToken | script.js:285 | `classList.remove` drops every occurrence of the token and keeps every other token. It is a no-op when the token is absent. |
| ClassList.RemoveTokenAppend | script.js:285 | Removal commutes with concatenation |
| ClassList.RemoveThenAdd | script.js:285-289 | Removing a class, adding it back and removing it again leaves the list as after the first removal |
| ClassList.WithoutAllPrefixed | script.js:130-134 | A list made only of owned tokens filters to the empty list |
| ClassList.AddOwnedKeepsUnowned | script.js:115-125 | Adding only owned classes leaves the unowned tokens exactly as they were |
| ThemeSelection.CategoryKeyIsThemeKey | script.js:182-186 | Each category's storage key is one of the five keys that the reset removes |
| ThemeSelection.CategoryKeysDistinct | script.js:87-91 | The five `portfolio_<key>` keys are pairwise different |
| ThemeSelection.FindByName | script.js:108 | `find` yields nothing exactly when no entry has the name. Otherwise it yields an entry with that name, and no earlier entry has it. |
| ThemeSelection.FindOwnName | script.js:108 | When names are distinct, looking up an entry's own name yields that entry |
| ThemeSelection.GetOrCreateSelection | script.js:98-109 | Only `portfolio_<key>` may change. When missing or empty, it receives `options[draw].name` and that entry is returned. When set, the store is unchanged, and the result is none exactly when no entry has the stored name. |
| ThemeSelection.SelectionSticky | script.js:100-108 | A second call, whatever it draws, returns the same answer and store as the first |
| ThemeSelection.PurpleHazeIsUnknown | script.js:7-52 | `purple-haze` names no colour scheme |
| ThemeSelection.StaleNameResolvesToNothing | script.js:100-108 | A stored stale name resolves to nothing and the store is left as it was, with no fallback draw |
| ThemeSelection.CatalogSelectionWellFormed | script.js:85-91 | Variants drawn from the catalogs are well-formed entries of their own categories |
| ThemeSelection.Resolve | script.js:87-91 | One category's call writes only theme keys and yields only entries of that category's catalog |
| ThemeSelection.ResolveThemeFrame | script.js:85-91 | The five calls of `init` write only the five theme keys, and every resolved variant comes from its own catalog |
| ThemeSelection.ResolveLeavesOthers | script.js:87-91 | One category's call leaves every other category's key untouched |
| ThemeSelection.ResolveCategory | script.js:87-91 | After `init`, each key holds a non-empty name, and the chosen variant is the lookup of that name. A missing or empty key receives the drawn entry, which is chosen; a set key keeps its value. |
| ThemeSelection.OwnStep | script.js:98-108 | One category's own call, seen through the calls before and after it that do not touch its key |
| ThemeSelection.ResolveSticky | script.js:85-109 | Resolving again on the store that a resolution left gives the same theme and the same store, whatever is drawn |
| ThemeSelection.ResetTheme | script.js:181-188 | `resetTheme` removes all five theme keys and leaves every other key as it was |
| ThemeSelection.ResolveAfterReset | script.js:181-188 | After a reset, every category resolves to exactly the entry drawn for it |
| ThemeSelection.ResetForgetsThemeKeys | script.js:181-186 | Stores that differ only under theme keys are equal after a reset |
| ThemeSelection.ResolveThenReset | script.js:181-188 | Resetting after a resolution leaves the store as a plain reset of the original store would |
| ThemeSelection.StaleColorSchemeResolvesToNothing | script.js:87 | With a stale colour-scheme name stored, `init` leaves the colour scheme unresolved |
| ThemeSelection.BlueTechResolves | script.js:19-29 | A stored `blue-tech` resolves to the Blue Tech catalog entry |
| ThemeApply.BaseColors | script.js:141-148 | Exactly the four base properties are set, each to the scheme's matching colour |
| ThemeApply.DerivedColors | script.js:154-169 | Exactly the four derived properties are set: the fixed dark values for `dark-mode`, otherwise primary, secondary and the two `rgba` strings |
| ThemeApply.CssVariables | script.js:141-169 | The eight properties are set, and every base and derived value survives in the result |
| ThemeApply.LeadingClasses | script.js:122-125 | The classes that the adds reach are the body variants' classes in order, up to the first undefined variant |
| ThemeApply.LeadingClassesOfBody | script.js:122-125 | All four body classes are added exactly when all four body variants are defined |
| ThemeApply.ApplyTheme | script.js:111-139 | The hero stays present or absent. The run completes exactly when the four body variants are defined, the pattern is defined or there is no hero, and the scheme has colours. A run that throws leaves the style untouched. |
| ThemeApply.LeadingClassesOwned | script.js:121-125 | Every class the body step adds carries a stripped prefix |
| ThemeApply.ApplyKeepsUserClasses | script.js:115-125 | Even when the run throws, the body's unowned tokens survive in their original order and no other unowned token appears |
| ThemeApply.ThemeClassesShape | script.js:122-125 | The four body classes are distinct and owned, and none is a pattern class |
| ThemeApply.ApplyCompleteSucceeds | script.js:111-139 | A fully resolved theme never throws |
| ThemeApply.ApplyCompleteBody | script.js:115-125 | After a complete run, the body is its unowned tokens followed by the four selected classes in call order |
| ThemeApply.ApplyCompleteHero | script.js:128-135 | After a complete run, the hero is its non-pattern tokens followed by the selected pattern class |
| ThemeApply.ApplyCompleteStyle | script.js:141-169 | After a complete run, the style is the old one overwritten by the eight properties, and no other property changes |
| ThemeApply.ApplyBodyOwnership | script.js:115-125 | On the body, a token is owned exactly when it is one of the four selected classes, and no `pattern-` token remains |
| ThemeApply.ApplyHeroOwnership | script.js:128-135 | On the hero only `pattern-` tokens are replaced, and the selected pattern class is the only `pattern-` token left |
| ThemeApply.PatternTokens | script.js:130-134 | In unowned tokens followed by one pattern class, that class is the only pattern token, and the filter returns the rest |
| ThemeApply.ApplyIdempotent | script.js:111-139 | Applying a complete theme twice gives the same page as applying it once |
| ThemeApply.IdempotentBody | script.js:115-125 | The second application leaves the body as the first left it |
| ThemeApply.IdempotentHero | script.js:128-135 | The second application leaves the hero as the first left it |
| ThemeApply.ReapplyHero | script.js:128-135 | A hero of unowned tokens followed by the selected pattern class is left as it is |
| ThemeApply.PatternClassOwned | script.js:132 | The selected pattern class is one that the hero filter strips |
| ThemeApply.IdempotentStyle | script.js:141-169 | The second application leaves the style as the first left it |
| ThemeApply.RestripIdempotent | script.js:115-125 | Filtering after appending owned classes to a filtered list gives back that filtered list |
| ThemeApply.DarkDerivedColorsFixed | script.js:156-162 | For `dark-mode` the four derived colours do not depend on the palette |
| ThemeApply.CatalogTextColorIsPrimary | script.js:154-169 | For every shipped scheme the text colour is the scheme's primary colour |
| ThemeApply.InitTheme | script.js:85-96 | When construction completes, every category was resolved |
| ThemeApply.InitSucceedsIffComplete | script.js:85-96 | Construction completes exactly when all five categories resolved; otherwise it throws |
| ThemeApply.InitKeepsUserClasses | script.js:85-96 | Even when construction throws, the body's unowned tokens survive in order |
| ThemeApply.ApplyWithoutColorScheme | script.js:115-122 | With no colour scheme, the run throws at the first add. Owned classes are already stripped, none is added and the style is untouched. |
| ThemeApply.StaleColorSchemeThrows | script.js:85-96 | A stale colour-scheme name makes construction throw, with the body stripped and the style untouched |
| ThemeApply.BlueTechExample | script.js:19-29 | A returning `blue-tech` visitor gets primary and text colour `#0066cc` and background `#f0f8ff` |
| ThemeApply.ConsoleReset | script.js:486-489 | `resetPortfolioTheme` resets the store only when constructing the theme finishes. When construction throws, the store is what resolution left, which differs from the original only under the theme keys. |
| ThemeApply.StaleNameSurvivesConsoleReset | script.js:486-489 | With a stale colour-scheme name stored, the console helper leaves that name in place and the store is not reset |
| ThemeApply.ConsoleResetIntended | script.js:181-188 | The evidently intended console reset removes the five keys and nothing else, whatever construction does |
| ThemeApply.ConsoleResetIntendedAgrees | script.js:486-489 | The helper as written agrees with the intended reset exactly when constructing the theme finishes |
| NavMenu.OpenMenu | script.js:235-239 | Opening sets the flag, the attribute and `aria-expanded="true"` together |
| NavMenu.CloseMenu | script.js:241-245 | Closing clears the flag and the attribute. `aria-expanded` becomes `"false"` when the toggle exists and is untouched otherwise. |
| NavMenu.ToggleMenu | script.js:231-233 | Toggling flips the flag, and the attributes follow |
| NavMenu.OutsideClick | script.js:224-228 | A document click closes the menu exactly when it is outside the navbar and the menu is open; otherwise nothing changes |
| NavMenu.Step | script.js:208-229 | A link click closes the menu. Without a toggle button no other event has a listener, so nothing else changes. With one, a toggle flips the flag, and a document click changes the menu exactly when it lands outside the navbar while the menu is open. |
| NavMenu.CloseIdempotent | script.js:241-245 | Closing twice is closing once |
| NavMenu.LinkClick | script.js:217-221 | A link click (one `closeMobileMenu` from `setupNavigation`, and a second from `setupMobileMenu` when the toggle exists) leaves the menu closed and consistent. `aria-expanded` is `"false"` with a toggle and untouched without one. |
| NavMenu.LinkClickCloses | script.js:217-221 | The two link listeners together close exactly as one does |
| NavMenu.ToggleTwiceFromClosed | script.js:231-245 | Two toggles from a closed menu return to that closed menu |
| NavMenu.ToggleTwiceFromOpen | script.js:231-245 | Two toggles from an open menu return to that open menu |
| NavMenu.EventsKeepConsistent | script.js:208-245 | Once the flag agrees with both attributes, every run of events keeps them in agreement |
| NavMenu.ConsistentAfterLinkClick | script.js:262-267 | From the state at load (flag false, attributes as in the markup), the flag and attributes agree after any run of events that starts with a link click |
| NavMenu.MarkupCanDisagree | script.js:200 | At load the flag can disagree with the attributes, because the flag starts false whatever the markup holds |
| ScrollSpy.LastReachedId | script.js:275-282 | The reference definition, read from the end: `""` when no section top is within 100 of the scroll position, otherwise the id of the last section that is |
| ScrollSpy.CurrentSection | script.js:275-282 | The forward loop, overwriting on every reached section, computes exactly the reference definition |
| ScrollSpy.UpdateLink | script.js:284-290 | A link carries `active` exactly when its href is `#` plus the current id; its href and other classes are untouched |
| ScrollSpy.UpdateLinks | script.js:284-290 | The same holds for every link, in order |
| ScrollSpy.UpdateActiveLink | script.js:274-293 | One frame: the current section as above, and exactly the links pointing at it are active, with other classes untouched |
| ScrollSpy.SomeLastReached | script.js:278-282 | When some section is reached, there is a last reached one, so the current id is defined |
| ScrollSpy.AboveAllSections | script.js:275-290 | Above every section the current id is `""`, so only a link whose href is the bare `#` is active |
| Typewriter.Start | script.js:344-350 | The effect starts exactly when a title exists and the animation is `typewriter`. It captures the text and clears the heading. |
| Typewriter.Tick | script.js:353-359 | A tick appends the next character and advances the index, or does nothing at the end. The heading stays the text's prefix up to the index. |
| Typewriter.RunToEnd | script.js:353-361 | Ticking stops after one tick per remaining character, with the whole text shown |
| Typewriter.TypeTitle | script.js:344-362 | Whether or not the effect runs, the title's text ends as it began |

## Left out

- Persistence, page reload and console output: `localStorage` itself, `location.reload()` and `logThemeInfo`'s messages. The store is a map passed in and out. The one effect of the log that matters, reading `label` of an undefined pattern, is modelled in `ThemeApply.InitTheme`.
- Randomness: `Math.random()` is replaced by a draw index per category. Whether the draw is uniform is a statistical property and is not stated.
- Event wiring and timing: listener registration, `e.stopPropagation()`, `requestAnimationFrame` coalescing through `ticking`, and the `setTimeout` delays of the typewriter. Only the per-event, per-frame and per-tick steps are modelled.
- The intersection-observer reveal, lazy image loading, smooth scrolling, keyboard-navigation classes, focus-style injection and the aria-label backfill. These are thin browser calls with no logic to state.
- The `className` string: `split(' ')` and `join(' ')` on the raw attribute. A class list is modelled as its token sequence, with tokens separated by single spaces. Empty tokens from repeated spaces are not modelled. Nor is the de-duplication a `DOMTokenList` performs. Nor is the mismatch between `split(' ')`, which splits only on spaces, and `classList`, which splits on any ASCII whitespace.
- ThemeApply.ApplyIdempotent: assumes class tokens separated by single spaces. With markup `class="page\ntheme-dark"`, the filter sees one token `page\ntheme-dark` and keeps it. `classList.add` then re-splits it, so `theme-dark` stays on the body beside the new scheme class, and a second run strips it. The source is therefore not idempotent on such a page. The hero behaves alike and can end with two `pattern-` classes.
- ThemeApply.ApplyBodyOwnership: assumes class tokens separated by single spaces. With `class="page\ntheme-dark"`, an owned class `theme-dark` survives beside the selected ones.
- ThemeApply.ApplyHeroOwnership: assumes class tokens separated by single spaces. With a hero class `"x\npattern-dotted"`, the old pattern class survives beside the selected one.
- ThemeApply.ApplyKeepsUserClasses: assumes class tokens separated by single spaces. With `class="theme-dark\npage"`, the whole token is dropped, so the user class `page` is lost.
- Typewriter.TypeTitle: the title is modelled as its `textContent`. Clearing and retyping it replaces any child markup (a `<span>` inside the heading, say) with a single text node, so only the text, not the markup, ends as it began.
- Scroll and offset positions are whole numbers here; the browser's `pageYOffset` may be fractional.
- A page whose body itself carries the class `hero`: `document.querySelector('.hero')` would then return the body, and the pattern class would land on the body. The model takes the hero to be a different element, so `ThemeApply.ApplyBodyOwnership` does not hold for such a page.
- Typewriter.Tick / Typewriter.RunToEnd: a character is a Unicode scalar value. A title with a character outside the Basic Multilingual Plane (an emoji, say) takes two ticks per such character in the source, which passes through a lone surrogate; the model takes one.
- A page without a navbar: `closeMobileMenu` would throw on it. The navbar is taken to be present, and the toggle button is optional.
- The extra `PortfolioTheme` built inside `TextEffectManager` and inside `resetPortfolioTheme`, which re-resolves and re-applies the theme. `Typewriter.Start` takes the resolved animation name instead. For the helper, only its effect on the store is modelled (`ThemeApply.ConsoleReset`). When construction finishes, the reload discards the re-themed page. When it throws, neither `resetTheme` nor the reload runs, and the page keeps what the throwing run left (for a stale colour scheme, a body stripped of its theme classes, as `ThemeApply.StaleColorSchemeThrows` states); `ConsoleReset` returns only the store, not that page.
- A throw while constructing the theme on page load (script.js:460) ends the whole `DOMContentLoaded` handler, so the navigation manager, the typewriter and the later managers (script.js:463-475) are never set up. `NavMenu`, `ScrollSpy` and `Typewriter` describe a page whose theme construction finished; a stale stored name, which makes construction throw (`ThemeApply.InitSucceedsIffComplete`), leaves all three inactive.
- Typewriter.Start: does not model the `TypeError` raised when the animation resolved to `undefined`, because the typewriter takes only the resolved name.
- ThemeSelection.GetOrCreateSelection: requires a valid draw even when a name is already stored and no draw is made, because every catalog is non-empty (`Catalog.CatalogWellFormed`), so a valid draw always exists.
- ThemeSelection.ResolveTheme: carries no contract of its own; its properties are the lemmas `ResolveThemeFrame`, `ResolveCategory` and `ResolveSticky`.
- NavMenu.OpenMenu: requires the toggle button, because it is reached only through the toggle's listener, which exists only when the button does.

## Findings

| source | as written | input that shows it | evidently intended | confidence | as-written member | corrected member |
|---|---|---|---|---|---|---|
| script.js:486-489 | `resetPortfolioTheme` constructs a `PortfolioTheme` before calling `resetTheme()`. Construction throws on a stale stored name, so the reset never runs. | `portfolio_colorScheme` = `purple-haze`: the helper throws at script.js:122 and the stale name stays stored | the console reset clears the five keys whatever is stored, so a broken stored theme can be cleared | medium, not executed | ThemeApply.StaleNameSurvivesConsoleReset | ThemeApply.ConsoleResetIntended |
