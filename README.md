# Portfolio page logic, modelled in Dafny

The portfolio is a single React page (`kishore-glass-portfolio/src/App.tsx`).
Apart from markup and styling, it holds three pieces of logic, and this
project models and proves them:

- **Scroll-spy** (`getActiveSection`). The page decides which navigation
  link is highlighted. It takes the sections of `navLinks` that are rendered,
  adds a look-ahead of 120 px to the scroll position, stable-sorts the
  sections by `offsetTop` and keeps those not below the position. The last
  one kept is active; if none is kept, the result is `"home"`. Module
  `ActiveSection`. The rendered page is an input: a `Dom` map from element id
  to `offsetTop`. The scroll position is an integer input.
- **Orbit layout** (`updateRadius` and `orbitItems`). The viewport width sets
  the orbit radius and a compact flag, in three bands.
  - The number of circling icons is 4 under reduced motion, else 5 when
    compact, else all 8.
  - The icons are a prefix of `orbitIcons`, placed at `360 / n * i` degrees.

  Module `OrbitLayout`. The width and the reduced-motion preference are
  inputs.
- **Contact form** (`handleChange` and `handleSubmit`). Class
  `ContactForm.Form` holds the state: the three fields, the error record and
  the success text.
  - `Change` overwrites one field.
  - `Submit` replaces the error record with the one `Validate` gives. If that
    record is empty, it clears the fields and sets the thank-you text.

  `String.prototype.trim` is modelled by `Trim`. It strips the characters of
  `IsWhitespace`: ECMAScript's WhiteSpace and LineTerminator code points.
  `Validate` builds the error record from the trimmed fields, as
  `handleSubmit` does. `ValidateByRules` restates it by character content.

Three behaviours of the code are worth knowing:

- The resolver compares against a reference definition, `LatestHighest`, a
  single left-to-right scan. That scan picks the qualifying section with the
  largest offset. Among equal offsets it picks the later one in `navLinks`
  order. `ActiveEntryIsLatestHighest` proves the sort/filter/pop pipeline
  gives the same section.
- A failed submit does not clear an earlier success text. A submit after a
  success finds the fields cleared (`ClearedFailsEveryRule`), so it shows all
  three errors while the thank-you text stays. The model keeps this
  behaviour of the code.
- The `"home"` default is a fixed id. It is returned even when no element
  with id `home` is rendered.

## Model

| member | source | states |
|---|---|---|
| `ActiveSection.Rendered` | kishore-glass-portfolio/src/App.tsx:102-104 | the `map`/`filter` over `navLinks` that keeps the rendered sections; its contract is stated by `RenderedSpec` and `RenderedKeepsOrder` |
| `ActiveSection.RenderedSpec` | kishore-glass-portfolio/src/App.tsx:102-104 | the rendered list is no longer than `navLinks`; each entry has an id of `navLinks` that the page renders, with its `offsetTop`; every rendered navigation id appears in it |
| `ActiveSection.RenderedKeepsOrder` | kishore-glass-portfolio/src/App.tsx:102-104 | for distinct ids, the rendered sections keep `navLinks` order: an earlier entry comes from an earlier id |
| `ActiveSection.NavIdsDistinct` | kishore-glass-portfolio/src/App.tsx:19-26 | the ids of `navLinks` are pairwise different |
| `ActiveSection.Insert` | kishore-glass-portfolio/src/App.tsx:113 | inserting adds exactly the one entry and keeps every other entry (as multisets) |
| `ActiveSection.InsertSorted` | kishore-glass-portfolio/src/App.tsx:113 | inserting into a list sorted by offset keeps it sorted |
| `ActiveSection.SortByOffset` | kishore-glass-portfolio/src/App.tsx:113 | the sort result is ordered by offset and is a permutation of its input |
| `ActiveSection.Qualifying` | kishore-glass-portfolio/src/App.tsx:114 | every kept entry comes from the list and has an offset at most the position |
| `ActiveSection.QualifyingComplete` | kishore-glass-portfolio/src/App.tsx:114 | every entry with an offset at most the position is kept |
| `ActiveSection.QualifyingAppend` | kishore-glass-portfolio/src/App.tsx:114 | filtering two concatenated lists gives the filtered first list followed by the filtered second, so the kept entries stay in their order |
| `ActiveSection.Pop` | kishore-glass-portfolio/src/App.tsx:115 | `pop` yields nothing exactly on the empty list, else the last entry |
| `ActiveSection.ActiveEntry` | kishore-glass-portfolio/src/App.tsx:106-115 | the selected entry, if any, is one of the given sections and has an offset of at most `scrollY + 120` |
| `ActiveSection.GetActiveSection` | kishore-glass-portfolio/src/App.tsx:101-118 | the result is always an id of `navLinks`, and is `"home"` or an id the page renders |
| `ActiveSection.LatestHighest` | kishore-glass-portfolio/src/App.tsx:108-115 | reference scan: nothing exactly when no entry qualifies; otherwise an index whose entry qualifies, has the largest qualifying offset, and has no later qualifying entry with the same offset |
| `ActiveSection.ActiveIndexUnique` | kishore-glass-portfolio/src/App.tsx:108-115 | at most one index satisfies that description, so the active section is well defined |
| `ActiveSection.InsertStep` | kishore-glass-portfolio/src/App.tsx:113-115 | inserting an entry into a sorted list changes the popped qualifying entry exactly as one step of the reference scan does; this is where stability matters |
| `ActiveSection.ActiveEntryIsLatestHighest` | kishore-glass-portfolio/src/App.tsx:106-115 | the sort, filter and pop pipeline selects exactly the entry the reference scan selects, for every input |
| `ActiveSection.ActiveEntrySpec` | kishore-glass-portfolio/src/App.tsx:106-117 | the pipeline yields nothing if and only if every section has an offset greater than `scrollY + 120`; otherwise it yields the section at the active index |
| `ActiveSection.DefaultsToHome` | kishore-glass-portfolio/src/App.tsx:101-117 | when no rendered navigation section has `offsetTop <= scrollY + 120` (in particular when none is rendered), the result is `"home"` |
| `ActiveSection.ResolvesToActiveIndex` | kishore-glass-portfolio/src/App.tsx:102-117 | when some rendered section qualifies, the result is the id of the rendered section at the active index (maximal qualifying offset, later entry on ties) |
| `ActiveSection.MonotoneInScroll` | kishore-glass-portfolio/src/App.tsx:106-115 | for fixed offsets, once some section qualifies, scrolling further keeps a section active, and its offset is never smaller |
| `ActiveSection.BetweenOffsets` | kishore-glass-portfolio/src/App.tsx:106-115 | for sections sorted by offset, when `offset(i) <= scrollY + 120 < offset(i+1)`, section `i` is active |
| `ActiveSection.TiesGoToLaterNavLink` | kishore-glass-portfolio/src/App.tsx:102-115 | of two rendered qualifying sections with equal offsets, the earlier one in `navLinks` is never the result |
| `OrbitLayout.RadiusBand` | kishore-glass-portfolio/src/App.tsx:137-147 | compact holds exactly below 768 px; the radius is 120, 150 or 190, and below 190 exactly below 1024 px |
| `OrbitLayout.InitialBandIsWide` | kishore-glass-portfolio/src/App.tsx:123-124 | the initial radius 190 and compact flag `false` are the band of every viewport at least 1024 px wide |
| `OrbitLayout.ThreeBands` | kishore-glass-portfolio/src/App.tsx:137-147 | below 768: radius 120, compact; from 768 to below 1024: radius 150, not compact; from 1024: radius 190, not compact |
| `OrbitLayout.RadiusMonotone` | kishore-glass-portfolio/src/App.tsx:137-147 | a wider viewport never gives a smaller radius, and is compact only if the narrower one is |
| `OrbitLayout.ItemCount` | kishore-glass-portfolio/src/App.tsx:156 | the count is between 1 and `orbitIcons.length` and divides 360; it is 4 under reduced motion; without reduced motion it is 5 exactly when compact, and `orbitIcons.length` (8) otherwise |
| `OrbitLayout.ReducedMotionWins` | kishore-glass-portfolio/src/App.tsx:156 | under reduced motion the count is 4 whatever the compact flag |
| `OrbitLayout.AngleFacts` | kishore-glass-portfolio/src/App.tsx:160 | for counts 4, 5 and 8 the angle `(360 / n) * i` is exact, lies in `[0, 360)`, and steps by `360 / n` |
| `OrbitLayout.OrbitItems` | kishore-glass-portfolio/src/App.tsx:155-162 | the items are the first `count` icons of `orbitIcons` in order; the first angle is 0; every angle is exactly `360 * i / count`, below 360, and `360 / count` past the previous one |
| `OrbitLayout.LayoutExamples` | kishore-glass-portfolio/src/App.tsx:137-157 | width 500 gives radius 120, compact, 5 items; width 900 gives radius 150, 8 items; width 1200 with reduced motion gives radius 190, 4 items |
| `ContactForm.IsWhitespace` | kishore-glass-portfolio/src/App.tsx:184 | the characters `trim` strips; on ASCII these are exactly space and tab through carriage return |
| `ContactForm.TrimStart` | kishore-glass-portfolio/src/App.tsx:184 | leading-whitespace removal inside `trim`; the result is never longer than the input, and its full contract is stated by `TrimStartSpec` |
| `ContactForm.TrimEnd` | kishore-glass-portfolio/src/App.tsx:184 | trailing-whitespace removal inside `trim`; the result is never longer than the input, and its full contract is stated by `TrimEndSpec` |
| `ContactForm.Trim` | kishore-glass-portfolio/src/App.tsx:184 | `String.prototype.trim`, as called on the name (184) and the message (190); the result is never longer than the input, and its full contract is stated by `TrimSpec` and `TrimEmptyIff` |
| `ContactForm.TrimStartSpec` | kishore-glass-portfolio/src/App.tsx:184 | the result is a suffix of the input; what was dropped is all whitespace; the result does not start with whitespace |
| `ContactForm.TrimEndSpec` | kishore-glass-portfolio/src/App.tsx:184 | the result is a prefix of the input; what was dropped is all whitespace; the result does not end with whitespace |
| `ContactForm.TrimSpec` | kishore-glass-portfolio/src/App.tsx:184 | the result is a contiguous part of the input with only whitespace around it, and neither starts nor ends with whitespace |
| `ContactForm.TrimEmptyIff` | kishore-glass-portfolio/src/App.tsx:184-192 | a string trims to `""` if and only if every character of it is whitespace |
| `ContactForm.Fields.With` | kishore-glass-portfolio/src/App.tsx:177 | the named field takes the new value and the other two keep theirs |
| `ContactForm.Validate` | kishore-glass-portfolio/src/App.tsx:182-192 | the error record built field by field; the email error is set exactly when the email has no `'@'`, and the full contract is stated by `ValidateByRules` |
| `ContactForm.ValidateByRules` | kishore-glass-portfolio/src/App.tsx:182-192 | each field has an error exactly when its rule fails (name all whitespace, email without `'@'`, message all whitespace), and the error is that field's exact text |
| `ContactForm.SubmitSucceedsIff` | kishore-glass-portfolio/src/App.tsx:184-196 | the error record is empty if and only if the name has a non-whitespace character, the email holds `'@'`, and the message has a non-whitespace character |
| `ContactForm.ClearedFailsEveryRule` | kishore-glass-portfolio/src/App.tsx:184-198 | the cleared form violates all three rules, so a submit right after a success reports all three errors |
| `ContactForm.ValidationExamples` | kishore-glass-portfolio/src/App.tsx:182-192 | an empty name gives only the name error; `not-an-email` gives only the email error; a complete form gives none; a name of space and tab, an email `" @ "` and a message of one line feed give the name and message errors |
| `ContactForm.Form.constructor` | kishore-glass-portfolio/src/App.tsx:164-174 | the form starts with empty fields, no errors and no success text |
| `ContactForm.Form.Change` | kishore-glass-portfolio/src/App.tsx:176-178 | only the named field changes; the errors and the success text stay |
| `ContactForm.Form.Submit` | kishore-glass-portfolio/src/App.tsx:180-200 | the error record becomes `Validate` of the fields, removing stale errors; if it is empty the fields are cleared and the thank-you text is set, otherwise fields and success text are unchanged |

## Left out

- DOM and window reads (`document.getElementById`, `offsetTop`, `window.scrollY`, `window.innerWidth`) are inputs: the `Dom` map, `scrollY` and `innerWidth`.
- ActiveSection.GetActiveSection: `scrollY` is an integer here. Browsers may report a fractional scroll position, which the model does not cover.
- Arithmetic in the sort comparator and the position runs on JavaScript numbers. Pixel offsets stay far below 2^53, so the model uses unbounded integers.
- Registering and removing the `scroll` and `resize` listeners, and the initial calls at mount (App.tsx:126-134, 150-153), are framework lifecycle.
- Storing the resolver's result with `setActiveSection` is framework state plumbing. So is storing the band with `setOrbitRadius`/`setIsCompactOrbit`: `RadiusBand` gives the pair that is stored. The initial pair, radius 190 and not compact, is the constant `OrbitLayout.InitialBand`; `InitialBandIsWide` shows it is the wide band.
- `useReducedMotion` is a foreign framer-motion hook and is a boolean input. `useMemo` caching does not change values and is left out.
- The JSX tree, CSS transform strings, animations and class names are left out. So are the static content arrays (`skills`, `projects`, `timeline`, `socialLinks`) and `tailwind.config.ts`. Icon components are an enumeration `Icon`.
- The angle `360 / slice.length * index` is floating-point division in `orbitItems`. The model uses integer division, which is exact for the counts 4, 5 and 8 (`AngleFacts`). No other count can occur.
- JavaScript strings are UTF-16 code units; the model's strings are sequences of Unicode scalar values. No surrogate code unit is whitespace, so trimming agrees.
- `handleChange` with a `name` attribute other than `name`, `email` or `message` would add an extra key to `formState`. The form has no such input, so a field is one of the enumeration `Field`.
- React batches state updates, and the handlers read the state of the last render. The model applies each `Change` and `Submit` to the current state, in sequence. It does not cover several events handled before one re-render.
- `event.preventDefault()` is browser plumbing and is left out.
