# Theme switcher core, modelled in Dafny

This project models the two pieces of the Multi-Theme-Switcher demo that hold logic.

1. **Input guard** (`src/utils/security.ts`), in module `Security` (`security.dfy`):
   - `sanitizeInput`: removes angle brackets, trims, and keeps at most 1000 characters.
   - `isValidEmail`: the pattern `^[^\s@]+@[^\s@]+\.[^\s@]+$` plus a length of at most 254.
   - `isValidThemeId`: a membership test against the allow-list `theme1`, `theme2`, `theme3`.
   - `RateLimiter.canAttempt`: a per-identifier sliding-window counter, 5 attempts per 900000 ms. It is a class whose `attempts` field is a map from identifier to a timestamp list.
   - `secureStorage`: the validating `get`/`set`/`remove` wrapper. It is a class `SecureStorage` whose `items` field stands for the browser's key/value store.

2. **Theme registry and selector** (`src/contexts/ThemeContext.tsx`), in module `ThemeContext` (`theme_context.dfy`):
   - the constant catalog of three theme records;
   - `availableThemes`;
   - the `ThemeProvider` class, with its state cell `currentThemeId`, the mount step that restores a stored id, and the guarded `setTheme` that writes through `secureStorage.set`.

`wrappers.dfy` holds the `Option` type that stands for `string | null`. `security_examples.dfy` (module `SecurityExamples`) works the sample inputs through the general lemmas.

Environment inputs become parameters:
- the clock `Date.now()` is the parameter `now`;
- a store that throws is modelled by a `fails` flag on each storage call. The wrapper catches the error and reports it as `null` or `false`.

White space for `trim` and for `\s` is one predicate, `Security.IsWs`. It holds for the ECMAScript WhiteSpace and LineTerminator code points.

`setTheme` is modelled twice. `ThemeProvider.SetThemeAsWritten` keeps the source's guard `themes[themeId]`. `ThemeProvider.SetTheme` tests own-key membership of the catalog instead, and is the one the rest of the model uses. The reason is under Findings.

The mount step keeps the source's lookup. That is safe because `secureStorage.get` has already validated the id (`ThemeContext.LookupAgreesOnAllowedIds`).

## Model

| member | source | states |
|---|---|---|
| `Security.IsWs` | src/utils/security.ts:9-17 | the white-space set shared by `trim` and `\s`: the ECMAScript WhiteSpace and LineTerminator code points |
| `Security.MaxInputLength` | src/utils/security.ts:10 | the cut-off 1000 of `substring(0, 1000)` |
| `Security.RemoveBrackets` | src/utils/security.ts:8 | the result holds no `<` or `>` and is no longer than the input |
| `Security.RemoveBracketsKeeps` | src/utils/security.ts:8 | a character occurs in the result exactly when it occurs in the input and is neither `<` nor `>` |
| `Security.RemoveBracketsAppend` | src/utils/security.ts:8 | bracket removal distributes over concatenation, so it keeps the order of the other characters |
| `Security.RemoveBracketsIdentity` | src/utils/security.ts:8 | text without angle brackets is returned unchanged |
| `Security.RemoveBracketsUnwraps` | src/utils/security.ts:8 | text wrapped in parts made only of brackets loses exactly those parts |
| `Security.LeadingBlanks` | src/utils/security.ts:9 | the length of the longest all-white-space prefix: every character before it is white space and the one at it, if any, is not |
| `Security.TrailingBlanks` | src/utils/security.ts:9 | the length of the longest all-white-space suffix: every character after the cut is white space and the one just before it, if any, is not |
| `Security.Trim` | src/utils/security.ts:9 | the result is no longer than the input, neither starts nor ends with white space, and holds only characters of the input |
| `Security.TrimIsSlice` | src/utils/security.ts:9 | the trimmed text is a contiguous slice of the input with only white space before and after it |
| `Security.TrimShortensBlankEnd` | src/utils/security.ts:9 | trimming a non-empty text that ends in white space makes it strictly shorter |
| `Security.SanitizeInput` | src/utils/security.ts:6-11 | no `<` or `>`; length is min(1000, \|t\|) and the result is a prefix of t, where t is the trimmed bracket-free input; it never starts with white space |
| `Security.SanitizeFixpoint` | src/utils/security.ts:6-11 | a text of at most 1000 characters without brackets and without white space at either end is returned unchanged |
| `Security.SanitizeIdempotentIff` | src/utils/security.ts:8-10 | sanitizing twice equals sanitizing once exactly when t is at most 1000 long or its 1000th character is not white space |
| `Security.SanitizeNotIdempotent` | src/utils/security.ts:8-10 | there is an input on which sanitizing twice differs from sanitizing once (999 letters, a blank, a letter) |
| `SecurityExamples.RemoveBracketsOfTag` | src/utils/security.ts:8 | bracket removal turns `"<script>"` into `"script"` |
| `SecurityExamples.SanitizeSeesStripped` | src/utils/security.ts:6-11 | two inputs with the same bracket-free text sanitize alike |
| `SecurityExamples.SanitizeStripsTag` | src/utils/security.ts:6-11 | `sanitizeInput("<script>")` is `"script"` |
| `SecurityExamples.LeadingBlanksOfPadded` | src/utils/security.ts:9 | `"  hi  "` has two leading blanks |
| `SecurityExamples.TrailingBlanksOfPadded` | src/utils/security.ts:9 | `"hi  "` has two trailing blanks |
| `SecurityExamples.TrimOfPadded` | src/utils/security.ts:9 | trimming `"  hi  "` gives `"hi"` |
| `SecurityExamples.SanitizeTrims` | src/utils/security.ts:6-11 | `sanitizeInput("  hi  ")` is `"hi"` |
| `Security.MaxEmailLength` | src/utils/security.ts:18 | the length bound 254 |
| `Security.MatchesEmailPattern` | src/utils/security.ts:17 | the regular expression as a decomposition: a non-empty run without white space or `@`, then `@`, a non-empty run, `.`, a non-empty run, covering the whole text |
| `Security.HasEmailShape` | src/utils/security.ts:17 | the executable check: locate the first `@`; it is not first; neither side holds white space or a second `@`; the domain has a `.` that is neither its first nor its last character |
| `Security.IndexOf` | src/utils/security.ts:17 | the index of the first occurrence of a character, or the length when there is none |
| `Security.ShapeGivesPattern` | src/utils/security.ts:17 | the check by locating the `@` implies the regular-expression decomposition |
| `Security.PatternGivesShape` | src/utils/security.ts:17 | any regular-expression decomposition passes the check by locating the `@` |
| `Security.EmailShapeIsPattern` | src/utils/security.ts:17 | the `@`-locating check and the decomposition `[^\s@]+ @ [^\s@]+ . [^\s@]+` agree on every text |
| `Security.IsValidEmail` | src/utils/security.ts:16-19 | true exactly when the whole text matches the pattern and its length is at most 254 |
| `Security.ShapeGivesSoleAtSign` | src/utils/security.ts:17 | a text passing the `@`-locating check has no white space and its first `@` is its only one, not at the start |
| `Security.SoleAtSignGivesShape` | src/utils/security.ts:17 | a text without white space whose only `@` is not first and whose domain has an interior `.` passes the `@`-locating check |
| `Security.EmailValidIff` | src/utils/security.ts:17-18 | accepted iff: length ≤ 254, no white space, exactly one `@` with a non-empty part before it, and a `.` in the domain that is neither its first nor its last character |
| `SecurityExamples.EmailExamples` | src/utils/security.ts:16-19 | `a@b.co` is accepted; `a@b` is rejected; a 266-character address is rejected |
| `Security.AllowedThemeIds` | src/utils/security.ts:25 | the allow-list `theme1`, `theme2`, `theme3`, in that order |
| `Security.IsValidThemeId` | src/utils/security.ts:24-27 | true exactly for `theme1`, `theme2` and `theme3`; never for the empty string |
| `Security.MaxAttempts` | src/utils/security.ts:34 | `maxAttempts`: 5 accepted attempts per window |
| `Security.WindowMs` | src/utils/security.ts:35 | `windowMs`: 15 · 60 · 1000 = 900000 ms |
| `Security.Entry` | src/utils/security.ts:39 | the timestamps stored for an identifier, or the empty list when it has none |
| `Security.Recent` | src/utils/security.ts:42 | keeps exactly the timestamps t with now − t < 900000, and never lengthens the list |
| `Security.RecentAppend` | src/utils/security.ts:42 | the filter distributes over concatenation, so survivors keep their original order |
| `Security.RecentOfFresh` | src/utils/security.ts:42 | nothing is dropped when every timestamp is inside the window |
| `Security.RecentOfStale` | src/utils/security.ts:42 | everything is dropped when every timestamp is at least 900000 ms old |
| `Security.RecentCountsIndices` | src/utils/security.ts:42-44 | the filtered length is the number of stored timestamps inside the window, the count that the quota test compares with 5 |
| `Security.RecentLater` | src/utils/security.ts:38-42 | pruning at an earlier time and filtering again later gives the same as filtering later, so lazy pruning loses nothing |
| `Security.RateLimiter.constructor` | src/utils/security.ts:33 | the ledger starts empty |
| `Security.RateLimiter.CanAttempt` | src/utils/security.ts:37-53 | refuses iff at least 5 recent timestamps are stored, and then leaves the ledger unchanged; on acceptance the caller's entry becomes its survivors in order followed by `now`, and no other entry changes; every entry stays at most 5 long |
| `Security.AttemptAgain` | src/utils/security.ts:37-53 | with fewer than five attempts on record, all made at `now`, a call at `now` is accepted and adds one more |
| `Security.FiveAccepted` | src/utils/security.ts:34-53 | on a fresh limiter, five calls at one time are all accepted and all five are on record |
| `Security.RefusalLiftsAfterWindow` | src/utils/security.ts:34-53 | on a fresh limiter, five calls at one time are accepted and the sixth is refused; a seventh call at any time is accepted iff it comes at least 900000 ms after them (so never when the clock has stepped back), and then only that call is on record |
| `Security.ThemeStorageKey` | src/utils/security.ts:65 | the key `selectedTheme`, the only one whose values are checked against the allow-list |
| `Security.SecureStorage.Get` | src/utils/security.ts:62-74 | a failing store reads as null; under `selectedTheme`, a non-empty stored value reads back iff it is an allowed id, and an empty one reads back as `""`; other keys read as stored; nothing is ever invented |
| `Security.SecureStorage.Set` | src/utils/security.ts:76-88 | succeeds iff the store does not fail and, under `selectedTheme`, the value is an allowed id; on success exactly that key is written, otherwise nothing changes |
| `Security.SecureStorage.Remove` | src/utils/security.ts:90-98 | succeeds iff the store does not fail; on success exactly that key is deleted |
| `Security.WriteThenRead` | src/utils/security.ts:62-98 | an invalid theme id is refused and does not alter what a later read returns; a successful write reads back; a read after remove finds nothing |
| `ThemeContext.Theme` | src/contexts/ThemeContext.tsx:4-38 | a theme record: id, name, colours with nested text colours, typography, layout and animations, every leaf a string except the layout kind |
| `ThemeContext.LayoutKind` | src/contexts/ThemeContext.tsx:28 | the layout type: exactly `default`, `sidebar` or `grid` |
| `ThemeContext.Catalog` | src/contexts/ThemeContext.tsx:40-146 | the keys are exactly the allow-list ids; each record's id equals its key; the layouts are default, sidebar and grid |
| `ThemeContext.AvailableThemes` | src/contexts/ThemeContext.tsx:181 | the three catalog records, each exactly once, in the order theme1, theme2, theme3 |
| `ThemeContext.DefaultThemeId` | src/contexts/ThemeContext.tsx:161 | the initial selection `theme1` |
| `ThemeContext.InheritedObjectMembers` | src/contexts/ThemeContext.tsx:172 | the twelve names every plain JavaScript object inherits from Object.prototype, assumed truthy when looked up on `themes` |
| `ThemeContext.ThemesLookupIsTruthy` | src/contexts/ThemeContext.tsx:166-172 | every allowed theme id (and every catalog key) passes the truthiness guard; anything else that passes is an id the storage guard refuses |
| `ThemeContext.ThemeProvider.SetThemeAsWritten` | src/contexts/ThemeContext.tsx:171-176 | `setTheme` with the source's truthiness guard: a name that passes becomes the selection, whether or not it is a theme; the store is written only if the storage guard accepts the name and the write succeeds; otherwise nothing changes |
| `ThemeContext.SetThemeGuardAdmitsNonTheme` | src/contexts/ThemeContext.tsx:172 | `"toString"` passes the truthiness guard but is neither a catalog key nor an allowed theme id |
| `ThemeContext.SetThemeAsWrittenLeavesCatalog` | src/contexts/ThemeContext.tsx:171-179 | from every valid state, the as-written `setTheme("toString")` leaves a selection with no theme record, so `currentTheme` is not a theme, and the store is unchanged |
| `ThemeContext.LookupAgreesOnAllowedIds` | src/contexts/ThemeContext.tsx:166 | for ids that pass the storage guard, the source's lookup is catalog membership |
| `ThemeContext.ThemeProvider.constructor` | src/contexts/ThemeContext.tsx:161 | the selection starts at `theme1`, a catalog key |
| `ThemeContext.ThemeProvider.Mount` | src/contexts/ThemeContext.tsx:163-169 | the selection becomes the stored value iff it reads back non-empty and is a catalog key, otherwise it stays; the invariant is kept |
| `ThemeContext.ThemeProvider.SetTheme` | src/contexts/ThemeContext.tsx:171-176 | a non-theme argument changes neither the selection nor storage; a theme id becomes the selection and is written back unless the write fails, which does not undo the selection; the invariant is kept |
| `ThemeContext.ThemeProvider.CurrentTheme` | src/contexts/ThemeContext.tsx:179 | the current theme is always defined: a catalog record whose id is the selection |
| `ThemeContext.RestoredSelection` | src/contexts/ThemeContext.tsx:161-169 | the id a fresh mount restores is always a catalog key: the stored id when it is allowed, `theme1` otherwise |
| `ThemeContext.MountFresh` | src/contexts/ThemeContext.tsx:161-169 | a fresh provider mounted on a store selects RestoredSelection of its content, or `theme1` when the store cannot be read |
| `ThemeContext.PersistenceRoundTrip` | src/contexts/ThemeContext.tsx:165-174 | after `setTheme(x)` with a successful write, a fresh provider's mount restores x; otherwise it restores what the store held before |
| `ThemeContext.ProviderShowing` | src/contexts/ThemeContext.tsx:161-176 | a fresh provider on a fresh store can be brought to any catalog theme without writing to the store, by a `setTheme` whose write fails |
| `ThemeContext.SetThemeIdempotent` | src/contexts/ThemeContext.tsx:171-176 | calling `setTheme(x)` twice leaves the same selection and store as calling it once |

## Left out

- Rendering is not modelled: the pages, the components, the React context plumbing (`createContext`, `useContext`, the `useTheme` throw), style strings and animations. The colour, typography and animation strings are carried as opaque data.
- React's state updates are deferred and batched; the model applies `setCurrentThemeId` at once, in program order.
- Home's product fetch, Contact's submit handler and its simulated delay are not modelled. They are network I/O and asynchronous UI code.
- The CSP violation listener (`reportCSPViolation` and its registration) is not modelled. It only logs.
- ThemeContext.ThemesLookupIsTruthy: the twelve names looked up through Object.prototype (`constructor`, `hasOwnProperty`, `isPrototypeOf`, `propertyIsEnumerable`, `toLocaleString`, `toString`, `valueOf`, `__proto__`, `__defineGetter__`, `__defineSetter__`, `__lookupGetter__`, `__lookupSetter__`) are an assumption about the JavaScript runtime, written down as the constant `InheritedObjectMembers`; they cannot be derived in the model.
- `console.warn` logging is not modelled. It has no effect on state or results.
- The real `localStorage` is not modelled. Its content is a map, and whether it throws is a per-call parameter.
- `Date.now()` is the parameter `now`. Timestamps are unbounded integers, not IEEE doubles.
- Security.SanitizeInput: lengths count Unicode scalar values, whereas JavaScript's `length` and `substring` count UTF-16 code units. The two differ for characters outside the Basic Multilingual Plane.
- Security.IsValidEmail: `length <= 254` counts Unicode scalar values rather than UTF-16 code units, for the same reason.
- Ledger entries for identifiers with no recent activity are never removed, as in the source. The ledger grows with the number of distinct identifiers.

## Findings

| source | as written | input that shows it | evidently intended | confidence | as-written member | corrected member |
|---|---|---|---|---|---|---|
| src/contexts/ThemeContext.tsx:172 | `setTheme` guards with `themes[themeId]`. On a plain object literal this is also truthy for names inherited from Object.prototype. | `setTheme("toString")` sets `currentThemeId` to `"toString"`, so `currentTheme` is a function and not a theme. `secureStorage.set` then refuses to store it. | Only own catalog keys pass the guard. An unrecognised id is a no-op. | high, not executed | `ThemeContext.SetThemeAsWrittenLeavesCatalog` | `ThemeContext.ThemeProvider.SetTheme` |
