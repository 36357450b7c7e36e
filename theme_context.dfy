/**
 * The theme registry and selector (src/contexts/ThemeContext.tsx): a constant
 * catalog of three themes keyed by id, and a provider that holds the current
 * selection, restores it from storage when mounted and changes it only
 * through a guarded setter that writes it back.
 */
module ThemeContext {
  import opened Wrappers
  import opened Security

  // ---------------------------------------------------------------------------
  // Theme records (colour, typography and animation strings are opaque data)
  // ---------------------------------------------------------------------------

  /** The layout discriminant `'default' | 'sidebar' | 'grid'`. */
  datatype LayoutKind = Default | Sidebar | Grid

  datatype TextColors = TextColors(primary: string, secondary: string, accent: string)

  datatype Colors = Colors(
    primary: string, secondary: string, accent: string,
    background: string, surface: string, text: TextColors, border: string)

  datatype Typography = Typography(
    fontFamily: string, headingSize: string, bodySize: string,
    headingWeight: string, bodyWeight: string)

  datatype Layout = Layout(
    kind: LayoutKind, containerMaxWidth: string, spacing: string,
    borderRadius: string, shadowSize: string)

  datatype Animations = Animations(transition: string, hover: string)

  datatype Theme = Theme(
    id: string, name: string, colors: Colors, typography: Typography,
    layout: Layout, animations: Animations)

  const MinimalistLight: Theme := Theme(
    "theme1", "Minimalist Light",
    Colors("#2563eb", "#64748b", "#06b6d4", "#ffffff", "#f8fafc",
           TextColors("#1e293b", "#64748b", "#0369a1"), "#e2e8f0"),
    Typography("Inter, system-ui, sans-serif", "text-3xl md:text-4xl", "text-base",
               "font-light", "font-normal"),
    Layout(Default, "max-w-6xl", "space-y-6", "rounded-lg", "shadow-sm"),
    Animations("transition-all duration-300 ease-in-out", "hover:scale-105 hover:shadow-md"))

  const DarkProfessional: Theme := Theme(
    "theme2", "Dark Professional",
    Colors("#fbbf24", "#6b7280", "#10b981", "#111827", "#1f2937",
           TextColors("#f9fafb", "#d1d5db", "#fbbf24"), "#374151"),
    Typography("Georgia, serif", "text-4xl md:text-5xl", "text-lg",
               "font-bold", "font-medium"),
    Layout(Sidebar, "max-w-full", "space-y-8", "rounded-none", "shadow-2xl"),
    Animations("transition-all duration-500 ease-out", "hover:scale-102 hover:shadow-xl"))

  const ColorfulPlayful: Theme := Theme(
    "theme3", "Colorful Playful",
    Colors("#ec4899", "#8b5cf6", "#f59e0b", "#fef3c7", "#ffffff",
           TextColors("#7c2d12", "#a16207", "#be185d"), "#fbbf24"),
    Typography("Pacifico, cursive", "text-5xl md:text-6xl", "text-xl",
               "font-normal", "font-normal"),
    Layout(Grid, "max-w-7xl", "space-y-12", "rounded-3xl", "shadow-xl"),
    Animations("transition-all duration-700 ease-bounce", "hover:scale-110 hover:rotate-1 hover:shadow-2xl"))

  /**
   * The `themes` record (ThemeContext.tsx:40-146). Its keys are exactly the
   * ids the storage guard allows, every record carries its own key as id,
   * and the layouts are default, sidebar and grid in that order.
   */
  function Catalog(): (m: map<string, Theme>)
    ensures forall k :: k in m <==> IsValidThemeId(k)
    ensures forall k :: k in m ==> m[k].id == k
    ensures "theme1" in m && m["theme1"].layout.kind == Default
    ensures "theme2" in m && m["theme2"].layout.kind == Sidebar
    ensures "theme3" in m && m["theme3"].layout.kind == Grid
  {
    map["theme1" := MinimalistLight, "theme2" := DarkProfessional, "theme3" := ColorfulPlayful]
  }

  /** The selection `useState` starts from (ThemeContext.tsx:161). */
  const DefaultThemeId: string := "theme1"

  /** An own key of the catalog: what the selection must always be. */
  predicate IsCatalogKey(id: string) {
    id in Catalog()
  }

  /**
   * `availableThemes: Object.values(themes)` (ThemeContext.tsx:181): every
   * catalog record exactly once, in definition order.
   */
  function AvailableThemes(): (r: seq<Theme>)
    ensures |r| == 3
    ensures r[0].id == "theme1" && r[1].id == "theme2" && r[2].id == "theme3"
    ensures forall i :: 0 <= i < |r| ==> IsCatalogKey(r[i].id) && Catalog()[r[i].id] == r[i]
    ensures forall k :: IsCatalogKey(k) ==> exists i :: 0 <= i < |r| && r[i].id == k
  {
    [MinimalistLight, DarkProfessional, ColorfulPlayful]
  }

  // ---------------------------------------------------------------------------
  // The lookup `themes[id]` as the source evaluates it
  // ---------------------------------------------------------------------------

  /**
   * Property names every plain JavaScript object inherits from
   * Object.prototype; looking one of them up on `themes` yields a function
   * or an object, which is truthy.
   */
  const InheritedObjectMembers: set<string> := {
    "constructor", "hasOwnProperty", "isPrototypeOf", "propertyIsEnumerable",
    "toLocaleString", "toString", "valueOf", "__proto__",
    "__defineGetter__", "__defineSetter__", "__lookupGetter__", "__lookupSetter__"
  }

  /**
   * Whether `themes[key]` is truthy, as ThemeContext.tsx:166 and 172 test it:
   * own catalog keys and inherited Object.prototype members both pass. Every
   * allowed id passes, and whatever else passes is refused by the storage
   * guard.
   */
  function ThemesLookupIsTruthy(key: string): (r: bool)
    ensures IsCatalogKey(key) ==> r
    ensures IsValidThemeId(key) ==> r
    ensures r && !IsCatalogKey(key) ==> !IsValidThemeId(key)
  {
    key in Catalog() || key in InheritedObjectMembers
  }

  /**
   * The guard of `setTheme` as written lets `"toString"` through although it
   * is not a theme, and the storage guard refuses to persist it.
   */
  lemma SetThemeGuardAdmitsNonTheme()
    ensures ThemesLookupIsTruthy("toString") && !IsCatalogKey("toString")
    ensures !IsValidThemeId("toString")
  {
    assert "toString" in InheritedObjectMembers;
  }

  /** For every id the storage guard allows, the source's lookup means catalog membership. */
  lemma LookupAgreesOnAllowedIds(key: string)
    requires IsValidThemeId(key)
    ensures ThemesLookupIsTruthy(key) <==> IsCatalogKey(key)
  {
  }

  // ---------------------------------------------------------------------------
  // ThemeProvider
  // ---------------------------------------------------------------------------

  /**
   * `ThemeProvider` (ThemeContext.tsx:160-189): the state cell
   * `currentThemeId` and the storage it persists to.
   */
  class ThemeProvider {
    var currentThemeId: string
    const storage: SecureStorage

    /** The selection names a catalog theme, so `themes[currentThemeId]` is defined. */
    ghost predicate Valid()
      reads this
    {
      IsCatalogKey(currentThemeId)
    }

    /** `useState<string>('theme1')`. */
    constructor (storage: SecureStorage)
      ensures Valid()
      ensures currentThemeId == DefaultThemeId && this.storage == storage
    {
      currentThemeId := DefaultThemeId;
      this.storage := storage;
    }

    /**
     * The mount effect (ThemeContext.tsx:163-169): a stored id that reads
     * back non-empty and names a theme is adopted; anything else (nothing
     * stored, an empty string, a rejected id, a failing store) keeps the
     * current selection. Storage is not written.
     */
    method Mount(readFails: bool)
      requires Valid()
      modifies this
      ensures Valid()
      ensures var saved := storage.Get(ThemeStorageKey, readFails);
              currentThemeId == if saved.Some? && saved.value != "" && IsCatalogKey(saved.value)
                                then saved.value else old(currentThemeId)
    {
      var savedTheme := storage.Get(ThemeStorageKey, readFails);
      if savedTheme.Some? && savedTheme.value != "" && ThemesLookupIsTruthy(savedTheme.value) {
        LookupAgreesOnAllowedIds(savedTheme.value);
        currentThemeId := savedTheme.value;
      }
    }

    /**
     * `setTheme` (ThemeContext.tsx:171-176), with own-key membership as the
     * guard. An id that is not a theme changes nothing; a theme id becomes
     * the selection and is then written to storage, and a failed write does
     * not undo the selection.
     */
    method SetTheme(themeId: string, writeFails: bool)
      requires Valid()
      modifies this, storage
      ensures Valid()
      ensures currentThemeId == if IsCatalogKey(themeId) then themeId else old(currentThemeId)
      ensures storage.items == if IsCatalogKey(themeId) && !writeFails
                               then old(storage.items)[ThemeStorageKey := themeId]
                               else old(storage.items)
    {
      if IsCatalogKey(themeId) {
        currentThemeId := themeId;
        var written := storage.Set(ThemeStorageKey, themeId, writeFails);
      }
    }

    /**
     * `setTheme` exactly as ThemeContext.tsx:171-176 writes it, guarded by
     * the truthiness of `themes[themeId]`. A name that passes the guard
     * becomes the selection even when it is not a theme; the write-back
     * still goes through the storage guard, which refuses such a name.
     */
    method SetThemeAsWritten(themeId: string, writeFails: bool)
      modifies this, storage
      ensures currentThemeId == if ThemesLookupIsTruthy(themeId) then themeId else old(currentThemeId)
      ensures storage.items == if ThemesLookupIsTruthy(themeId) && IsValidThemeId(themeId) && !writeFails
                               then old(storage.items)[ThemeStorageKey := themeId]
                               else old(storage.items)
    {
      if ThemesLookupIsTruthy(themeId) {
        currentThemeId := themeId;
        var written := storage.Set(ThemeStorageKey, themeId, writeFails);
      }
    }

    /** `currentTheme: themes[currentThemeId]` (ThemeContext.tsx:179): always a catalog record. */
    function CurrentTheme(): (t: Theme)
      reads this
      requires Valid()
      ensures t.id == currentThemeId
      ensures t in AvailableThemes()
    {
      Catalog()[currentThemeId]
    }
  }

  /**
   * What a freshly mounted provider selects on a store holding `items`: the
   * stored theme id when there is one, the default otherwise.
   */
  function RestoredSelection(items: map<string, string>): (id: string)
    ensures IsCatalogKey(id)
    ensures ThemeStorageKey in items && IsValidThemeId(items[ThemeStorageKey]) ==> id == items[ThemeStorageKey]
    ensures !(ThemeStorageKey in items && IsValidThemeId(items[ThemeStorageKey])) ==> id == DefaultThemeId
  {
    if ThemeStorageKey in items && IsValidThemeId(items[ThemeStorageKey]) then items[ThemeStorageKey] else DefaultThemeId
  }

  /**
   * A provider mounted on a store holding `items` selects RestoredSelection
   * of that content, or the default when the store cannot be read.
   */
  method MountFresh(items: map<string, string>, readFails: bool) returns (selection: string)
    ensures !readFails ==> selection == RestoredSelection(items)
    ensures readFails ==> selection == DefaultThemeId
  {
    var storage := new SecureStorage(items);
    var provider := new ThemeProvider(storage);
    provider.Mount(readFails);
    selection := provider.currentThemeId;
  }

  /**
   * Persistence round trip: on a store holding `initial`, one provider
   * selects `themeId`; a second provider mounted afterwards on the same
   * store restores `themeId` when it is a theme and the write succeeded, and
   * otherwise whatever `initial` restored.
   */
  method PersistenceRoundTrip(initial: map<string, string>, themeId: string, writeFails: bool)
    returns (restored: string)
    ensures IsCatalogKey(themeId) && !writeFails ==> restored == themeId
    ensures !(IsCatalogKey(themeId) && !writeFails) ==> restored == RestoredSelection(initial)
  {
    var storage := new SecureStorage(initial);
    var first := new ThemeProvider(storage);
    first.Mount(false);
    first.SetTheme(themeId, writeFails);
    var second := new ThemeProvider(storage);
    second.Mount(false);
    restored := second.currentThemeId;
  }

  /** A fresh provider on a fresh store holding `initial`, showing `start`. */
  method ProviderShowing(initial: map<string, string>, start: string) returns (p: ThemeProvider)
    requires IsCatalogKey(start)
    ensures fresh(p) && fresh(p.storage)
    ensures p.Valid() && p.currentThemeId == start && p.storage.items == initial
  {
    var storage := new SecureStorage(initial);
    p := new ThemeProvider(storage);
    // A failing write selects `start` without touching the store.
    p.SetTheme(start, true);
  }

  /**
   * `setTheme(x)` twice leaves the same selection and the same store as
   * `setTheme(x)` once, starting from the same state.
   */
  method SetThemeIdempotent(initial: map<string, string>, start: string, themeId: string, writeFails: bool)
    returns (once: ThemeProvider, twice: ThemeProvider)
    requires IsCatalogKey(start)
    ensures once.Valid() && twice.Valid()
    ensures once.currentThemeId == twice.currentThemeId
    ensures once.storage.items == twice.storage.items
  {
    once := ProviderShowing(initial, start);
    once.SetTheme(themeId, writeFails);
    twice := ProviderShowing(initial, start);
    twice.SetTheme(themeId, writeFails);
    twice.SetTheme(themeId, writeFails);
  }

  /**
   * From every valid state, the as-written `setTheme("toString")` leaves the
   * provider on a selection with no theme record (so `currentTheme` is not a
   * theme) and does not touch the store.
   */
  method SetThemeAsWrittenLeavesCatalog(initial: map<string, string>, start: string, writeFails: bool)
    returns (p: ThemeProvider)
    requires IsCatalogKey(start)
    ensures p.currentThemeId == "toString" && !p.Valid()
    ensures p.storage.items == initial
  {
    p := ProviderShowing(initial, start);
    SetThemeGuardAdmitsNonTheme();
    p.SetThemeAsWritten("toString", writeFails);
  }
}
