/**
 * The input guard of the theme switcher (src/utils/security.ts): a sanitizer
 * for free text, an e-mail shape check, the theme-id allow-list, a
 * per-identifier sliding-window rate limiter and a validating wrapper over the
 * browser's key/value store.
 */
module Security {
  import opened Wrappers

  // ---------------------------------------------------------------------------
  // White space
  // ---------------------------------------------------------------------------

  /**
   * ECMAScript WhiteSpace and LineTerminator code points. Both
   * String.prototype.trim and the regular-expression class \s use this set.
   */
  predicate IsWs(c: char) {
    || c == '\t' || c == '\n' || c == '\U{000B}' || c == '\U{000C}' || c == '\r'
    || c == ' ' || c == '\U{00A0}' || c == '\U{1680}'
    || ('\U{2000}' <= c <= '\U{200A}')
    || c == '\U{2028}' || c == '\U{2029}' || c == '\U{202F}' || c == '\U{205F}'
    || c == '\U{3000}' || c == '\U{FEFF}'
  }

  function Min(a: int, b: int): int {
    if a <= b then a else b
  }

  // ---------------------------------------------------------------------------
  // sanitizeInput
  // ---------------------------------------------------------------------------

  /** Longest text sanitizeInput lets through. */
  const MaxInputLength: nat := 1000

  /** `replace(/[<>]/g, '')`: every angle bracket removed, all else kept in order. */
  function RemoveBrackets(s: string): (r: string)
    ensures |r| <= |s|
    ensures '<' !in r && '>' !in r
  {
    if s == [] then []
    else (if s[0] == '<' || s[0] == '>' then [] else [s[0]]) + RemoveBrackets(s[1..])
  }

  /** Every character other than a bracket survives, and nothing else appears. */
  lemma {:induction false} RemoveBracketsKeeps(s: string, c: char)
    ensures c in RemoveBrackets(s) <==> c in s && c != '<' && c != '>'
  {
    if s != [] {
      assert s == [s[0]] + s[1..];
      RemoveBracketsKeeps(s[1..], c);
    }
  }

  /** The number of white-space characters at the start of `s`. */
  function LeadingBlanks(s: string): (n: nat)
    ensures n <= |s|
    ensures forall k :: 0 <= k < n ==> IsWs(s[k])
    ensures n < |s| ==> !IsWs(s[n])
  {
    if s == [] || !IsWs(s[0]) then 0 else 1 + LeadingBlanks(s[1..])
  }

  /** The number of white-space characters at the end of `s`. */
  function TrailingBlanks(s: string): (n: nat)
    ensures n <= |s|
    ensures forall k :: |s| - n <= k < |s| ==> IsWs(s[k])
    ensures n < |s| ==> !IsWs(s[|s| - 1 - n])
  {
    if s == [] || !IsWs(s[|s| - 1]) then 0 else 1 + TrailingBlanks(s[..|s| - 1])
  }

  /**
   * `String.prototype.trim`: the leading white space, then the trailing white
   * space of what is left, cut off. The result neither starts nor ends with
   * white space.
   */
  function Trim(s: string): (r: string)
    ensures |r| <= |s|
    ensures r == [] || (!IsWs(r[0]) && !IsWs(r[|r| - 1]))
    ensures forall c :: c in r ==> c in s
  {
    var i := LeadingBlanks(s);
    var n := TrailingBlanks(s[i..]);
    s[i..|s| - n]
  }

  /**
   * What trim returns is the slice of `s` that remains once the white space
   * at both ends is cut off.
   */
  lemma TrimIsSlice(s: string)
    ensures exists i, j :: 0 <= i <= j <= |s| && Trim(s) == s[i..j]
                           && (forall k :: 0 <= k < i ==> IsWs(s[k]))
                           && (forall k :: j <= k < |s| ==> IsWs(s[k]))
  {
    var i := LeadingBlanks(s);
    var n := TrailingBlanks(s[i..]);
    var j := |s| - n;
    forall k | j <= k < |s|
      ensures IsWs(s[k])
    {
      assert s[k] == s[i..][k - i];
    }
    assert Trim(s) == s[i..j];
  }

  /** `sanitizeInput` (security.ts:6-11): strip brackets, trim, keep the first 1000 characters. */
  function SanitizeInput(input: string): (r: string)
    ensures '<' !in r && '>' !in r
    ensures |r| == Min(MaxInputLength, |Trim(RemoveBrackets(input))|)
    ensures r <= Trim(RemoveBrackets(input))
    ensures r == [] || !IsWs(r[0])
  {
    var t := Trim(RemoveBrackets(input));
    if |t| <= MaxInputLength then t else t[..MaxInputLength]
  }

  lemma {:induction false} RemoveBracketsAppend(a: string, b: string)
    ensures RemoveBrackets(a + b) == RemoveBrackets(a) + RemoveBrackets(b)
  {
    if a == [] {
      assert a + b == b;
    } else {
      assert (a + b)[0] == a[0];
      assert (a + b)[1..] == a[1..] + b;
      RemoveBracketsAppend(a[1..], b);
    }
  }

  /** Text without angle brackets passes RemoveBrackets unchanged. */
  lemma {:induction false} RemoveBracketsIdentity(s: string)
    requires '<' !in s && '>' !in s
    ensures RemoveBrackets(s) == s
  {
    if s != [] {
      assert s == [s[0]] + s[1..];
      RemoveBracketsIdentity(s[1..]);
    }
  }

  lemma TrimOfTrimmed(s: string)
    requires s == [] || (!IsWs(s[0]) && !IsWs(s[|s| - 1]))
    ensures Trim(s) == s
  {
    assert LeadingBlanks(s) == 0;
    assert s[0..] == s;
  }

  /** Trimming a non-empty text that ends in white space shortens it. */
  lemma TrimShortensBlankEnd(s: string)
    requires s != [] && IsWs(s[|s| - 1])
    ensures |Trim(s)| < |s|
  {
    var i := LeadingBlanks(s);
    if i < |s| {
      assert s[i..][|s| - i - 1] == s[|s| - 1];
    }
  }

  /** Trimmed, bracket-free text of at most 1000 characters is left alone by sanitizeInput. */
  lemma SanitizeFixpoint(s: string)
    requires '<' !in s && '>' !in s && |s| <= MaxInputLength
    requires s == [] || (!IsWs(s[0]) && !IsWs(s[|s| - 1]))
    ensures SanitizeInput(s) == s
  {
    RemoveBracketsIdentity(s);
    TrimOfTrimmed(s);
  }

  /**
   * sanitizeInput is idempotent exactly when truncation does not leave
   * white space as the last kept character: the text after bracket removal
   * and trimming is at most 1000 long, or its 1000th character is not blank.
   */
  lemma SanitizeIdempotentIff(input: string)
    ensures var t := Trim(RemoveBrackets(input));
            SanitizeInput(SanitizeInput(input)) == SanitizeInput(input)
            <==> !(|t| > MaxInputLength && IsWs(t[MaxInputLength - 1]))
  {
    var t := Trim(RemoveBrackets(input));
    var r := SanitizeInput(input);
    if |t| <= MaxInputLength {
      assert r == t;
      SanitizeFixpoint(r);
    } else if !IsWs(t[MaxInputLength - 1]) {
      assert r[0] == t[0] && r[|r| - 1] == t[MaxInputLength - 1];
      SanitizeFixpoint(r);
    } else {
      assert r[|r| - 1] == t[MaxInputLength - 1];
      RemoveBracketsIdentity(r);
      TrimShortensBlankEnd(r);
    }
  }

  /** 999 letters, a blank, then one more letter: truncation keeps the blank. */
  lemma SanitizeNotIdempotent()
    ensures exists s :: SanitizeInput(SanitizeInput(s)) != SanitizeInput(s)
  {
    var s := seq(999, _ => 'a') + " b";
    RemoveBracketsIdentity(s);
    TrimOfTrimmed(s);
    assert Trim(RemoveBrackets(s)) == s;
    assert s[MaxInputLength - 1] == ' ';
    SanitizeIdempotentIff(s);
  }

  /** Text wrapped in pieces that consist only of brackets comes out as its inside. */
  lemma RemoveBracketsUnwraps(a: string, b: string, c: string)
    requires RemoveBrackets(a) == [] && RemoveBrackets(c) == []
    ensures RemoveBrackets(a + b + c) == RemoveBrackets(b)
  {
    RemoveBracketsAppend(a, b);
    RemoveBracketsAppend(a + b, c);
  }

  // ---------------------------------------------------------------------------
  // isValidEmail
  // ---------------------------------------------------------------------------

  /** Longest address isValidEmail accepts. */
  const MaxEmailLength: nat := 254

  /** The regular-expression class `[^\s@]`. */
  predicate IsEmailChar(c: char) {
    !IsWs(c) && c != '@'
  }

  predicate AllEmailChars(s: string) {
    forall k :: 0 <= k < |s| ==> IsEmailChar(s[k])
  }

  /**
   * What `/^[^\s@]+@[^\s@]+\.[^\s@]+$/` accepts: the whole text splits as a
   * non-empty run of `[^\s@]`, `@`, a non-empty run, `.`, a non-empty run.
   */
  ghost predicate MatchesEmailPattern(e: string) {
    exists i, j :: 0 < i && i + 1 < j && j + 1 < |e| && e[i] == '@' && e[j] == '.'
                   && AllEmailChars(e[..i]) && AllEmailChars(e[i + 1..j]) && AllEmailChars(e[j + 1..])
  }

  /** Index of the first `c` in `s`, or `|s|` when there is none. */
  function IndexOf(s: string, c: char): (r: nat)
    ensures r <= |s|
    ensures r < |s| ==> s[r] == c
    ensures forall k :: 0 <= k < r ==> s[k] != c
  {
    if s == [] then 0
    else if s[0] == c then 0
    else 1 + IndexOf(s[1..], c)
  }

  /** A `.` somewhere other than the first or last position. */
  predicate HasInteriorDot(d: string) {
    exists k :: 0 < k < |d| - 1 && d[k] == '.'
  }

  /** The pattern, checked by locating the `@` and inspecting both sides. */
  predicate HasEmailShape(e: string) {
    var at := IndexOf(e, '@');
    && 0 < at < |e|
    && AllEmailChars(e[..at])
    && AllEmailChars(e[at + 1..])
    && HasInteriorDot(e[at + 1..])
  }

  lemma AllEmailCharsSlice(s: string, lo: int, hi: int)
    requires AllEmailChars(s) && 0 <= lo <= hi <= |s|
    ensures AllEmailChars(s[lo..hi])
  {
    assert forall k :: 0 <= k < hi - lo ==> s[lo..hi][k] == s[lo + k];
  }

  lemma ShapeGivesPattern(e: string)
    requires HasEmailShape(e)
    ensures MatchesEmailPattern(e)
  {
    var i := IndexOf(e, '@');
    var d := e[i + 1..];
    var k :| 0 < k < |d| - 1 && d[k] == '.';
    var j := i + 1 + k;
    AllEmailCharsSlice(d, 0, k);
    AllEmailCharsSlice(d, k + 1, |d|);
    assert e[i + 1..j] == d[0..k];
    assert e[j + 1..] == d[k + 1..|d|];
    assert e[i] == '@' && e[j] == '.';
  }

  lemma PatternGivesShape(e: string, i: int, j: int)
    requires 0 < i && i + 1 < j && j + 1 < |e| && e[i] == '@' && e[j] == '.'
    requires AllEmailChars(e[..i]) && AllEmailChars(e[i + 1..j]) && AllEmailChars(e[j + 1..])
    ensures HasEmailShape(e)
  {
    assert forall k :: 0 <= k < i ==> e[..i][k] == e[k];
    assert IndexOf(e, '@') == i;
    var d := e[i + 1..];
    assert IsEmailChar('.');
    forall k | 0 <= k < |d|
      ensures IsEmailChar(d[k])
    {
      if k < j - i - 1 {
        assert d[k] == e[i + 1..j][k];
      } else if k > j - i - 1 {
        assert d[k] == e[j + 1..][k - (j - i)];
      }
    }
    assert d[j - i - 1] == '.';
  }

  lemma EmailShapeIsPattern(e: string)
    ensures HasEmailShape(e) <==> MatchesEmailPattern(e)
  {
    if HasEmailShape(e) {
      ShapeGivesPattern(e);
    }
    if MatchesEmailPattern(e) {
      var i, j :| 0 < i && i + 1 < j && j + 1 < |e| && e[i] == '@' && e[j] == '.'
                  && AllEmailChars(e[..i]) && AllEmailChars(e[i + 1..j]) && AllEmailChars(e[j + 1..]);
      PatternGivesShape(e, i, j);
    }
  }

  /** `isValidEmail` (security.ts:16-19): the pattern matches and the length is at most 254. */
  function IsValidEmail(email: string): (r: bool)
    ensures r <==> MatchesEmailPattern(email) && |email| <= MaxEmailLength
  {
    EmailShapeIsPattern(email);
    HasEmailShape(email) && |email| <= MaxEmailLength
  }

  /** No white space anywhere in `e`. */
  predicate NoBlanks(e: string) {
    forall k :: 0 <= k < |e| ==> !IsWs(e[k])
  }

  /** `e[i]` is the one and only `@` of `e`, and it is not the first character. */
  predicate SoleAtSign(e: string, i: int) {
    && 0 < i < |e| && e[i] == '@'
    && forall k :: 0 <= k < |e| && e[k] == '@' ==> k == i
  }

  lemma ShapeGivesSoleAtSign(e: string)
    requires HasEmailShape(e)
    ensures NoBlanks(e) && SoleAtSign(e, IndexOf(e, '@'))
  {
    var i := IndexOf(e, '@');
    forall k | 0 <= k < |e|
      ensures !IsWs(e[k]) && (e[k] == '@' ==> k == i)
    {
      if k < i {
        assert e[k] == e[..i][k];
      } else if k > i {
        assert e[k] == e[i + 1..][k - i - 1];
      }
    }
  }

  lemma SoleAtSignGivesShape(e: string, i: int)
    requires NoBlanks(e) && SoleAtSign(e, i) && HasInteriorDot(e[i + 1..])
    ensures HasEmailShape(e)
  {
    assert IndexOf(e, '@') == i;
    assert forall k :: 0 <= k < i ==> e[..i][k] == e[k];
    var d := e[i + 1..];
    assert forall k :: 0 <= k < |d| ==> d[k] == e[i + 1 + k];
  }

  /**
   * An accepted address is at most 254 long, holds no white space and
   * exactly one `@`, has a non-empty part before the `@`, and has a `.` in
   * its domain that is neither its first nor its last character; and every
   * such text is accepted.
   */
  lemma EmailValidIff(e: string)
    ensures IsValidEmail(e) <==>
            && |e| <= MaxEmailLength
            && NoBlanks(e)
            && exists i :: SoleAtSign(e, i) && HasInteriorDot(e[i + 1..])
  {
    if IsValidEmail(e) {
      ShapeGivesSoleAtSign(e);
      var i := IndexOf(e, '@');
      assert SoleAtSign(e, i) && HasInteriorDot(e[i + 1..]);
    }
    if && |e| <= MaxEmailLength && NoBlanks(e)
       && exists i :: SoleAtSign(e, i) && HasInteriorDot(e[i + 1..])
    {
      var i :| SoleAtSign(e, i) && HasInteriorDot(e[i + 1..]);
      SoleAtSignGivesShape(e, i);
    }
  }

  // ---------------------------------------------------------------------------
  // isValidThemeId
  // ---------------------------------------------------------------------------

  /** The allow-list of theme ids, in order. */
  const AllowedThemeIds: seq<string> := ["theme1", "theme2", "theme3"]

  /** `isValidThemeId` (security.ts:24-27). */
  function IsValidThemeId(themeId: string): (r: bool)
    ensures r <==> themeId == "theme1" || themeId == "theme2" || themeId == "theme3"
    ensures r ==> themeId != ""
  {
    themeId in AllowedThemeIds
  }

  // ---------------------------------------------------------------------------
  // RateLimiter
  // ---------------------------------------------------------------------------

  /** `maxAttempts`: at most this many accepted attempts per window. */
  const MaxAttempts: nat := 5
  /** `windowMs`: 15 minutes, in milliseconds. */
  const WindowMs: int := 15 * 60 * 1000

  /** `this.attempts.get(identifier) || []`. */
  function Entry(ledger: map<string, seq<int>>, identifier: string): seq<int> {
    if identifier in ledger then ledger[identifier] else []
  }

  /** `filter(time => now - time < windowMs)`: the timestamps still inside the window. */
  function Recent(timestamps: seq<int>, now: int): (r: seq<int>)
    ensures |r| <= |timestamps|
    ensures forall t :: t in r <==> t in timestamps && now - t < WindowMs
  {
    if timestamps == [] then []
    else (if now - timestamps[0] < WindowMs then [timestamps[0]] else []) + Recent(timestamps[1..], now)
  }

  /** Filtering keeps the original order: it distributes over concatenation. */
  lemma {:induction false} RecentAppend(a: seq<int>, b: seq<int>, now: int)
    ensures Recent(a + b, now) == Recent(a, now) + Recent(b, now)
  {
    if a == [] {
      assert a + b == b;
    } else {
      assert (a + b)[0] == a[0];
      assert (a + b)[1..] == a[1..] + b;
      RecentAppend(a[1..], b, now);
      var head := if now - a[0] < WindowMs then [a[0]] else [];
      assert Recent(a + b, now) == head + Recent(a[1..] + b, now);
      assert Recent(a, now) == head + Recent(a[1..], now);
    }
  }

  /** Nothing is dropped when every timestamp is inside the window. */
  lemma {:induction false} RecentOfFresh(timestamps: seq<int>, now: int)
    requires forall t :: t in timestamps ==> now - t < WindowMs
    ensures Recent(timestamps, now) == timestamps
  {
    if timestamps != [] {
      assert timestamps == [timestamps[0]] + timestamps[1..];
      assert timestamps[0] in timestamps;
      assert forall t :: t in timestamps[1..] ==> t in timestamps;
      RecentOfFresh(timestamps[1..], now);
    }
  }

  /** Everything is dropped once every timestamp is at least a window old. */
  lemma {:induction false} RecentOfStale(timestamps: seq<int>, now: int)
    requires forall t :: t in timestamps ==> now - t >= WindowMs
    ensures Recent(timestamps, now) == []
  {
    if timestamps != [] {
      assert timestamps[0] in timestamps;
      assert forall t :: t in timestamps[1..] ==> t in timestamps;
      RecentOfStale(timestamps[1..], now);
    }
  }

  /** The length of the filtered list is the number of stored timestamps inside the window. */
  lemma {:induction false} RecentCountsIndices(timestamps: seq<int>, now: int)
    ensures |Recent(timestamps, now)| == |set i | 0 <= i < |timestamps| && now - timestamps[i] < WindowMs|
  {
    var n := |timestamps|;
    if n != 0 {
      var p := timestamps[..n - 1];
      var x := timestamps[n - 1];
      assert timestamps == p + [x];
      RecentAppend(p, [x], now);
      RecentCountsIndices(p, now);
      var sp := set i | 0 <= i < |p| && now - p[i] < WindowMs;
      var st := set i | 0 <= i < n && now - timestamps[i] < WindowMs;
      if now - x < WindowMs {
        assert st == sp + {n - 1};
        assert n - 1 !in sp;
      } else {
        assert st == sp;
      }
    }
  }

  /**
   * Pruning is lazy without loss: timestamps dropped at `now` would be
   * dropped again at any later time, so pruning early changes nothing.
   */
  lemma {:induction false} RecentLater(timestamps: seq<int>, now: int, later: int)
    requires now <= later
    ensures Recent(Recent(timestamps, now), later) == Recent(timestamps, later)
  {
    if timestamps != [] {
      var head := if now - timestamps[0] < WindowMs then [timestamps[0]] else [];
      RecentAppend(head, Recent(timestamps[1..], now), later);
      RecentLater(timestamps[1..], now, later);
    }
  }

  /**
   * The rate limiter of security.ts:32-54: a ledger from identifier to the
   * timestamps of its accepted attempts.
   */
  class RateLimiter {
    var attempts: map<string, seq<int>>

    /** No stored list is ever longer than the quota. */
    ghost predicate Valid()
      reads this
    {
      forall id :: id in attempts ==> |attempts[id]| <= MaxAttempts
    }

    constructor ()
      ensures Valid() && attempts == map[]
    {
      attempts := map[];
    }

    /**
     * `canAttempt` (security.ts:37-53) with the clock passed in as `now`:
     * prune, check against the quota, then record. A refused call leaves the
     * ledger exactly as it was; an accepted one replaces the caller's list by
     * its surviving timestamps followed by `now` and touches no other entry.
     */
    method CanAttempt(identifier: string, now: int) returns (allowed: bool)
      requires Valid()
      modifies this
      ensures Valid()
      ensures allowed <==> |Recent(Entry(old(attempts), identifier), now)| < MaxAttempts
      ensures attempts == if allowed
                          then old(attempts)[identifier := Recent(Entry(old(attempts), identifier), now) + [now]]
                          else old(attempts)
    {
      var userAttempts := if identifier in attempts then attempts[identifier] else [];
      var recentAttempts := Recent(userAttempts, now);
      if |recentAttempts| >= MaxAttempts {
        return false;
      }
      recentAttempts := recentAttempts + [now];
      attempts := attempts[identifier := recentAttempts];
      return true;
    }
  }

  /** A call while fewer than five attempts, all made at `now`, are on record is accepted. */
  method AttemptAgain(limiter: RateLimiter, identifier: string, now: int, ghost k: nat) returns (allowed: bool)
    requires limiter.Valid() && k < MaxAttempts
    requires Entry(limiter.attempts, identifier) == seq(k, _ => now)
    modifies limiter
    ensures limiter.Valid()
    ensures allowed && Entry(limiter.attempts, identifier) == seq(k + 1, _ => now)
  {
    RecentOfFresh(seq(k, _ => now), now);
    allowed := limiter.CanAttempt(identifier, now);
    assert seq(k, _ => now) + [now] == seq(k + 1, _ => now);
  }

  /** Five calls at `now` on a fresh limiter are all accepted and all recorded. */
  method FiveAccepted(identifier: string, now: int) returns (limiter: RateLimiter, outcomes: seq<bool>)
    ensures fresh(limiter) && limiter.Valid()
    ensures outcomes == [true, true, true, true, true]
    ensures Entry(limiter.attempts, identifier) == [now, now, now, now, now]
  {
    limiter := new RateLimiter();
    var a1 := AttemptAgain(limiter, identifier, now, 0);
    var a2 := AttemptAgain(limiter, identifier, now, 1);
    var a3 := AttemptAgain(limiter, identifier, now, 2);
    var a4 := AttemptAgain(limiter, identifier, now, 3);
    var a5 := AttemptAgain(limiter, identifier, now, 4);
    outcomes := [a1, a2, a3, a4, a5];
    assert Entry(limiter.attempts, identifier) == seq(5, _ => now);
  }

  /**
   * After five accepted calls and one refusal at `now`, a call at `later` is
   * accepted exactly when the earlier attempts are at least a full window
   * old (the age bound is strict); when it is, that call alone is on record.
   */
  method RefusalLiftsAfterWindow(identifier: string, now: int, later: int)
    returns (outcomes: seq<bool>, entry: seq<int>)
    ensures |outcomes| == 7 && outcomes[..6] == [true, true, true, true, true, false]
    ensures outcomes[6] <==> later - now >= WindowMs
    ensures outcomes[6] ==> entry == [later]
    ensures !outcomes[6] ==> entry == [now, now, now, now, now]
  {
    var limiter, first := FiveAccepted(identifier, now);
    var five := Entry(limiter.attempts, identifier);
    RecentOfFresh(five, now);
    var a6 := limiter.CanAttempt(identifier, now);
    if later - now >= WindowMs {
      RecentOfStale(five, later);
    } else {
      RecentOfFresh(five, later);
    }
    var a7 := limiter.CanAttempt(identifier, later);
    outcomes := first + [a6, a7];
    entry := limiter.attempts[identifier];
  }

  // ---------------------------------------------------------------------------
  // secureStorage
  // ---------------------------------------------------------------------------

  /** The one key whose values are checked against the theme allow-list. */
  const ThemeStorageKey: string := "selectedTheme"

  /**
   * `secureStorage` (security.ts:61-99) together with the key/value store it
   * wraps. `items` is the store's content; `fails` on each call says whether
   * the store throws, which the wrapper catches and reports.
   */
  class SecureStorage {
    var items: map<string, string>

    constructor (items: map<string, string>)
      ensures this.items == items
    {
      this.items := items;
    }

    /**
     * `get` (security.ts:62-74). A failing store reads as null. A non-empty
     * stored value under the theme key passes only when it is an allowed
     * theme id; an empty one passes through untouched. Other keys read as
     * stored.
     */
    function Get(key: string, fails: bool): (r: Option<string>)
      reads this
      ensures fails ==> r == None
      ensures r.Some? ==> key in items && r.value == items[key]
      ensures !fails && key == ThemeStorageKey && key in items && items[key] != ""
              ==> (r.Some? <==> IsValidThemeId(items[key]))
      ensures !fails && key == ThemeStorageKey && key in items && items[key] == "" ==> r == Some("")
      ensures !fails && key != ThemeStorageKey ==> (r.Some? <==> key in items)
      ensures key == ThemeStorageKey && r.Some? ==> r.value == "" || IsValidThemeId(r.value)
    {
      if fails then None
      else
        var item := if key in items then Some(items[key]) else None;
        if item.Some? && item.value != "" && key == ThemeStorageKey then
          (if IsValidThemeId(item.value) then item else None)
        else item
    }

    /**
     * `set` (security.ts:76-88). A value that is not an allowed theme id is
     * refused under the theme key before the store is touched; otherwise the
     * value is written unless the store fails.
     */
    method Set(key: string, value: string, fails: bool) returns (ok: bool)
      modifies this
      ensures ok <==> !fails && (key == ThemeStorageKey ==> IsValidThemeId(value))
      ensures items == if ok then old(items)[key := value] else old(items)
    {
      if key == ThemeStorageKey && !IsValidThemeId(value) {
        return false;
      }
      if fails {
        return false;
      }
      items := items[key := value];
      return true;
    }

    /** `remove` (security.ts:90-98): the key is deleted unless the store fails. */
    method Remove(key: string, fails: bool) returns (ok: bool)
      modifies this
      ensures ok == !fails
      ensures items == if ok then old(items) - {key} else old(items)
    {
      if fails {
        return false;
      }
      items := items - {key};
      return true;
    }
  }

  /**
   * A write followed by a read of the same key on a store holding `initial`:
   * a successful write reads back, and a refused or failed one leaves what
   * the read returns as it was. A read after remove finds nothing.
   */
  method WriteThenRead(initial: map<string, string>, key: string, value: string, writeFails: bool)
    returns (written: bool, before: Option<string>, after: Option<string>, afterRemove: Option<string>)
    ensures key == ThemeStorageKey && !IsValidThemeId(value) ==> !written
    ensures written <==> !writeFails && (key == ThemeStorageKey ==> IsValidThemeId(value))
    ensures written ==> after == Some(value)
    ensures !written ==> after == before
    ensures afterRemove == None
  {
    var store := new SecureStorage(initial);
    before := store.Get(key, false);
    written := store.Set(key, value, writeFails);
    after := store.Get(key, false);
    var removed := store.Remove(key, false);
    afterRemove := store.Get(key, false);
  }
}
