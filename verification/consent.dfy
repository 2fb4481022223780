/**
 * The cookie-consent store (stores/consent.ts) as a state machine. The module-level
 * variables `currentState` and `isInitialized` form a `Store`; the consent cookie and the
 * `localStorage` entry form a `Browser`, which the store reads when it initialises and
 * writes on every update. Listeners, events and the cookie and JSON encodings are not part
 * of this model; a state written and read back is the same state.
 */
module Consent {
  import opened Wrappers

  datatype Preferences = Preferences(essential: bool, analytics: bool, marketing: bool)

  datatype ConsentState = ConsentState(hasInteracted: bool, preferences: Preferences, timestamp: int,
                                       version: string)

  /** The categories `hasConsent` can ask about. */
  datatype Category = Essential | Analytics | Marketing

  const CurrentVersion: string := "1.0"

  const DefaultPreferences: Preferences := Preferences(true, false, false)

  const DefaultState: ConsentState := ConsentState(false, DefaultPreferences, 0, CurrentVersion)

  /** What reading the consent cookie yields. */
  datatype CookieRead =
    | NoCookie                          // no cookie, or an empty value
    | Unusable                          // not JSON, or JSON without a `preferences` object
    | CookieState(state: ConsentState)

  /** What reading the `localStorage` entry yields. */
  datatype StorageRead =
    | NothingStored                     // no entry, invalid JSON, or a falsy JSON value
    | NoPreferences                     // a truthy JSON value without a `preferences` object
    | StoredState(state: ConsentState)

  /**
   * The browser as the store sees it: `present` says whether `window`, `document` and
   * `localStorage` exist (false while rendering on the server).
   */
  datatype Browser = Browser(present: bool, cookie: CookieRead, storage: StorageRead)

  datatype Store = Store(current: ConsentState, initialized: bool)

  datatype World = World(store: Store, browser: Browser)

  /** A query's answer together with the world after it (a query may initialise the store). */
  datatype Outcome = Outcome(world: World, state: ConsentState)

  /** The store as the module loads it. */
  const Loaded: Store := Store(DefaultState, false)

  /** `preferences.essential = true`. */
  function WithEssential(s: ConsentState): (r: ConsentState)
    ensures r.preferences.essential
    ensures r.hasInteracted == s.hasInteracted && r.timestamp == s.timestamp && r.version == s.version
    ensures r.preferences.analytics == s.preferences.analytics && r.preferences.marketing == s.preferences.marketing
  {
    s.(preferences := s.preferences.(essential := true))
  }

  /** `setCookie` plus `setToStorage` of the same state. */
  function Persist(b: Browser, s: ConsentState): Browser {
    if b.present then b.(cookie := CookieState(s), storage := StoredState(s)) else b
  }

  // ---------------------------------------------------------------------------------------
  // initializeConsent

  /**
   * `initializeConsent` as written: a usable cookie wins and is copied to storage, else a
   * stored state is used and copied to the cookie, else the current state stays. A stored
   * truthy value without `preferences` makes the `essential` assignment throw (`Failure`).
   */
  function InitializeAsWritten(w: World): (r: Result<Outcome, string>)
    ensures !w.browser.present ==> r == Success(Outcome(w, DefaultState))
    ensures w.browser.present && w.store.initialized ==> r == Success(Outcome(w, w.store.current))
  {
    if !w.browser.present then Success(Outcome(w, DefaultState))
    else if w.store.initialized then Success(Outcome(w, w.store.current))
    else
      match w.browser.cookie
      case CookieState(s) =>
        var s' := WithEssential(s);
        Success(Outcome(World(Store(s', true), w.browser.(storage := StoredState(s'))), s'))
      case _ =>
        match w.browser.storage
        case StoredState(s) =>
          var s' := WithEssential(s);
          Success(Outcome(World(Store(s', true), w.browser.(cookie := CookieState(s'))), s'))
        case NoPreferences => Failure("TypeError: cannot set essential of undefined preferences")
        case NothingStored => Success(Outcome(w.(store := w.store.(initialized := true)), w.store.current))
  }

  /** An entry such as `"1"` or `"{}"` in storage, with no usable cookie, throws out of initialisation. */
  lemma InitializeThrowsOnBareStorage(current: ConsentState, cookie: CookieRead)
    requires !cookie.CookieState?
    ensures InitializeAsWritten(World(Store(current, false), Browser(true, cookie, NoPreferences))).Failure?
  {
  }

  /**
   * `initializeConsent` with a stored value lacking `preferences` skipped like an unparsable
   * one, as the cookie branch already does.
   */
  function Initialize(w: World): (r: Outcome)
    ensures !w.browser.present ==> r == Outcome(w, DefaultState)
    ensures w.browser.present && w.store.initialized ==> r == Outcome(w, w.store.current)
    ensures w.browser.present ==> r.world.store.initialized && r.state == r.world.store.current
  {
    if !w.browser.present then Outcome(w, DefaultState)
    else if w.store.initialized then Outcome(w, w.store.current)
    else
      match w.browser.cookie
      case CookieState(s) =>
        var s' := WithEssential(s);
        Outcome(World(Store(s', true), w.browser.(storage := StoredState(s'))), s')
      case _ =>
        match w.browser.storage
        case StoredState(s) =>
          var s' := WithEssential(s);
          Outcome(World(Store(s', true), w.browser.(cookie := CookieState(s'))), s')
        case _ => Outcome(w.(store := w.store.(initialized := true)), w.store.current)
  }

  /**
   * The corrected initialisation agrees with the code wherever the code does not throw, and
   * the code throws only on a stored value without `preferences`, which the corrected one
   * treats like no stored value.
   */
  lemma InitializeAgrees(w: World)
    ensures InitializeAsWritten(w).Success? ==> Initialize(w) == InitializeAsWritten(w).value
    ensures InitializeAsWritten(w).Failure? ==>
              w.browser.storage == NoPreferences &&
              Initialize(w) == Initialize(w.(browser := w.browser.(storage := NothingStored))).(world := Initialize(w).world)
  {
  }

  /** Initialising twice is initialising once. */
  lemma InitializeIdempotent(w: World)
    ensures var o := Initialize(w); Initialize(o.world) == o
  {
  }

  /** A usable cookie takes precedence over whatever storage holds, and is copied into it. */
  lemma CookieFirst(current: ConsentState, s: ConsentState, storage: StorageRead)
    ensures var o := Initialize(World(Store(current, false), Browser(true, CookieState(s), storage)));
            o.state == WithEssential(s) && o.world.browser.storage == StoredState(WithEssential(s))
  {
  }

  /** Without a usable cookie a stored state is used, and copied into the cookie. */
  lemma StorageSecond(current: ConsentState, cookie: CookieRead, s: ConsentState)
    requires !cookie.CookieState?
    ensures var o := Initialize(World(Store(current, false), Browser(true, cookie, StoredState(s))));
            o.state == WithEssential(s) && o.world.browser.cookie == CookieState(WithEssential(s))
  {
  }

  /** The store's `essential` flag is always set. */
  ghost predicate EssentialHeld(w: World) {
    w.store.current.preferences.essential
  }

  /** Initialisation keeps `essential` set, and answers with an `essential` state. */
  lemma InitializeKeepsEssential(w: World)
    requires EssentialHeld(w)
    ensures EssentialHeld(Initialize(w).world) && Initialize(w).state.preferences.essential
  {
  }

  // ---------------------------------------------------------------------------------------
  // Queries

  /** `getConsentState`. */
  function GetConsentState(w: World): (r: Outcome)
    ensures w.store.initialized ==> r == Outcome(w, w.store.current)
  {
    if !w.store.initialized then Initialize(w) else Outcome(w, w.store.current)
  }

  /**
   * `getConsentState` over the initialisation as written: it throws where that does, and so
   * do `hasConsent`, `getConsentDate` and `setPreferences`, which all start with it.
   */
  function GetConsentStateAsWritten(w: World): (r: Result<Outcome, string>)
    ensures w.store.initialized ==> r == Success(Outcome(w, w.store.current))
  {
    if !w.store.initialized then InitializeAsWritten(w) else Success(Outcome(w, w.store.current))
  }

  /**
   * The query over the corrected initialisation answers what the code answers wherever the
   * code does not throw, and the code throws exactly on an uninitialised store in the browser
   * with no usable cookie and a stored value without `preferences`.
   */
  lemma GetConsentStateAgrees(w: World)
    ensures GetConsentStateAsWritten(w).Success? ==> GetConsentStateAsWritten(w).value == GetConsentState(w)
    ensures GetConsentStateAsWritten(w).Failure? <==>
      !w.store.initialized && w.browser.present && !w.browser.cookie.CookieState? &&
      w.browser.storage == NoPreferences
  {
    InitializeAgrees(w);
  }

  function Granted(p: Preferences, c: Category): bool {
    match c
    case Essential => p.essential
    case Analytics => p.analytics
    case Marketing => p.marketing
  }

  /** `hasConsent(category)`. */
  function HasConsent(w: World, c: Category): bool {
    Granted(GetConsentState(w).state.preferences, c)
  }

  /** Essential consent is always granted. */
  lemma EssentialAlwaysGranted(w: World)
    requires EssentialHeld(w)
    ensures HasConsent(w, Essential)
  {
  }

  /**
   * `getConsentDate` without the locale formatting: the timestamp to format, or `None` for
   * `null`.
   */
  function ConsentDate(w: World): (r: Option<int>)
    ensures r.None? <==> !GetConsentState(w).state.hasInteracted || GetConsentState(w).state.timestamp == 0
    ensures r.Some? ==> r.value == GetConsentState(w).state.timestamp
  {
    var s := GetConsentState(w).state;
    if !s.hasInteracted || s.timestamp == 0 then None else Some(s.timestamp)
  }

  // ---------------------------------------------------------------------------------------
  // Updates

  /** `updateState`: installs the state with `essential` forced on, and persists it. */
  function UpdateState(w: World, s: ConsentState): (r: World)
    ensures r.store.current.preferences.essential && r.store.initialized == w.store.initialized
    ensures w.browser.present ==> r.browser.cookie == CookieState(r.store.current) &&
                                  r.browser.storage == StoredState(r.store.current)
  {
    var s' := WithEssential(s);
    World(Store(s', w.store.initialized), Persist(w.browser, s'))
  }

  function AcceptAll(w: World, now: int): World {
    UpdateState(w, ConsentState(true, Preferences(true, true, true), now, CurrentVersion))
  }

  function RejectAll(w: World, now: int): World {
    UpdateState(w, ConsentState(true, Preferences(true, false, false), now, CurrentVersion))
  }

  /** `Partial<ConsentPreferences>`: `None` for a missing (or `null`) field. */
  datatype PartialPreferences = PartialPreferences(essential: Option<bool>, analytics: Option<bool>,
                                                   marketing: Option<bool>)

  function SetPreferences(w: World, p: PartialPreferences, now: int): World {
    var o := GetConsentState(w);
    var c := o.state.preferences;
    UpdateState(o.world, ConsentState(true, Preferences(true, p.analytics.GetOr(c.analytics),
                                                        p.marketing.GetOr(c.marketing)), now, CurrentVersion))
  }

  /** `resetConsent`: default state, not initialised, cookie and storage entry removed. */
  function ResetConsent(w: World): World {
    var b := w.browser;
    World(Loaded, if b.present then b.(cookie := NoCookie, storage := NothingStored) else b)
  }

  /** A state installed by an update reads back, whether or not the store was initialised. */
  lemma UpdateReadsBack(w: World, s: ConsentState)
    requires w.browser.present
    ensures GetConsentState(UpdateState(w, s)).state == WithEssential(s)
  {
  }

  /** After accepting all, every category is granted and the consent date is the time of acceptance. */
  lemma AcceptAllGrants(w: World, now: int, c: Category)
    requires w.browser.present
    ensures HasConsent(AcceptAll(w, now), c)
    ensures GetConsentState(AcceptAll(w, now)).state.hasInteracted
    ensures GetConsentState(AcceptAll(w, now)).state.version == CurrentVersion
    ensures now != 0 ==> ConsentDate(AcceptAll(w, now)) == Some(now)
  {
    UpdateReadsBack(w, ConsentState(true, Preferences(true, true, true), now, CurrentVersion));
  }

  /** After rejecting all, only essential consent is granted, and the choice is recorded. */
  lemma RejectAllDenies(w: World, now: int)
    requires w.browser.present
    ensures HasConsent(RejectAll(w, now), Essential)
    ensures !HasConsent(RejectAll(w, now), Analytics) && !HasConsent(RejectAll(w, now), Marketing)
    ensures GetConsentState(RejectAll(w, now)).state.hasInteracted
  {
    UpdateReadsBack(w, ConsentState(true, Preferences(true, false, false), now, CurrentVersion));
  }

  /**
   * Supplied fields override, missing ones keep the values the store held, `essential` is
   * always on whatever is supplied, and the choice counts as an interaction.
   */
  lemma SetPreferencesMerges(w: World, p: PartialPreferences, now: int)
    ensures var before := GetConsentState(w).state.preferences;
            var after := SetPreferences(w, p, now).store.current;
            after.hasInteracted && after.preferences.essential && after.timestamp == now &&
            after.preferences.analytics == (if p.analytics.Some? then p.analytics.value else before.analytics) &&
            after.preferences.marketing == (if p.marketing.Some? then p.marketing.value else before.marketing)
  {
  }

  /** Setting the same preferences again changes nothing but the timestamp. */
  lemma SetPreferencesIdempotent(w: World, p: PartialPreferences, t1: int, t2: int)
    ensures SetPreferences(SetPreferences(w, p, t1), p, t2).store.current ==
            SetPreferences(w, p, t1).store.current.(timestamp := t2)
  {
    var o := GetConsentState(w);
    var w1 := SetPreferences(w, p, t1);
    if o.world.store.initialized {
      assert GetConsentState(w1) == Outcome(w1, w1.store.current);
    } else {
      assert GetConsentState(w1).state == DefaultState;
    }
  }

  /** After a reset the store answers with the default state again: no consent recorded. */
  lemma ResetForgets(w: World)
    ensures ResetConsent(w).store == Loaded
    ensures GetConsentState(ResetConsent(w)).state == DefaultState
    ensures !GetConsentState(ResetConsent(w)).state.hasInteracted
    ensures ConsentDate(ResetConsent(w)).None?
  {
  }

  /** No transition ever clears `essential`. */
  lemma TransitionsKeepEssential(w: World, p: PartialPreferences, now: int)
    requires EssentialHeld(w)
    ensures EssentialHeld(AcceptAll(w, now)) && EssentialHeld(RejectAll(w, now))
    ensures EssentialHeld(SetPreferences(w, p, now)) && EssentialHeld(ResetConsent(w))
    ensures EssentialHeld(GetConsentState(w).world) && EssentialHeld(Initialize(w).world)
  {
    InitializeKeepsEssential(w);
  }
}
