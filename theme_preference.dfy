/**
 * The colour-theme preference of the web app (`useThemePreference`): the
 * chosen preference (`light`, `dark` or `system`), the theme it resolves to,
 * the stored key it is mirrored into and the `prefers-color-scheme: dark`
 * media query that `system` follows. The media query is `None` when the
 * browser offers none; `browser` is false when there is no window or
 * document.
 */
module ThemePreference {
  import opened Wrappers

  const Light: string := "light"
  const Dark: string := "dark"
  const System: string := "system"

  const ValidPreferences: set<string> := {Light, Dark, System}

  /**
   * `getStoredPreference`: the stored value when it is a valid preference,
   * else `system` (also outside a browser, and when nothing is stored or the
   * read fails, both `None`).
   */
  function GetStoredPreference(browser: bool, stored: Option<string>): (r: string)
    ensures r in ValidPreferences
    ensures browser && stored.Some? && stored.value in ValidPreferences ==> r == stored.value
    ensures !(browser && stored.Some? && stored.value in ValidPreferences) ==> r == System
  {
    if browser && stored.Some? && stored.value in ValidPreferences then stored.value else System
  }

  /** `resolveTheme`: a preference other than `system` is kept; `system` follows the query, light without one. */
  function ResolveTheme(preference: string, media: Option<bool>): (r: string)
    ensures preference != System ==> r == preference
    ensures preference == System ==> (r == Dark <==> media == Some(true)) && (r == Light <==> media != Some(true))
  {
    if preference == System then
      if media.Some? then (if media.value then Dark else Light) else Light
    else preference
  }

  /** A valid preference always resolves to a concrete theme. */
  lemma ResolvedIsConcrete(preference: string, media: Option<bool>)
    requires preference in ValidPreferences
    ensures ResolveTheme(preference, media) in {Light, Dark}
  {
  }

  /** What the storage effect leaves under the key: nothing for `system`, the preference otherwise. */
  function StoredFor(preference: string): (r: Option<string>)
    ensures r.None? <==> preference == System
    ensures r.Some? ==> r.value == preference
  {
    if preference == System then None else Some(preference)
  }

  /** A valid preference that was chosen is the one read back on the next load. */
  lemma ReloadRestoresPreference(preference: string)
    requires preference in ValidPreferences
    ensures GetStoredPreference(true, StoredFor(preference)) == preference
  {
  }

  /** The hook's state together with the stored key and the media query it watches. */
  class ThemeState {
    const browser: bool
    var preference: string
    var resolvedTheme: string
    var stored: Option<string>
    var media: Option<bool>

    /** In a browser, the theme follows the preference and the storage mirrors it. */
    predicate Valid()
      reads this
    {
      browser ==> resolvedTheme == ResolveTheme(preference, media) && stored == StoredFor(preference)
    }

    /** The first render, followed by both effects. */
    constructor (browser: bool, stored: Option<string>, media: Option<bool>)
      ensures this.browser == browser && this.media == media
      ensures preference == GetStoredPreference(browser, stored)
      ensures resolvedTheme == ResolveTheme(preference, if browser then media else None)
      ensures browser ==> this.stored == StoredFor(preference)
      ensures !browser ==> this.stored == stored
      ensures Valid()
    {
      this.browser := browser;
      this.media := media;
      var p := GetStoredPreference(browser, stored);
      preference := p;
      resolvedTheme := ResolveTheme(p, if browser then media else None);
      this.stored := if browser then StoredFor(p) else stored;
    }

    /** `setPreference`, then the effects that run on the change (nothing but the state outside a browser). */
    method SetPreference(p: string)
      requires Valid()
      modifies this
      ensures Valid()
      ensures preference == p && media == old(media)
      ensures browser ==> resolvedTheme == ResolveTheme(p, media) && stored == StoredFor(p)
      ensures !browser ==> resolvedTheme == old(resolvedTheme) && stored == old(stored)
    {
      preference := p;
      if browser {
        resolvedTheme := ResolveTheme(p, media);
        stored := StoredFor(p);
      }
    }

    /** A `change` event of the media query: the theme follows it only while the preference is `system`. */
    method MediaChange(matches: bool)
      requires Valid() && browser && media.Some?
      modifies this`media, this`resolvedTheme
      ensures Valid()
      ensures media == Some(matches)
      ensures preference == System ==> resolvedTheme == (if matches then Dark else Light)
      ensures preference != System ==> resolvedTheme == old(resolvedTheme)
    {
      media := Some(matches);
      if preference == System {
        resolvedTheme := if matches then Dark else Light;
      }
    }
  }
}
