/** The colour-theme preference: the in-memory dark flag, the `dark` class on the document
    element, and the single `theme` slot of the browser's local storage. The stored value and
    the platform's `prefers-color-scheme: dark` signal are inputs, read once when the page
    starts. */
module Theme {
  import opened Wrappers

  datatype ThemeState = ThemeState(isDark: bool, documentDark: bool, stored: Option<string>)

  /** The start-up resolution: a stored "dark" wins; any other non-empty stored value means
      light; with nothing stored (or an empty string, which JavaScript treats as false) the
      platform signal decides. */
  function Resolve(stored: Option<string>, prefersDark: bool): (dark: bool)
    ensures stored == Some("dark") ==> dark
    ensures stored.Some? && stored.value != "" && stored.value != "dark" ==> !dark
    ensures stored.None? || stored == Some("") ==> dark == prefersDark
  {
    stored == Some("dark") || ((stored.None? || stored == Some("")) && prefersDark)
  }

  /** The value `toggleTheme` writes for a flag. */
  function Encode(dark: bool): (text: string)
    ensures text == "dark" || text == "light"
    ensures text == "dark" <==> dark
  {
    if dark then "dark" else "light"
  }

  /** A written value resolves back to the flag it encodes, whatever the platform signal. */
  lemma EncodeRoundTrip(dark: bool, prefersDark: bool)
    ensures Resolve(Some(Encode(dark)), prefersDark) == dark
  {
  }

  /** The initialisation effect: the resolved flag is applied to both the state and the
      document; storage is read but not written. */
  function Init(stored: Option<string>, prefersDark: bool): (s: ThemeState)
    ensures s.documentDark == s.isDark
    ensures s.stored == stored
    ensures s.isDark == Resolve(stored, prefersDark)
  {
    var dark := Resolve(stored, prefersDark);
    ThemeState(dark, dark, stored)
  }

  /** `toggleTheme`: the flag flips, the document follows it, and the stored value is one that
      resolves to the new flag under any platform signal. */
  function Toggle(s: ThemeState): (r: ThemeState)
    ensures r.isDark == !s.isDark
    ensures r.documentDark == r.isDark
    ensures r.stored == Some(Encode(r.isDark))
    ensures forall prefersDark :: Resolve(r.stored, prefersDark) == r.isDark
  {
    var dark := !s.isDark;
    ThemeState(dark, dark, Some(Encode(dark)))
  }

  /** After a toggle, reloading the page restores the chosen theme: a manual choice beats the
      platform signal from then on. */
  lemma ReloadAfterToggle(s: ThemeState, prefersDark: bool)
    ensures Init(Toggle(s).stored, prefersDark) == Toggle(s)
  {
  }

  /** Toggling twice restores the flag and the document class. */
  lemma ToggleTwice(s: ThemeState)
    ensures Toggle(Toggle(s)).isDark == s.isDark
    ensures Toggle(Toggle(s)).documentDark == s.isDark
  {
  }

  /** `n` presses of the theme button. */
  function Toggles(s: ThemeState, n: nat): ThemeState
    decreases n
  {
    if n == 0 then s else Toggles(Toggle(s), n - 1)
  }

  /** What holds of every reachable state for the platform signal seen at start-up: the
      document class equals the flag, and a reload would resolve to the same flag. */
  predicate Invariant(s: ThemeState, prefersDark: bool)
  {
    s.documentDark == s.isDark && Resolve(s.stored, prefersDark) == s.isDark
  }

  /** After `n` presses the flag is the initial one flipped `n` times, and the invariant
      holds; after at least one press the stored value alone decides. */
  lemma {:induction false} TogglesFrom(s: ThemeState, prefersDark: bool, n: nat)
    requires Invariant(s, prefersDark)
    ensures Invariant(Toggles(s, n), prefersDark)
    ensures Toggles(s, n).isDark == (s.isDark != (n % 2 == 1))
    ensures n > 0 ==> forall p :: Resolve(Toggles(s, n).stored, p) == Toggles(s, n).isDark
    decreases n
  {
    if n > 0 {
      TogglesFrom(Toggle(s), prefersDark, n - 1);
      if n - 1 == 0 {
        assert Toggles(s, n) == Toggle(s);
      }
    }
  }

  /** Every state reachable from start-up satisfies the invariant. */
  lemma ReachableInvariant(stored: Option<string>, prefersDark: bool, n: nat)
    ensures Invariant(Toggles(Init(stored, prefersDark), n), prefersDark)
  {
    TogglesFrom(Init(stored, prefersDark), prefersDark, n);
  }

  /** Nothing stored and a dark platform: the page starts dark; one toggle makes it light and
      stores "light"; a later start-up is light whatever the platform says. */
  lemma FirstVisitScenario(laterPrefersDark: bool)
    ensures Init(None, true).isDark
    ensures Toggle(Init(None, true)) == ThemeState(false, false, Some("light"))
    ensures !Init(Toggle(Init(None, true)).stored, laterPrefersDark).isDark
  {
  }
}
