/**
 * The `theme` store: one flag, flipped by `toggleTheme`, and kept in `localStorage` by the
 * persistence plugin.
 */
module Theme {
  import opened Wrappers

  class ThemeStore {
    var isDark: bool

    /**
     * A new store: `isDark` starts `false`, unless a value saved in `localStorage` by an earlier
     * session is restored over it.
     */
    constructor (saved: Option<bool>)
      ensures saved.None? ==> !isDark
      ensures saved.Some? ==> isDark == saved.value
    {
      isDark := false;
      if saved.Some? {
        isDark := saved.value;
      }
    }

    /** `toggleTheme()`: flips the flag. */
    method ToggleTheme()
      modifies this
      ensures isDark == !old(isDark)
    {
      isDark := !isDark;
    }
  }

  /** Two consecutive toggles restore the original theme. */
  method ToggleTwice(store: ThemeStore)
    modifies store
    ensures store.isDark == old(store.isDark)
  {
    store.ToggleTheme();
    store.ToggleTheme();
  }
}
