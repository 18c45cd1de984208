/** The global theme store: one boolean flag, `isDarkMode`, that starts out
    true and changes only through the `toggleDarkMode` mutation, which negates
    it. An action of the same name commits that mutation once, and a getter
    reads the flag back.

    The specification functions describe the store as a two-state machine;
    the class `Store` is the store itself, whose ghost field `toggles` counts
    the mutations committed since it was created. */
module DarkModeStore {

  /** The value of `isDarkMode` in a freshly created store. */
  const InitialDarkMode: bool := true

  /** The single transition of the machine: the flag after one mutation. */
  function Toggled(isDark: bool): (r: bool)
    ensures r != isDark
  {
    !isDark
  }

  /** The flag after `n` mutations committed one after another from `isDark`. */
  function ToggledN(isDark: bool, n: nat): bool
  {
    if n == 0 then isDark else Toggled(ToggledN(isDark, n - 1))
  }

  /** Two mutations in a row leave the flag where it was. */
  lemma ToggleTwiceIsIdentity(isDark: bool)
    ensures Toggled(Toggled(isDark)) == isDark
  {
  }

  /** Parity law: after `n` mutations the flag is back at its starting value
      exactly when `n` is even. */
  lemma {:induction false} ToggledNParity(isDark: bool, n: nat)
    ensures ToggledN(isDark, n) == (isDark == (n % 2 == 0))
  {
    if n > 0 {
      ToggledNParity(isDark, n - 1);
    }
  }

  /** From a fresh store, the flag after `n` mutations is true exactly when
      `n` is even. */
  lemma {:induction false} ToggledFromInitial(n: nat)
    ensures ToggledN(InitialDarkMode, n) <==> n % 2 == 0
  {
    ToggledNParity(InitialDarkMode, n);
  }

  /** Running `m` mutations and then `n` more is running `m + n` mutations. */
  lemma {:induction false} ToggledNAdd(isDark: bool, m: nat, n: nat)
    ensures ToggledN(ToggledN(isDark, m), n) == ToggledN(isDark, m + n)
  {
    if n > 0 {
      ToggledNAdd(isDark, m, n - 1);
    }
  }

  /** Two runs from the same flag end on the same value exactly when their
      lengths have the same parity; in particular every single mutation
      changes the observable value. */
  lemma {:induction false} SameFlagIffSameParity(isDark: bool, m: nat, n: nat)
    ensures ToggledN(isDark, m) == ToggledN(isDark, n) <==> m % 2 == n % 2
  {
    ToggledNParity(isDark, m);
    ToggledNParity(isDark, n);
  }

  /** The store created by `createStore`. Its only state is `isDarkMode`;
      `toggles` is a ghost count of the mutations committed so far. */
  class Store {
    var isDarkMode: bool
    ghost var toggles: nat

    /** The flag is always the initial value toggled once per committed
        mutation. */
    ghost predicate Valid()
      reads this
    {
      isDarkMode == ToggledN(InitialDarkMode, toggles)
    }

    /** A new store is in dark mode and has seen no mutation. */
    constructor ()
      ensures Valid()
      ensures isDarkMode == InitialDarkMode && toggles == 0
    {
      isDarkMode := InitialDarkMode;
      toggles := 0;
    }

    /** The `toggleDarkMode` mutation: negates the flag, the store's only
        state, and changes nothing else. */
    method Toggle()
      requires Valid()
      modifies this
      ensures Valid()
      ensures isDarkMode == Toggled(old(isDarkMode))
      ensures toggles == old(toggles) + 1
    {
      isDarkMode := !isDarkMode;
      toggles := toggles + 1;
    }

    /** The `toggleDarkMode` action: commits the mutation of the same name
        exactly once. */
    method ToggleAction()
      requires Valid()
      modifies this
      ensures Valid()
      ensures isDarkMode == Toggled(old(isDarkMode))
      ensures toggles == old(toggles) + 1
    {
      Toggle();
    }

    /** The `isDarkMode` getter: a read of the flag with no effect on the
        store. In a valid store its value is fixed by the parity of the
        number of mutations committed. */
    function IsDarkMode(): (r: bool)
      reads this
      ensures Valid() ==> (r <==> toggles % 2 == 0)
    {
      ToggledFromInitial(toggles);
      isDarkMode
    }
  }

  /** The scenarios of a fresh store: it starts in dark mode, one mutation
      turns dark mode off, a second turns it back on, and dispatching the
      action after that turns it off again. */
  method FreshStoreScenarios() returns (initially: bool, afterOne: bool, afterTwo: bool, afterAction: bool)
    ensures initially && !afterOne && afterTwo && !afterAction
  {
    var store := new Store();
    initially := store.IsDarkMode();
    store.Toggle();
    afterOne := store.IsDarkMode();
    store.Toggle();
    afterTwo := store.IsDarkMode();
    store.ToggleAction();
    afterAction := store.IsDarkMode();
  }
}
