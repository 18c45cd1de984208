# Dark-mode store, modelled in Dafny

The application keeps one piece of global state: a Vuex store whose only field,
`isDarkMode`, starts out `true`. The `toggleDarkMode` mutation negates it. The
`toggleDarkMode` action commits that mutation. The `isDarkMode` getter reads the
field back.

`store.dfy` (module `DarkModeStore`) models this in two layers:

- specification functions: `Toggled` is the single transition, and `ToggledN`
  applies it `n` times. Lemmas state the laws of repeated toggling: the
  round trip, the parity law, composition of runs, and when two runs agree.
- the class `Store`: the `isDarkMode` field, a constructor that fixes the
  initial value, the `Toggle` mutation, the `ToggleAction` action that calls
  `Toggle` once, and the `IsDarkMode` getter as a function (so it cannot change
  anything). A ghost field `toggles` counts committed mutations. The invariant
  `Valid()` ties the flag to `ToggledN(InitialDarkMode, toggles)`.

## Model

| member | source | states |
|---|---|---|
| DarkModeStore.Toggled | src/store/index.ts:10 | the flag after one mutation always differs from the flag before it |
| DarkModeStore.ToggleTwiceIsIdentity | src/store/index.ts:10 | two mutations in a row return the flag to its original value |
| DarkModeStore.ToggledNParity | src/store/index.ts:9-11 | after n mutations the flag equals its starting value exactly when n is even |
| DarkModeStore.ToggledFromInitial | src/store/index.ts:5-11 | from a fresh store, the flag after n mutations is true exactly when n is even |
| DarkModeStore.ToggledNAdd | src/store/index.ts:9-11 | m mutations followed by n more have the same effect as m + n mutations |
| DarkModeStore.SameFlagIffSameParity | src/store/index.ts:9-11 | two runs from the same flag end equal exactly when their lengths have the same parity, so every single mutation changes the value |
| DarkModeStore.Store.constructor | src/store/index.ts:4-7 | a new store has isDarkMode true, no mutations counted, and satisfies the invariant |
| DarkModeStore.Store.Toggle | src/store/index.ts:9-11 | the mutation negates isDarkMode, counts one mutation, keeps the invariant, and modifies nothing outside the store |
| DarkModeStore.Store.ToggleAction | src/store/index.ts:14-16 | the action has the effect of exactly one mutation: the flag is negated and the mutation count grows by one |
| DarkModeStore.Store.IsDarkMode | src/store/index.ts:19 | the getter reads the store without changing it, and in a valid store returns true exactly when an even number of mutations has been committed |
| DarkModeStore.FreshStoreScenarios | src/store/index.ts:4-19 | a fresh store reads true, false after one mutation, true after two, and false after one more dispatch of the action |

## Left out

- Vuex itself (`createStore`, `commit` and `dispatch` by string name, reactivity and subscriber notification): a library outside this repository. `commit('toggleDarkMode')` is modelled as a direct call of `Toggle`.
- Observer notification on change: it lives in Vuex's reactivity and is not part of this model.
- The store is a single module-level instance in the application. The model lets a caller construct independent `Store` objects instead.
- `tailwind.config.cjs`: static styling data (colour slots, a font list, breakpoint widths). It holds no operation.
- Applying the dark-mode CSS class to the document is presentation code and is not part of this model.
- The `toggles` counter is ghost: the application does not keep one. It exists only to state the parity law about the store's history.
