# GraphiQL theme hook, modelled in Dafny

`useTheme` in `packages/graphiql-react/src/theme.ts` tracks GraphiQL's display
theme, which is one of `light`, `dark` or `null`. `null` means "use the system
default" and is modelled as `SystemDefault`. The hook does three things:

- On mount it reads the `"theme"` entry from a key-value store. Only the exact
  strings `"light"` and `"dark"` are accepted. Any other stored string is
  overwritten with `""` and the caller's `defaultTheme` is used. When nothing
  is stored, `defaultTheme` is used and the store is not touched.
- After mount, and whenever the theme changes, a layout effect removes
  `graphiql-light` and `graphiql-dark` from the body's class list and then adds
  the class for the current theme. It does nothing when there is no `window`.
- `setTheme` writes the encoded theme to the store (`null` is written as `""`)
  and makes it the current theme.

`theme.dfy` holds one module, `GraphiQLTheme`, in two layers:

- A value-level specification. It has the decode of the stored string
  (`Recognize`, `InitialTheme`), the store repair (`Repaired`) and the class
  sync (`Synced`). A `Snapshot` of store, body classes, headless flag and theme
  is advanced by `Mount`, `SetThemeStep` and `Replay`, a sequence of `setTheme`
  calls applied in order.
- A class, `ThemeHook`. Its fields are the store, the body class set, the
  headless flag and the current theme, and its methods change them in place.
  The constructor, `Sync` and `SetTheme` are proved against the value level
  through `View()`.

The store is a `map<string, string>`; an absent key means `storage.get`
returned `null`. The body's `classList` is a `set<string>`. The check
`typeof window === 'undefined'` is a `headless` flag fixed at construction.

React runs the layout effect only when the `theme` value changes, because its
dependency list is `[theme]` and a state update to an equal value is dropped.
`SetTheme` therefore calls `Sync` only when the theme changes. `SetThemeStep`
proves that, whenever the markers are in step with the theme, the result is the same as syncing every
time.

## Model

| member | source | states |
|---|---|---|
| `GraphiQLTheme.GetAfterSet` | packages/graphiql-react/src/theme.ts:14-42 | the store contract the hook relies on (`storage.get` at line 14, `storage.set` at lines 23 and 42, modelled as `Get` and a map update): after a set, a get of that key sees the new value and every other key reads as before |
| `GraphiQLTheme.Encode` | packages/graphiql-react/src/theme.ts:42 | `newTheme \|\| ''`: the written string is "" exactly for the system default, and is always "", "light" or "dark" |
| `GraphiQLTheme.ThemeClass` | packages/graphiql-react/src/theme.ts:36 | the template `graphiql-${theme}` yields `graphiql-light` exactly for light and `graphiql-dark` exactly for dark |
| `GraphiQLTheme.Recognize` | packages/graphiql-react/src/theme.ts:15-19 | a stored string names a non-default theme `t` exactly when it equals `t`'s encoding ("light"/"dark"); nothing ever decodes to the system default |
| `GraphiQLTheme.InitialTheme` | packages/graphiql-react/src/theme.ts:13-27 | stored "light" gives light, stored "dark" gives dark, any other string or no stored value gives `defaultTheme` |
| `GraphiQLTheme.Repaired` | packages/graphiql-react/src/theme.ts:20-24 | the store keeps its key set; every other key is unchanged; a recognized stored value is kept; an unrecognized one (including "") becomes ""; afterwards the entry is absent, "", "light" or "dark" |
| `GraphiQLTheme.RepairedIdempotent` | packages/graphiql-react/src/theme.ts:20-24 | repairing a repaired store changes nothing |
| `GraphiQLTheme.Synced` | packages/graphiql-react/src/theme.ts:34-37 | after the sync the light marker is present iff the theme is light and the dark marker iff it is dark, so never both and neither for the system default; every other class is preserved |
| `GraphiQLTheme.SyncedIdempotent` | packages/graphiql-react/src/theme.ts:34-37 | syncing twice with the same theme gives the same class set as syncing once |
| `GraphiQLTheme.SyncedFixesMatching` | packages/graphiql-react/src/theme.ts:29-38 | a class set whose markers already match the theme is unchanged by the sync, so skipping the effect for an unchanged theme is unobservable |
| `GraphiQLTheme.Effect` | packages/graphiql-react/src/theme.ts:29-38 | without a window the classes are untouched; with one the markers match the theme; in both cases every class other than the two markers is preserved |
| `GraphiQLTheme.Mount` | packages/graphiql-react/src/theme.ts:10-38 | a recognized stored value becomes the theme and the store is unchanged; an unrecognized string gives `defaultTheme` and the entry becomes ""; no stored value gives `defaultTheme` and the store is unchanged; headless leaves the classes untouched, otherwise the markers match the theme; the result is consistent |
| `GraphiQLTheme.SetThemeStep` | packages/graphiql-react/src/theme.ts:40-46 | the store maps "theme" to the encoded new theme and nothing else changes; the theme becomes the new one; the classes are the synced set whether or not the effect re-ran, and unchanged when headless; from any store contents (only the markers need to be in step) the result is consistent |
| `GraphiQLTheme.Replay` | packages/graphiql-react/src/theme.ts:40-46 | a sequence of `setTheme` calls keeps the markers in step with the theme and never changes whether a window exists |
| `GraphiQLTheme.ReplayLastWins` | packages/graphiql-react/src/theme.ts:40-48 | after any non-empty sequence of `setTheme` calls (or any sequence from a consistent state) the state is consistent; the last call's theme is current and stored; other keys are unchanged; headless classes are untouched, and every class other than the two markers survives |
| `GraphiQLTheme.SetThenRemount` | packages/graphiql-react/src/theme.ts:13-44 | after `setTheme(t)`, a fresh mount on the same store yields `t` for light/dark and the new `defaultTheme` for the system default, and leaves the store's contents as they were (after `setTheme(null)` the remount writes "" over "" again) |
| `GraphiQLTheme.Scenario` | packages/graphiql-react/src/theme.ts:10-46 | from an empty store with no default: mount gives the system default and no marker; `setTheme(dark)` stores "dark" and adds only the dark marker; `setTheme(null)` stores "" and removes it |
| `GraphiQLTheme.ThemeHook.constructor` | packages/graphiql-react/src/theme.ts:10-38 | the mounted hook's state is `Mount` of the given store, classes, headless flag and default, and the object invariant holds |
| `GraphiQLTheme.ThemeHook.Sync` | packages/graphiql-react/src/theme.ts:29-38 | only the class set changes; it becomes `Synced` of the old set, or stays as it is when headless |
| `GraphiQLTheme.ThemeHook.SetTheme` | packages/graphiql-react/src/theme.ts:40-46 | the new state is `SetThemeStep` of the old one, and the object invariant is preserved |

## Left out

- React machinery is left out: `useState`, `useLayoutEffect`, `useCallback`, `useMemo` and render scheduling. The lazy initializer plus the first effect run form the constructor. A later effect run is an explicit `Sync` call made when the theme changes.
- The handle `useMemo` returns, `{ theme, setTheme }`, is not modelled as an object. The current theme is the `theme` field, and the setter is the `SetTheme` method. The handle's referential stability is framework behaviour.
- `useStorage` and `./storage` are not part of this model. The store is a synchronous map with get and set, and it has no failure modes.
- The DOM and the `typeof window` test are replaced by a class set and a boolean fixed when the hook is created.
- `storage.get` returning a non-string value is not modelled, because the store is typed as string-valued. Only "absent" and "some string" are distinguished.
- Sharing of the storage object is not modelled at the class level: `ThemeHook` holds the store as a value field that only its own methods write, so a write to the same storage by another component or hook instance is not seen there. Only the value-level `SetThemeStep`, which accepts any store contents, covers a store written by someone else.
- Repeated identical writes are not distinguished from no write: the store is modelled by its contents, so the remount after `setTheme(null)` that writes "" over "" shows only as unchanged contents.
- Concurrency, cross-tab synchronization and changes made to the body classes by other code are outside the model.
