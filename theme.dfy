/**
 A model of GraphiQL's theme hook (`useTheme`): the display theme is read from
 a key-value store on mount (an invalid stored string is repaired to ""), the
 theme marker class on the document body is kept in step with the theme, and
 `setTheme` persists a new choice and makes it current.

 The value-level part (Recognize, InitialTheme, Repaired, Synced, Snapshot,
 Mount, SetThemeStep, Replay) is the specification; the class ThemeHook holds
 the state the hook changes in place and is proved against it.
 */
module GraphiQLTheme {

  datatype Option<T> = None | Some(value: T)

  /** `SystemDefault` is the source's `null`: no explicit choice was made. */
  datatype Theme = Light | Dark | SystemDefault

  /** The key-value store behind `useStorage`; an absent key is "nothing stored". */
  type Store = map<string, string>

  const StorageKey: string := "theme"
  const LightClass: string := "graphiql-light"
  const DarkClass: string := "graphiql-dark"

  /** `storage.get(key)`: the stored string, or None when nothing is stored. */
  function Get(store: Store, key: string): (r: Option<string>)
    ensures r.Some? <==> key in store
    ensures r.Some? ==> r.value == store[key]
  {
    if key in store then Some(store[key]) else None
  }

  /** `storage.set(key, value)` is the map update `store[key := value]`: a
      later `get` of that key sees the new value, and every other key reads
      as before. */
  lemma GetAfterSet(store: Store, key: string, value: string, other: string)
    ensures Get(store[key := value], key) == Some(value)
    ensures other != key ==> Get(store[key := value], other) == Get(store, other)
  {
  }

  /** The string `setTheme` writes: `newTheme || ''`. */
  function Encode(t: Theme): (s: string)
    ensures s == "" <==> t == SystemDefault
    ensures s == "" || s == "light" || s == "dark"
  {
    match t
    case Light => "light"
    case Dark => "dark"
    case SystemDefault => ""
  }

  /** The body class for a chosen theme: `graphiql-${theme}`. */
  function ThemeClass(t: Theme): (c: string)
    requires t != SystemDefault
    ensures c == LightClass <==> t == Light
    ensures c == DarkClass <==> t == Dark
  {
    assert "graphiql-" + "light" == LightClass && "graphiql-" + "dark" == DarkClass;
    "graphiql-" + Encode(t)
  }

  /** The `case` arms of the initializer's `switch`: only the exact strings
      "light" and "dark" name a theme; every other string names none. */
  function Recognize(stored: string): (r: Option<Theme>)
    ensures r != Some(SystemDefault)
    ensures forall t :: t != SystemDefault ==> (r == Some(t) <==> stored == Encode(t))
  {
    if stored == "light" then Some(Light)
    else if stored == "dark" then Some(Dark)
    else None
  }

  /** The theme the initializer returns for what `storage.get` gave it. */
  function InitialTheme(stored: Option<string>, defaultTheme: Theme): (t: Theme)
    ensures stored == Some("light") ==> t == Light
    ensures stored == Some("dark") ==> t == Dark
    ensures stored != Some("light") && stored != Some("dark") ==> t == defaultTheme
  {
    if stored.Some? && Recognize(stored.value).Some? then Recognize(stored.value).value
    else defaultTheme
  }

  /** The store after the initializer: a stored string that names no theme is
      overwritten with "", and nothing else is touched. */
  function Repaired(store: Store): (s: Store)
    ensures s.Keys == store.Keys
    ensures forall k :: k in store && k != StorageKey ==> s[k] == store[k]
    ensures StorageKey in store && Recognize(store[StorageKey]).Some? ==> s[StorageKey] == store[StorageKey]
    ensures StorageKey in store && Recognize(store[StorageKey]).None? ==> s[StorageKey] == ""
    ensures Canonical(s)
  {
    if StorageKey in store && Recognize(store[StorageKey]).None? then store[StorageKey := ""]
    else store
  }

  /** The stored entry is absent, "", "light" or "dark". */
  predicate Canonical(store: Store)
  {
    StorageKey in store ==> store[StorageKey] == "" || Recognize(store[StorageKey]).Some?
  }

  /** A stored entry that names a theme names the current one. */
  predicate StoreAgrees(store: Store, t: Theme)
  {
    StorageKey in store && Recognize(store[StorageKey]).Some? ==> Recognize(store[StorageKey]) == Some(t)
  }

  /** The body carries exactly the marker of the theme, and no marker for SystemDefault. */
  predicate MarkersMatch(classes: set<string>, t: Theme)
  {
    (LightClass in classes <==> t == Light) && (DarkClass in classes <==> t == Dark)
  }

  /** The body classes after the layout effect with a window: both markers
      removed, then the theme's own marker added. */
  function Synced(classes: set<string>, t: Theme): (c: set<string>)
    ensures MarkersMatch(c, t)
    ensures !(LightClass in c && DarkClass in c)
    ensures forall x :: x != LightClass && x != DarkClass ==> (x in c <==> x in classes)
  {
    var cleared := classes - {LightClass, DarkClass};
    if t == SystemDefault then cleared else cleared + {ThemeClass(t)}
  }

  /** Syncing twice with one theme is syncing once. */
  lemma SyncedIdempotent(classes: set<string>, t: Theme)
    ensures Synced(Synced(classes, t), t) == Synced(classes, t)
  {
  }

  /** A class set whose markers already match the theme is left as it is. */
  lemma SyncedFixesMatching(classes: set<string>, t: Theme)
    ensures MarkersMatch(classes, t) ==> Synced(classes, t) == classes
  {
  }

  /** Everything the hook owns or touches: the store, the body classes, whether
      a window exists, and the current theme. */
  datatype Snapshot = Snapshot(store: Store, classes: set<string>, headless: bool, theme: Theme)

  /** The invariant every reachable snapshot keeps. */
  predicate Consistent(s: Snapshot)
  {
    Canonical(s.store) && StoreAgrees(s.store, s.theme) && MarkersInStep(s)
  }

  /** With a window, the body's markers are those of the current theme. */
  predicate MarkersInStep(s: Snapshot)
  {
    !s.headless ==> MarkersMatch(s.classes, s.theme)
  }

  /** The layout effect: nothing happens without a window. */
  function Effect(classes: set<string>, t: Theme, headless: bool): (c: set<string>)
    ensures headless ==> c == classes
    ensures !headless ==> MarkersMatch(c, t)
    ensures forall x :: x != LightClass && x != DarkClass ==> (x in c <==> x in classes)
  {
    if headless then classes else Synced(classes, t)
  }

  /** Mounting the hook: the initializer runs, then the layout effect once. */
  function Mount(store: Store, classes: set<string>, headless: bool, defaultTheme: Theme): (s: Snapshot)
    ensures Consistent(s)
    ensures s.headless == headless
    ensures StorageKey in store && Recognize(store[StorageKey]).Some? ==>
              s.store == store && Some(s.theme) == Recognize(store[StorageKey])
    ensures StorageKey in store && Recognize(store[StorageKey]).None? ==>
              s.store == store[StorageKey := ""] && s.theme == defaultTheme
    ensures StorageKey !in store ==> s.store == store && s.theme == defaultTheme
    ensures headless ==> s.classes == classes
    ensures !headless ==> MarkersMatch(s.classes, s.theme)
  {
    var t := InitialTheme(Get(store, StorageKey), defaultTheme);
    Snapshot(Repaired(store), Effect(classes, t, headless), headless, t)
  }

  /** `setTheme`: the store gets the encoded theme, the theme becomes current,
      and the effect runs only when the theme value changed. Whatever the
      snapshot's store held before (this value-level step allows it to
      have been written by anyone), the result is consistent. */
  function SetThemeStep(s: Snapshot, newTheme: Theme): (r: Snapshot)
    requires MarkersInStep(s)
    ensures Consistent(r)
    ensures r.store == s.store[StorageKey := Encode(newTheme)]
    ensures r.theme == newTheme && r.headless == s.headless
    ensures r.classes == Effect(s.classes, newTheme, s.headless)
    ensures s.headless ==> r.classes == s.classes
  {
    var classes := if newTheme == s.theme then s.classes else Effect(s.classes, newTheme, s.headless);
    SyncedFixesMatching(s.classes, newTheme);
    Snapshot(s.store[StorageKey := Encode(newTheme)], classes, s.headless, newTheme)
  }

  /** A sequence of `setTheme` calls, applied in the order they were made. */
  function Replay(s: Snapshot, calls: seq<Theme>): (r: Snapshot)
    requires MarkersInStep(s)
    ensures MarkersInStep(r) && r.headless == s.headless
    decreases |calls|
  {
    if calls == [] then s else Replay(SetThemeStep(s, calls[0]), calls[1..])
  }

  /** After any non-empty sequence of `setTheme` calls the snapshot is
      consistent and the last call wins; the other store keys and the body
      classes other than the two markers are untouched. */
  lemma {:induction false} ReplayLastWins(s: Snapshot, calls: seq<Theme>)
    requires MarkersInStep(s)
    ensures Consistent(s) || calls != [] ==> Consistent(Replay(s, calls))
    ensures Replay(s, calls).store.Keys == s.store.Keys + (if calls == [] then {} else {StorageKey})
    ensures forall k :: k in s.store && k != StorageKey ==> Replay(s, calls).store[k] == s.store[k]
    ensures calls != [] ==> Replay(s, calls).theme == calls[|calls| - 1]
    ensures calls != [] ==> Replay(s, calls).store[StorageKey] == Encode(calls[|calls| - 1])
    ensures s.headless ==> Replay(s, calls).classes == s.classes
    ensures forall x :: x != LightClass && x != DarkClass ==> (x in Replay(s, calls).classes <==> x in s.classes)
    decreases |calls|
  {
    if calls != [] {
      var s1 := SetThemeStep(s, calls[0]);
      ReplayLastWins(s1, calls[1..]);
      if calls[1..] != [] {
        assert calls[1..][|calls[1..]| - 1] == calls[|calls| - 1];
      }
    }
  }

  /** Setting a theme and mounting a fresh hook on the same store: "light" and
      "dark" come back, SystemDefault (stored as "") gives the new default, and
      the remount leaves the store's contents as they were (after SystemDefault
      it writes "" over "" again). */
  lemma SetThenRemount(s: Snapshot, t: Theme, classes: set<string>, headless: bool, defaultTheme: Theme)
    requires MarkersInStep(s)
    ensures Mount(SetThemeStep(s, t).store, classes, headless, defaultTheme).theme ==
              (if t == SystemDefault then defaultTheme else t)
    ensures Mount(SetThemeStep(s, t).store, classes, headless, defaultTheme).store == SetThemeStep(s, t).store
  {
  }

  /** Mounting twice on the store a mount left behind repairs nothing more. */
  lemma RepairedIdempotent(store: Store)
    ensures Repaired(Repaired(store)) == Repaired(store)
  {
  }

  /** Empty store, no default, a window: mount, choose dark, then go back to
      the system default. */
  lemma Scenario(classes: set<string>)
    requires LightClass !in classes && DarkClass !in classes
    ensures Mount(map[], classes, false, SystemDefault).theme == SystemDefault
    ensures Mount(map[], classes, false, SystemDefault).classes == classes
    ensures SetThemeStep(Mount(map[], classes, false, SystemDefault), Dark).store == map[StorageKey := "dark"]
    ensures SetThemeStep(Mount(map[], classes, false, SystemDefault), Dark).classes == classes + {DarkClass}
    ensures Replay(Mount(map[], classes, false, SystemDefault), [Dark, SystemDefault]).store == map[StorageKey := ""]
    ensures Replay(Mount(map[], classes, false, SystemDefault), [Dark, SystemDefault]).classes == classes
  {
  }

  /** The state `useTheme` keeps and touches, changed in place. */
  class ThemeHook {
    var store: Store
    var classes: set<string>
    const headless: bool
    var theme: Theme

    ghost function View(): Snapshot
      reads this
    {
      Snapshot(store, classes, headless, theme)
    }

    ghost predicate Valid()
      reads this
    {
      Consistent(View())
    }

    /** Mounting: the lazy `useState` initializer, then the layout effect. */
    constructor (store0: Store, classes0: set<string>, headless: bool, defaultTheme: Theme := SystemDefault)
      ensures Valid()
      ensures View() == Mount(store0, classes0, headless, defaultTheme)
    {
      var stored := Get(store0, StorageKey);
      var s := store0;
      var t: Theme;
      if stored == Some("light") {
        t := Light;
      } else if stored == Some("dark") {
        t := Dark;
      } else {
        if stored.Some? {
          s := s[StorageKey := ""];
        }
        t := defaultTheme;
      }
      store := s;
      classes := classes0;
      this.headless := headless;
      theme := t;
      new;
      Sync();
    }

    /** The layout effect: remove both markers, then add the theme's marker. */
    method Sync()
      modifies this`classes
      ensures classes == Effect(old(classes), theme, headless)
    {
      if headless {
        return;
      }
      classes := classes - {LightClass, DarkClass};
      if theme != SystemDefault {
        classes := classes + {ThemeClass(theme)};
      }
    }

    /** `setTheme`: write the encoded theme, then update the held state; the
        effect re-runs only when the theme changed. */
    method SetTheme(newTheme: Theme)
      requires Valid()
      modifies this`store, this`classes, this`theme
      ensures Valid()
      ensures View() == SetThemeStep(old(View()), newTheme)
    {
      store := store[StorageKey := Encode(newTheme)];
      if newTheme != theme {
        theme := newTheme;
        Sync();
      }
    }
  }
}
