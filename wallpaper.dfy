/** The wallpaper synchronizer: resolve the theme mode (forced by a flag or
    classified from the GTK theme name), point the mode's dconf background key
    at a fixed file under the home directory, and copy the chosen image there.

    Every call into the desktop environment (dconf, GSettings, the home
    directory lookup, the zenity picker, the filesystem copy) is an input: a
    `Host` record says how each of them answers, and the model records, as a
    trace of `Action`s, which of them the run performs and with which
    arguments. */
module Wallpaper {
  import opened Wrappers
  import opened ThemeClassifier

  /** dconf key of the background used in dark mode. */
  const DarkKey: string := "/org/gnome/desktop/background/picture-uri-dark"
  /** dconf key of the background used in light mode. */
  const LightKey: string := "/org/gnome/desktop/background/picture-uri"
  /** Image location, relative to the home directory, in dark mode. */
  const DarkSuffix: string := "/.config/background_dark"
  /** Image location, relative to the home directory, in light mode. */
  const LightSuffix: string := "/.config/background"
  const FileScheme: string := "file://"

  // ---------------------------------------------------------------------------
  // Key and path derivation
  // ---------------------------------------------------------------------------

  /** The dconf key the mode selects. */
  function BackgroundKey(darkMode: bool): string {
    if darkMode then DarkKey else LightKey
  }

  /** The per-mode image location below the home directory. */
  function ConfigSuffix(darkMode: bool): string {
    if darkMode then DarkSuffix else LightSuffix
  }

  /** Where the chosen image is copied to. */
  function ConfigImagePath(home: string, darkMode: bool): string {
    home + ConfigSuffix(darkMode)
  }

  /** The value written to the background key. */
  function ConfigImageUri(home: string, darkMode: bool): string {
    FileScheme + home + ConfigSuffix(darkMode)
  }

  /** The dark key is chosen exactly in dark mode and the light key exactly in
      light mode, so the key read back tells the mode. */
  lemma KeySelectsMode(darkMode: bool)
    ensures BackgroundKey(darkMode) == DarkKey <==> darkMode
    ensures BackgroundKey(darkMode) == LightKey <==> !darkMode
  {
  }

  /** The copy destination is the home directory followed by exactly the
      mode's suffix. */
  lemma DestinationUnderHome(home: string, darkMode: bool)
    ensures var path := ConfigImagePath(home, darkMode);
      |path| > |home| && path[..|home|] == home && path[|home|..] == ConfigSuffix(darkMode)
  {
  }

  /** The URI written is `file://` followed by the copy destination of the
      same mode. */
  lemma UriNamesDestination(home: string, darkMode: bool)
    ensures ConfigImageUri(home, darkMode) == FileScheme + ConfigImagePath(home, darkMode)
    ensures ConfigImageUri(home, darkMode)[..|FileScheme|] == FileScheme
  {
  }

  /** The two modes never share a copy destination, whatever the home
      directories: the dark path ends in 'k', the light one in 'd'. */
  lemma DestinationsNeverCollide(darkHome: string, lightHome: string)
    ensures ConfigImagePath(darkHome, true) != ConfigImagePath(lightHome, false)
  {
    var d, l := ConfigImagePath(darkHome, true), ConfigImagePath(lightHome, false);
    assert d[|d| - 1] == DarkSuffix[|DarkSuffix| - 1] == 'k';
    assert l[|l| - 1] == LightSuffix[|LightSuffix| - 1] == 'd';
  }

  // ---------------------------------------------------------------------------
  // The run
  // ---------------------------------------------------------------------------

  /** The command line: `-i/--img`, `-d/--dark`, `-w/--white`. */
  datatype Flags = Flags(img: string, dark: bool, white: bool)

  /** How the desktop environment answers each external call of one run. */
  datatype Host = Host(
    clientOk: bool,                     // dconf_client_new returns a client
    settingsOk: bool,                   // g_settings_new("org.gnome.desktop.interface") succeeds
    gtkTheme: Option<string>,           // the "gtk-theme" value, if it can be read
    currentBackground: Option<string>,  // the current value of the background key, if readable
    home: Option<string>,               // dconf_set's homedir(): $HOME, else the passwd entry
    writeOk: bool,                      // dconf_client_write_sync succeeds
    mainHome: Option<string>,           // main's own, second homedir() call
    pickerOutput: Option<string>,       // zenity's raw output; None when popen fails
    copyOk: bool)                       // std::filesystem::copy succeeds

  /** The two `homedir()` calls agree. This always holds when `$HOME` is set,
      since nothing changes the environment; when it is not, each call asks
      the passwd database afresh. */
  predicate ConsistentHome(host: Host) {
    host.mainHome == host.home
  }

  /** The external calls a run makes, in order. */
  datatype Action =
    | NewClient
    | NewSettings
    | GetTheme
    | ReadKey(key: string)
    | LookupHome
    | WriteKey(key: string, value: string)
    | RunPicker
    | CopyFile(source: string, destination: string)

  /** Exit status, the mode in effect when the run stopped, and what it did. */
  datatype Report = Report(code: int, darkMode: bool, actions: seq<Action>)

  /** The outcome of `dconf_set(darkMode, force)`: each failing step returns 1
      at once, except the read of the current background, whose result is only
      logged. `darkMode` is replaced by the classification only when the mode
      is not forced and the theme name was read. */
  function DconfSetOutcome(darkMode: bool, force: bool, host: Host): Report
  {
    if !host.clientOk then Report(1, darkMode, [NewClient])
    else if !host.settingsOk then Report(1, darkMode, [NewClient, NewSettings])
    else if !force && host.gtkTheme.None? then Report(1, darkMode, [NewClient, NewSettings, GetTheme])
    else
      var mode := if force then darkMode else LooksDark(host.gtkTheme.value);
      var key := BackgroundKey(mode);
      var reached := [NewClient, NewSettings] + (if force then [] else [GetTheme]) + [ReadKey(key), LookupHome];
      if host.home.None? then Report(1, mode, reached)
      else Report(if host.writeOk then 0 else 1, mode, reached + [WriteKey(key, ConfigImageUri(host.home.value, mode))])
  }

  /** The rest of `main` once `dconf_set` succeeded: look the home directory up
      again, then copy the explicit image, or else the picker's choice, over
      the mode's file. */
  function CopyOutcome(img: string, darkMode: bool, host: Host): Report
  {
    if host.mainHome.None? then Report(1, darkMode, [LookupHome])
    else
      var configImage := ConfigImagePath(host.mainHome.value, darkMode);
      if img != "" then Report(CopyCode(img, host), darkMode, [LookupHome, CopyFile(img, configImage)])
      else match host.pickerOutput
        case None => Report(1, darkMode, [LookupHome, RunPicker])
        case Some(image) => Report(CopyCode(image, host), darkMode, [LookupHome, RunPicker, CopyFile(image, configImage)])
  }

  /** Exit status of one `std::filesystem::copy` and its `catch`: an empty
      source path names no file, so that copy always throws; otherwise the
      host decides. */
  function CopyCode(source: string, host: Host): int {
    if source != "" && host.copyOk then 0 else 1
  }

  /** The outcome of `main` once the flags are parsed. */
  function RunOutcome(flags: Flags, host: Host): Report {
    if flags.dark && flags.white then Report(1, false, [])
    else
      var force := flags.dark || flags.white;
      var setting := DconfSetOutcome(if force then flags.dark else false, force, host);
      if setting.code != 0 then Report(1, setting.darkMode, setting.actions)
      else
        var rest := CopyOutcome(flags.img, setting.darkMode, host);
        Report(rest.code, setting.darkMode, setting.actions + rest.actions)
  }

  /** `dconf_set`: `darkMode` is the caller's variable on entry and `mode` its
      value on return. */
  method DconfSet(darkMode: bool, force: bool, host: Host) returns (code: int, mode: bool, actions: seq<Action>)
    ensures Report(code, mode, actions) == DconfSetOutcome(darkMode, force, host)
  {
    mode := darkMode;
    actions := [NewClient];
    if !host.clientOk {
      return 1, mode, actions;
    }
    actions := actions + [NewSettings];
    if !host.settingsOk {
      return 1, mode, actions;
    }
    if !force {
      actions := actions + [GetTheme];
      if host.gtkTheme.None? {
        return 1, mode, actions;
      }
      mode := IsDarkTheme(host.gtkTheme.value);
    }
    var key := BackgroundKey(mode);
    // The value read here (host.currentBackground) is only logged.
    actions := actions + [ReadKey(key), LookupHome];
    if host.home.None? {
      return 1, mode, actions;
    }
    var configImage := ConfigImageUri(host.home.value, mode);
    actions := actions + [WriteKey(key, configImage)];
    code := if host.writeOk then 0 else 1;
  }

  /** `main` after argument parsing. */
  method Run(flags: Flags, host: Host) returns (code: int, darkMode: bool, actions: seq<Action>)
    ensures Report(code, darkMode, actions) == RunOutcome(flags, host)
  {
    darkMode, actions := false, [];
    if flags.dark && flags.white {
      return 1, darkMode, actions;
    }
    var force := flags.dark || flags.white;
    if force {
      darkMode := flags.dark;
    }
    var setCode;
    setCode, darkMode, actions := DconfSet(darkMode, force, host);
    if setCode != 0 {
      return 1, darkMode, actions;
    }
    // The calls `main` itself makes after `dconf_set`.
    var steps := [LookupHome];
    if host.mainHome.None? {
      return 1, darkMode, actions + steps;
    }
    var configImage := ConfigImagePath(host.mainHome.value, darkMode);
    var source: string;
    if flags.img != "" {
      source := flags.img;
    } else {
      steps := steps + [RunPicker];
      if host.pickerOutput.None? {
        assert steps == CopyOutcome(flags.img, darkMode, host).actions;
        return 1, darkMode, actions + steps;
      }
      source := host.pickerOutput.value;
    }
    steps := steps + [CopyFile(source, configImage)];
    assert steps == CopyOutcome(flags.img, darkMode, host).actions;
    code, actions := CopyCode(source, host), actions + steps;
  }

  // ---------------------------------------------------------------------------
  // Properties of the run
  // ---------------------------------------------------------------------------

  /** `dconf_set` returns 0 or 1, and 0 exactly when every step up to and
      including the write succeeded; the read of the current background plays
      no part. */
  lemma DconfSetExitCode(darkMode: bool, force: bool, host: Host)
    ensures DconfSetOutcome(darkMode, force, host).code in {0, 1}
    ensures DconfSetOutcome(darkMode, force, host).code == 0 <==>
      host.clientOk && host.settingsOk && (force || host.gtkTheme.Some?) && host.home.Some? && host.writeOk
  {
  }

  /** `dconf_set` keeps a forced mode without reading the theme, and otherwise
      sets the mode to the classification of the theme name once it is read. */
  lemma DconfSetMode(darkMode: bool, force: bool, host: Host)
    ensures force ==>
      DconfSetOutcome(darkMode, force, host).darkMode == darkMode && GetTheme !in DconfSetOutcome(darkMode, force, host).actions
    ensures !force && host.clientOk && host.settingsOk && host.gtkTheme.Some? ==>
      DconfSetOutcome(darkMode, force, host).darkMode == LooksDark(host.gtkTheme.value)
  {
  }

  /** What `dconf_set` does to dconf: it reads and writes only the key of the
      resulting mode, writes that mode's URI, never runs the picker or copies,
      and reaches the write exactly when every earlier fatal step succeeded;
      the write is its last step. */
  lemma DconfSetTrace(darkMode: bool, force: bool, host: Host)
    ensures var r := DconfSetOutcome(darkMode, force, host);
      && (forall a :: a in r.actions && a.ReadKey? ==> a.key == BackgroundKey(r.darkMode))
      && (forall a :: a in r.actions && a.WriteKey? ==>
            host.home.Some? && a == WriteKey(BackgroundKey(r.darkMode), ConfigImageUri(host.home.value, r.darkMode)))
      && (forall a :: a in r.actions ==> !a.RunPicker? && !a.CopyFile?)
      && ((exists a :: a in r.actions && a.WriteKey?) <==>
            host.clientOk && host.settingsOk && (force || host.gtkTheme.Some?) && host.home.Some?)
      && (r.code == 0 ==> |r.actions| > 0 && r.actions[|r.actions| - 1].WriteKey?)
  {
    var r := DconfSetOutcome(darkMode, force, host);
    if host.clientOk && host.settingsOk && (force || host.gtkTheme.Some?) {
      var key := BackgroundKey(r.darkMode);
      var reached := [NewClient, NewSettings] + (if force then [] else [GetTheme]) + [ReadKey(key), LookupHome];
      assert forall a :: a in reached ==> a in {NewClient, NewSettings, GetTheme, ReadKey(key), LookupHome};
      if host.home.Some? {
        var w := WriteKey(key, ConfigImageUri(host.home.value, r.darkMode));
        assert r.actions == reached + [w];
        assert w in r.actions;
      } else {
        assert r.actions == reached;
      }
    }
  }

  /** The copy step of `main`: exit status 0 exactly when its home lookup
      succeeds, there is a non-empty source (explicit, or else picked) and the
      copy succeeds. */
  lemma CopyExitCode(img: string, darkMode: bool, host: Host)
    ensures CopyOutcome(img, darkMode, host).darkMode == darkMode
    ensures CopyOutcome(img, darkMode, host).code in {0, 1}
    ensures CopyOutcome(img, darkMode, host).code == 0 <==>
      host.mainHome.Some? && (img != "" || (host.pickerOutput.Some? && host.pickerOutput.value != "")) && host.copyOk
  {
  }

  /** The copy step only looks up the home directory, runs the picker and
      copies; the copy goes from the explicit image, or else from the picker's
      raw output, to the mode's file under the home directory. An explicit
      image skips the picker, and a successful step ends with its copy. */
  lemma CopyTrace(img: string, darkMode: bool, host: Host)
    ensures var r := CopyOutcome(img, darkMode, host);
      && (forall a :: a in r.actions ==> a == LookupHome || a == RunPicker || a.CopyFile?)
      && (forall a :: a in r.actions && a.CopyFile? ==>
            && host.mainHome.Some?
            && a.destination == ConfigImagePath(host.mainHome.value, darkMode)
            && (img != "" ==> a.source == img)
            && (img == "" ==> host.pickerOutput == Some(a.source)))
      && (img != "" ==> RunPicker !in r.actions)
      && (img == "" && host.mainHome.Some? ==> RunPicker in r.actions)
      && (r.code == 0 ==>
            && host.mainHome.Some? && (img == "" ==> host.pickerOutput.Some?)
            && |r.actions| > 0
            && r.actions[|r.actions| - 1] ==
                 CopyFile(if img != "" then img else host.pickerOutput.value, ConfigImagePath(host.mainHome.value, darkMode)))
  {
  }

  /** Every external step that can fail fatally did succeed. */
  predicate AllStepsSucceed(flags: Flags, host: Host) {
    && !(flags.dark && flags.white)
    && host.clientOk
    && host.settingsOk
    && (flags.dark || flags.white || host.gtkTheme.Some?)
    && host.home.Some?
    && host.writeOk
    && host.mainHome.Some?
    && (flags.img != "" || (host.pickerOutput.Some? && host.pickerOutput.value != ""))
    && host.copyOk
  }

  /** The exit status is 0 or 1, and 0 exactly when every step succeeded. */
  lemma ExitCode(flags: Flags, host: Host)
    ensures RunOutcome(flags, host).code in {0, 1}
    ensures RunOutcome(flags, host).code == 0 <==> AllStepsSucceed(flags, host)
  {
    if !(flags.dark && flags.white) {
      var force := flags.dark || flags.white;
      var d := if force then flags.dark else false;
      DconfSetExitCode(d, force, host);
      CopyExitCode(flags.img, DconfSetOutcome(d, force, host).darkMode, host);
    }
  }

  /** Without `-i`, a cancelled picker (or a missing zenity) yields an empty
      path, and the run exits 1 whatever the filesystem does. */
  lemma CancelledPickerFails(flags: Flags, host: Host)
    requires flags.img == "" && host.pickerOutput == Some("")
    ensures RunOutcome(flags, host).code == 1
  {
    ExitCode(flags, host);
  }

  /** Giving both `-d` and `-w` fails before any external call. */
  lemma BothFlagsRejected(flags: Flags, host: Host)
    requires flags.dark && flags.white
    ensures RunOutcome(flags, host).code == 1
    ensures RunOutcome(flags, host).actions == []
  {
  }

  /** A forced mode is the `-d` value; the theme name is neither read nor
      consulted. */
  lemma ForcedModeIgnoresTheme(flags: Flags, host: Host, otherTheme: Option<string>)
    requires flags.dark != flags.white
    ensures RunOutcome(flags, host).darkMode == flags.dark
    ensures GetTheme !in RunOutcome(flags, host).actions
    ensures RunOutcome(flags, host.(gtkTheme := otherTheme)) == RunOutcome(flags, host)
  {
    DconfSetMode(flags.dark, true, host);
    DconfSetExitCode(flags.dark, true, host);
    var s := DconfSetOutcome(flags.dark, true, host);
    if s.code == 0 {
      CopyTrace(flags.img, s.darkMode, host);
      CopyExitCode(flags.img, s.darkMode, host);
      assert GetTheme !in CopyOutcome(flags.img, s.darkMode, host).actions;
    }
  }

  /** Without a forced mode, the mode is the classification of the theme name. */
  lemma UnforcedModeFollowsTheme(flags: Flags, host: Host)
    requires !flags.dark && !flags.white
    requires host.clientOk && host.settingsOk && host.gtkTheme.Some?
    ensures RunOutcome(flags, host).darkMode == LooksDark(host.gtkTheme.value)
    ensures GetTheme in RunOutcome(flags, host).actions
  {
    DconfSetMode(false, false, host);
    var s := DconfSetOutcome(false, false, host);
    assert s.actions[2] == GetTheme;
    if s.code == 0 {
      CopyExitCode(flags.img, s.darkMode, host);
      assert RunOutcome(flags, host).actions[2] == GetTheme;
    }
  }

  /** Keys read and written are the ones the final mode selects, and the value
      written names the mode's file under the home directory. */
  lemma KeysFollowMode(flags: Flags, host: Host)
    ensures var r := RunOutcome(flags, host);
      && (forall a :: a in r.actions && a.ReadKey? ==> a.key == BackgroundKey(r.darkMode))
      && (forall a :: a in r.actions && a.WriteKey? ==>
            host.home.Some? && a == WriteKey(BackgroundKey(r.darkMode), ConfigImageUri(host.home.value, r.darkMode)))
  {
    if !(flags.dark && flags.white) {
      var force := flags.dark || flags.white;
      var d := if force then flags.dark else false;
      DconfSetTrace(d, force, host);
      var s := DconfSetOutcome(d, force, host);
      if s.code == 0 {
        CopyTrace(flags.img, s.darkMode, host);
        CopyExitCode(flags.img, s.darkMode, host);
      }
    }
  }

  /** The URI written to dconf and the copy destination are for the same
      mode, the first under `dconf_set`'s home directory and the second under
      `main`'s; when the two lookups agree, the URI is `file://` followed by the
      copy destination. */
  lemma WrittenUriNamesDestination(flags: Flags, host: Host)
    ensures var r := RunOutcome(flags, host);
      forall w, c :: w in r.actions && c in r.actions && w.WriteKey? && c.CopyFile? ==>
        && host.home.Some? && host.mainHome.Some?
        && w.value == ConfigImageUri(host.home.value, r.darkMode)
        && c.destination == ConfigImagePath(host.mainHome.value, r.darkMode)
        && (ConsistentHome(host) ==> w.value == FileScheme + c.destination)
  {
    if !(flags.dark && flags.white) {
      var force := flags.dark || flags.white;
      var d := if force then flags.dark else false;
      DconfSetTrace(d, force, host);
      var s := DconfSetOutcome(d, force, host);
      if s.code == 0 {
        CopyTrace(flags.img, s.darkMode, host);
        if host.home.Some? {
          UriNamesDestination(host.home.value, s.darkMode);
        }
      }
    }
  }

  /** A copy is attempted only after a successful write to dconf. */
  lemma CopyOnlyAfterWrite(flags: Flags, host: Host)
    ensures var r := RunOutcome(flags, host);
      forall j :: 0 <= j < |r.actions| && r.actions[j].CopyFile? ==>
        host.writeOk && exists i :: 0 <= i < j && r.actions[i].WriteKey?
  {
    var r := RunOutcome(flags, host);
    if !(flags.dark && flags.white) {
      var force := flags.dark || flags.white;
      var d := if force then flags.dark else false;
      DconfSetTrace(d, force, host);
      DconfSetExitCode(d, force, host);
      var s := DconfSetOutcome(d, force, host);
      if s.code == 0 {
        CopyExitCode(flags.img, s.darkMode, host);
        var w := |s.actions| - 1;
        forall j | 0 <= j < |r.actions| && r.actions[j].CopyFile?
          ensures host.writeOk && exists i :: 0 <= i < j && r.actions[i].WriteKey?
        {
          assert r.actions[w].WriteKey?;
        }
      } else {
        forall j | 0 <= j < |r.actions| ensures !r.actions[j].CopyFile? {
          assert r.actions[j] in s.actions;
        }
      }
    }
  }

  /** A run with `-i` never opens the picker, and a successful run ends with
      the copy of its image to the mode's file, after the dconf write of that
      file's URI. */
  lemma SuccessfulRunCopies(flags: Flags, host: Host)
    ensures flags.img != "" ==> RunPicker !in RunOutcome(flags, host).actions
    ensures var r := RunOutcome(flags, host);
      r.code == 0 ==>
        && host.home.Some? && host.mainHome.Some? && (flags.img == "" ==> host.pickerOutput.Some?)
        && |r.actions| >= 2
        && r.actions[|r.actions| - 1] ==
             CopyFile(if flags.img != "" then flags.img else host.pickerOutput.value,
                      ConfigImagePath(host.mainHome.value, r.darkMode))
        && WriteKey(BackgroundKey(r.darkMode), ConfigImageUri(host.home.value, r.darkMode)) in r.actions[..|r.actions| - 1]
  {
    if !(flags.dark && flags.white) {
      var force := flags.dark || flags.white;
      var d := if force then flags.dark else false;
      DconfSetTrace(d, force, host);
      var s := DconfSetOutcome(d, force, host);
      var r := RunOutcome(flags, host);
      if s.code == 0 {
        var rest := CopyOutcome(flags.img, s.darkMode, host);
        CopyTrace(flags.img, s.darkMode, host);
        assert r.actions == s.actions + rest.actions;
        if r.code == 0 {
          var w := s.actions[|s.actions| - 1];
          assert w in s.actions;
          assert r.actions[|s.actions| - 1] == w;
        }
      } else {
        assert r.actions == s.actions;
      }
    }
  }

  /** Failing to read the current background is not fatal: the outcome does
      not depend on that read, and the write is still attempted. */
  lemma ReadFailureNonFatal(flags: Flags, host: Host, current: Option<string>)
    requires !(flags.dark && flags.white)
    requires host.clientOk && host.settingsOk && (flags.dark || flags.white || host.gtkTheme.Some?)
    requires host.home.Some?
    ensures exists a :: a in RunOutcome(flags, host).actions && a.WriteKey?
    ensures RunOutcome(flags, host.(currentBackground := current)) == RunOutcome(flags, host)
  {
    var force := flags.dark || flags.white;
    var d := if force then flags.dark else false;
    DconfSetTrace(d, force, host);
    var s := DconfSetOutcome(d, force, host);
    var a :| a in s.actions && a.WriteKey?;
    assert a in RunOutcome(flags, host).actions;
    var other := host.(currentBackground := current);
    assert DconfSetOutcome(d, force, other) == s;
    assert CopyOutcome(flags.img, s.darkMode, other) == CopyOutcome(flags.img, s.darkMode, host);
  }

  /** When the two lookups agree, `main`'s own home lookup cannot fail once
      `dconf_set` succeeded, so its "home directory not available" exit is
      taken only if the second lookup disagrees with the first. */
  lemma SecondHomeLookupSucceeds(flags: Flags, host: Host)
    requires !(flags.dark && flags.white)
    ensures var force := flags.dark || flags.white;
      DconfSetOutcome(if force then flags.dark else false, force, host).code == 0 && ConsistentHome(host) ==>
        host.mainHome.Some?
    ensures var r := RunOutcome(flags, host);
      r.code == 1 && r.actions != [] && r.actions[|r.actions| - 1] == LookupHome && ConsistentHome(host) ==>
        !host.home.Some?
  {
  }
}
