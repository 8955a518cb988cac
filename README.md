# Wallpaper selector — verified model of its decision logic

The wallpaper selector is a small GNOME command-line helper. It decides
whether the desktop is in dark or light mode. A `-d` or `-w` flag forces the
mode; otherwise the GTK theme name decides it. It then points the mode's dconf
background key (`picture-uri-dark` or `picture-uri`) at a fixed file under
`~/.config`, and copies an image over that file. The image comes from `-i`,
or else from a zenity file picker.

This project models the decision logic of `src/main.cpp` in Dafny and proves
properties about it:

- `theme.dfy`, module `ThemeClassifier`: the theme classifier `isDarkTheme`.
  `IsDarkTheme` copies the name into an array and lower-cases it in place with
  a loop, as the source does. It then searches the copy for "dark", "night"
  and "black" with `Find`, a model of `std::string::find`. The method is
  proved equal to `LooksDark`, which says that the lower-cased name contains
  one of the three words.
- `wallpaper.dfy`, module `Wallpaper`: key and path derivation, and the two
  procedures `dconf_set` (`DconfSet`) and `main` (`Run`).
  - Every external call is an input. The `Host` record says whether the dconf
    client and GSettings could be created, the theme name if it could be read,
    the current background value, the results of the two home directory
    lookups, whether the write and the copy succeed, and the picker's output.
  - Both methods return the exit code, the mode in effect, and the trace of
    external calls made (`Action`s: key reads and writes with their key and
    value, copies with their source and destination).
  - Each method is proved equal to a pure function (`DconfSetOutcome`,
    `RunOutcome`, with `CopyOutcome` for the part of `main` after
    `dconf_set`). The lemmas state the program's promises about those
    functions.
- `wrappers.dfy`: an `Option` type.

Characters are Dafny `char`s. `std::tolower` in the default "C" locale changes
only 'A'..'Z', and `LowerChar` does the same. The source works on UTF-8 bytes.
UTF-8 bytes of non-ASCII characters are all at least 0x80, so they are never
changed and never match a letter of the three ASCII words. Classifying code
points therefore gives the same answer as classifying bytes.

`homedir()` is called twice, once in `dconf_set` (`home`) and once in `main`
(`mainHome`), and the model keeps the two results apart. When `$HOME` is set,
both calls return it, since nothing changes the environment. When it is not,
each call reads the passwd database afresh, and the two may differ.
`ConsistentHome` names the case where they agree. Under that assumption,
`main`'s own "home directory not available" branch (src/main.cpp:182-185)
cannot be taken once `dconf_set` has returned 0, and the written URI names the
copy destination. `SecondHomeLookupSucceeds` and `WrittenUriNamesDestination`
prove both.

`std::filesystem::copy` with an empty source path always throws, because no
file has that name. So when the picker returns an empty string (the dialog was
cancelled, or zenity is missing), the copy fails and the program exits 1. The
model makes that copy fail whatever the host's `copyOk` says.

## Model

| member | source | states |
|---|---|---|
| ThemeClassifier.LowerChar | src/main.cpp:78-80 | `tolower` in the C locale: the result is never an upper-case letter, 'A'..'Z' map to 'a'..'z', and any other character is left unchanged |
| ThemeClassifier.Lower | src/main.cpp:77-80 | the lower-cased copy has the name's length, and each position holds the lower-cased character at that position |
| ThemeClassifier.Find | src/main.cpp:81-83 | `find` returns a position exactly when the word occurs; the word occurs at that position and at no earlier one |
| ThemeClassifier.FindFrom | src/main.cpp:81-83 | the search from a start position returns the first occurrence at or after it, or nothing when there is none |
| ThemeClassifier.IsDarkTheme | src/main.cpp:76-84 | lowering the copy in place and testing the three `find`s gives `LooksDark`: true iff the lower-cased name contains one of "dark", "night", "black" |
| ThemeClassifier.CaseInsensitive | src/main.cpp:77-83 | two names that differ only in the case of ASCII letters get the same classification |
| ThemeClassifier.LowerCasedNameSameClass | src/main.cpp:77-83 | classifying an already lower-cased name gives the same answer as classifying the original |
| ThemeClassifier.DarkInContext | src/main.cpp:81-83 | a dark name stays dark with any text added before or after it (substring matching) |
| ThemeClassifier.AdwaitaDarkIsDark | src/main.cpp:76-84 | "Adwaita-dark" is classified dark |
| ThemeClassifier.AdwaitaIsLight | src/main.cpp:76-84 | "Adwaita" is classified light |
| ThemeClassifier.UpperCaseWordsAreDark | src/main.cpp:76-84 | "NIGHTFOX" and "Yaru-BLACK" are classified dark |
| Wallpaper.BackgroundKey | src/main.cpp:115 | the key ternary; `KeySelectsMode` states which key each mode gets |
| Wallpaper.ConfigImageUri | src/main.cpp:133 | the URI written to dconf; `UriNamesDestination` states that it is `file://` followed by the copy destination |
| Wallpaper.ConfigImagePath | src/main.cpp:187 | the copy destination; `DestinationUnderHome` and `DestinationsNeverCollide` state its form and that the two modes' destinations differ |
| Wallpaper.CopyCode | src/main.cpp:188-206 | the exit status of either copy `try`/`catch`, where a copy from an empty path always throws; `CopyExitCode` and `CancelledPickerFails` state its effect on the run |
| Wallpaper.KeySelectsMode | src/main.cpp:115 | the key is `/org/gnome/desktop/background/picture-uri-dark` exactly in dark mode and `/org/gnome/desktop/background/picture-uri` exactly in light mode |
| Wallpaper.DestinationUnderHome | src/main.cpp:187 | the copy destination is the home directory followed by exactly the mode's suffix |
| Wallpaper.UriNamesDestination | src/main.cpp:133 | the written URI is `file://` followed by the copy destination of the same mode |
| Wallpaper.DestinationsNeverCollide | src/main.cpp:187 | the dark and light destinations differ for any two home directories |
| Wallpaper.DconfSet | src/main.cpp:87-149 | `dconf_set` with its early returns computes `DconfSetOutcome`: exit code, updated `darkMode`, and the calls it made |
| Wallpaper.Run | src/main.cpp:166-209 | `main` after parsing computes `RunOutcome`, including its own home check and the failing copy from an empty path |
| Wallpaper.DconfSetExitCode | src/main.cpp:89-148 | `dconf_set` returns 0 or 1, and 0 iff client, settings, theme (when not forced), home directory and write all succeed; the background read plays no part |
| Wallpaper.DconfSetMode | src/main.cpp:102-113 | a forced `darkMode` is kept and the theme is not read; otherwise, once the theme is read, `darkMode` becomes its classification |
| Wallpaper.DconfSetTrace | src/main.cpp:115-135 | only the mode's key is read and written, and the written value is that mode's URI; no picker or copy runs; the write is reached iff every earlier fatal step succeeded; on success the write is the last call |
| Wallpaper.CopyExitCode | src/main.cpp:181-209 | after `dconf_set`, exit 0 iff `main`'s home lookup succeeds, a non-empty source exists (the explicit image, or else the picker output) and the copy succeeds |
| Wallpaper.CopyTrace | src/main.cpp:187-207 | the copy goes from `-i`'s path, or else from the picker's raw output, to the mode's file under `main`'s home directory; `-i` skips the picker, the picker runs otherwise once the home is known, and a successful copy step ends with that copy |
| Wallpaper.SuccessfulRunCopies | src/main.cpp:177-209 | a run with `-i` never opens the picker; a run that exits 0 ends with the copy of its image to the mode's file, after the dconf write of that file's URI |
| Wallpaper.ExitCode | src/main.cpp:166-209 | the exit code is 0 or 1, and 0 iff not both flags, every fatal step succeeds and the copy source is non-empty |
| Wallpaper.CancelledPickerFails | src/main.cpp:198-205 | without `-i`, an empty picker output (cancelled dialog or missing zenity) makes the run exit 1 |
| Wallpaper.BothFlagsRejected | src/main.cpp:166-169 | `-d` with `-w` exits 1 before any external call |
| Wallpaper.ForcedModeIgnoresTheme | src/main.cpp:171-175 | with exactly one flag, the mode is `-d`'s value, the theme is never read, and the outcome is the same whatever the theme is |
| Wallpaper.UnforcedModeFollowsTheme | src/main.cpp:102-113 | with no flag, once client and settings exist and the theme is read, the mode is the theme's classification |
| Wallpaper.KeysFollowMode | src/main.cpp:115-135 | every key read or written in a run is the final mode's key, and every value written is the mode's URI under the home directory |
| Wallpaper.WrittenUriNamesDestination | src/main.cpp:133-190 | in any run, the written URI uses `dconf_set`'s home and the copy destination `main`'s, both with the same mode's suffix; when the two lookups agree, the URI is `file://` followed by the destination |
| Wallpaper.CopyOnlyAfterWrite | src/main.cpp:137-148 | a copy is attempted only after the dconf write happened and succeeded |
| Wallpaper.ReadFailureNonFatal | src/main.cpp:116-123 | the current-background read affects nothing; once the earlier steps succeed, the write is attempted whatever that read returns |
| Wallpaper.SecondHomeLookupSucceeds | src/main.cpp:125-131 | when the two home lookups agree: if `dconf_set` returns 0, `main`'s lookup succeeds, and a run that stops at that lookup had a failing first lookup |

## Left out

- dconf, GSettings and GVariant calls, and GObject reference counting (src/main.cpp:88-146): foreign library calls. Each is reduced to a success flag or an optional string in `Host`, and its call is recorded as an `Action`.
- The `homedir()` lookup through `$HOME`, then `getpwuid` (src/main.cpp:17-36): an OS call. Its two calls become the optional `home` and `mainHome` inputs. That they agree is certain when `$HOME` is set and an assumption (`ConsistentHome`) otherwise. `username()` (src/main.cpp:39-53) is never called by the program.
- `exec` with `popen`/`fgets` and the zenity dialog (src/main.cpp:56-73, 198-200): process I/O and UI. The picker's output is an optional string, `None` when `popen` fails. It is passed to the copy verbatim, including any trailing newline, as the source does. zenity ends the selected path with a newline and `fgets` keeps it (src/main.cpp:64-65), so the copy reads a file whose name ends in that newline. A path picked in the dialog therefore fails to copy unless such a file exists. The model does not track file names, so `copyOk` stands for that outcome.
- `std::filesystem::copy` (src/main.cpp:190, 201): filesystem I/O, reduced to the `copyOk` flag. File contents and the unchanged-destination-on-failure behaviour are not modelled.
- CLI11 parsing and its own exits on bad arguments (src/main.cpp:152-164): library code. `Flags` holds the parsed values, and an absent `-i` is the empty string.
- All console and error-stream output, including the logging of the current background value: output only.
- ThemeClassifier.IsDarkTheme: works on Unicode characters, not on the UTF-8 bytes of the source's `std::string`. Both give the same classification, for the reason given above.
