# Vanity search and theme switcher, modelled in Dafny

This project models the logic of two small Rust programs and proves properties of that logic.

**`solvanity_rs`** searches for key pairs whose address matches a pattern.
- Worker threads generate key pairs in a loop and test each address with `check_key`. The modes are regex, prefix, suffix and leading-character run, with optional case folding for prefix and suffix.
- Each worker reports progress to a coordinator in batches of 1000, and sends every match.
- The coordinator drains the channel. It keeps a running total and feeds every batch to a `SpeedTracker`, a queue of samples covering the last five seconds that estimates keys per second. It stops on the key that brings the number of found keys to the limit.

**`alacritty_theme_switcher`** is a terminal UI for choosing an Alacritty theme.
- The `ThemeChanger` holds a search box (`input` and the cursor `character_index`), the selection in the list of matching themes, and an exit flag.
- On every loop turn, `update_theme` selects the first row if nothing is selected. When the selected row is inside the list of matching themes, it edits a clone of the configuration so that `general.import` is exactly that theme's path, and writes the clone back. The original table stays intact.
  - When the row is outside the list, nothing is written.
  - When `general` is not a table or `general.import` is not an array, the program panics and nothing is written.
- Esc writes the original table back. Enter keeps the theme on file.
- `scan_themes` lists the `.toml` files of the themes directory, sorted in descending order.

The modules:

- `Wrappers`: `Option` and `Result`.
- `Strings`: `starts_with`, `ends_with`, and the lexicographic order of `str`, proved to be a total order.
- `KeyMatch`: `check_key`.
- `SpeedTracking`: the `SpeedTracker` class.
  - `add_iterations` is an imperative loop that pops from the front of the queue.
  - `calculate_speed` is a function on the queue.
  - `Replay` is the queue that a sequence of insertions leaves, used to state properties over a whole run.
- `VanitySearch`: the sequential models of a worker and of the coordinator.
  - A worker is modelled over the addresses of the key pairs it generates, one per pass of its loop.
  - The coordinator is modelled over the messages it receives, each with the monotonic-clock reading it takes when handling it.
- `TomlConfig`: TOML values, and the configuration edit as a function (`WithTheme`) with the lemmas that give its meaning.
- `ThemeList`: the filters of `scan_themes` and its in-place sort, an insertion sort on an array.
- `ThemeSwitcher`: the `ThemeChanger` class, its key handlers and `update_theme`, and the `run` loop over a sequence of key presses.

Modelling conventions:
- Timestamps are integer nanoseconds, and the coordinator's window is 5 000 000 000 ns.
- The rate is an exact `real`.
- Addresses and paths are strings.
- The regex engine is an opaque function from a string to `Ok(Some(match))`, `Ok(None)` or `Err`.
- The fuzzy search of the theme switcher is a function from the search text to the list of matching themes.
- Writing the configuration file is recorded as the sequence of tables written.

Two behaviours of the code worth knowing:
- The limit is any `usize`. With a limit of 0 the loop stops after the first key, which `Coordinate` states as `Max(limit, 1)`.
- The comment in `scan_themes` says "alphabetically", but the comparison is `b.cmp(a)`. The list is therefore in descending order, and the model proves that order.

## Model

| member | source | states |
|---|---|---|
| KeyMatch.CheckKey | solvanity_rs/src/main.rs:88-128 | regex mode matches iff the engine returns `Ok(Some(_))`, so an engine error is no match; case-sensitive prefix/suffix hold iff the word is a prefix/suffix of the address, character by character; with case folding the same comparison holds on lowered characters; repeating mode holds iff the address is non-empty and its first `count` characters exist and equal the first |
| KeyMatch.RunLength | solvanity_rs/src/main.rs:121-124 | `take_while(== first).count()`: the length of the longest leading run of the character, bounded by the length, and followed by a different character or the end |
| KeyMatch.LowerChar | solvanity_rs/src/main.rs:105-108 | ASCII letters only: an upper-case ASCII letter becomes its lower-case partner, any other character is kept, and the result is never an upper-case ASCII letter |
| KeyMatch.Lower | solvanity_rs/src/main.rs:105-108 | lowering keeps the length and lowers each character independently |
| KeyMatch.IgnoreCaseLowersBothSides | solvanity_rs/src/main.rs:104-119 | with case folding, prefix/suffix mode is the case-sensitive test on the lowered address and the lowered word |
| KeyMatch.CaseSensitiveImpliesInsensitive | solvanity_rs/src/main.rs:104-119 | every case-sensitive prefix/suffix match is also a case-insensitive one |
| KeyMatch.PrefixIgnoreCaseExample | solvanity_rs/src/main.rs:104-111 | prefix "ABC" matches "abcdef" with case folding and does not match it without |
| KeyMatch.RegexErrorIsNoMatch | solvanity_rs/src/main.rs:99-103 | an engine error yields no match |
| KeyMatch.RepeatingSmallCount | solvanity_rs/src/main.rs:120-126 | with a count of 0 or 1, repeating mode accepts exactly the non-empty addresses |
| KeyMatch.RepeatingMonotone | solvanity_rs/src/main.rs:120-126 | a match for a run length is a match for every smaller run length |
| KeyMatch.RepeatingExample | solvanity_rs/src/main.rs:120-126 | "aaabc" matches a count of 3 and not 4; the empty address never matches |
| SpeedTracking.DropStaleMeaning | solvanity_rs/src/main.rs:42-50 | `DropStale`, the queue after eviction, is a suffix of the queue; every entry dropped is older than the cutoff and the first entry kept is not |
| SpeedTracking.TotalBounds | solvanity_rs/src/main.rs:58 | `Total`, the sum of the counts in the queue, is at least every count in it and is 0 exactly when every count is 0 |
| SpeedTracking.StaleCount | solvanity_rs/src/main.rs:42-50 | eviction removes only entries older than the cutoff and stops at the first entry that is not older, or at the end |
| SpeedTracking.StaleCountUnique | solvanity_rs/src/main.rs:44-50 | the number evicted is the unique count whose entries are all stale and whose next entry is fresh |
| SpeedTracking.SpeedTracker.constructor | solvanity_rs/src/main.rs:32-37 | a new tracker has an empty queue and the given window |
| SpeedTracking.SpeedTracker.AddIterations | solvanity_rs/src/main.rs:39-51 | the new queue is the old queue plus the new sample with its stale front evicted, i.e. a suffix of old-plus-new in the same order; it is non-empty and ends with the new sample |
| SpeedTracking.SpeedTracker.CalculateSpeed | solvanity_rs/src/main.rs:53-71 | the rate is never negative; it is 0 for an empty queue or when the newest sample is not later than the oldest; otherwise the rate times the span equals the total count per second, with no division by zero |
| SpeedTracking.NewSampleSurvives | solvanity_rs/src/main.rs:39-51 | the sample just pushed is never evicted and is last in the queue |
| SpeedTracking.WindowInvariant | solvanity_rs/src/main.rs:39-51 | if the queue is in timestamp order and no entry is later than the new sample, the queue afterwards is in order and every entry lies in [t - window, t] |
| SpeedTracking.ReplayEndsWithLast | solvanity_rs/src/main.rs:39-51 | after any non-empty sequence of insertions the queue ends with the last sample inserted |
| SpeedTracking.ReplayIsSuffix | solvanity_rs/src/main.rs:39-51 | after any sequence of insertions the queue is a suffix of everything inserted, in insertion order |
| SpeedTracking.ReplayWindowed | solvanity_rs/src/main.rs:39-51 | over a whole run with non-decreasing timestamps, the queue is in order and within one window of the latest sample |
| VanitySearch.Worker | solvanity_rs/src/main.rs:251-273 | every progress message carries exactly 1000; the worker sends one per completed batch and leaves the remainder in the counter, which stays below 1000; the keys sent are exactly the matching addresses, in order |
| VanitySearch.CountPass | solvanity_rs/src/main.rs:254-263 | the counter counts the pass and returns to 0 exactly when it completes a batch of 1000, which is then sent as one progress message carrying 1000; no key is sent |
| VanitySearch.SendIfMatching | solvanity_rs/src/main.rs:266-273 | the address is sent exactly when it matches; no progress message is sent |
| VanitySearch.PrefixStep | solvanity_rs/src/main.rs:283-314 | receiving one more message adds its batch to the total, adds one key if it is a key, and feeds one more sample if it is a batch |
| VanitySearch.FedInOrder | solvanity_rs/src/main.rs:285-287 | with a monotonic clock the samples fed to the tracker are in timestamp order |
| VanitySearch.TrackerCoversWindow | solvanity_rs/src/main.rs:223-287 | with a monotonic clock the coordinator's tracker stays in order and within five seconds of the latest batch |
| VanitySearch.Coordinate | solvanity_rs/src/main.rs:278-316 | the total is the sum of the batches received and the count is the number of keys received; the loop stops right after the key that brings the count to the limit (1 for a limit of 0) and reads nothing after it, otherwise it reads every message and stays under the limit; the tracker holds what feeding it the batches received leaves |
| Strings.StartsWith | solvanity_rs/src/main.rs:104-111 | `starts_with` holds iff the prefix is no longer than the string and matches its first characters one by one |
| Strings.EndsWith | solvanity_rs/src/main.rs:112-119 | `ends_with` holds iff the suffix is no longer than the string and matches its last characters one by one |
| Strings.LexLe | alacritty_theme_switcher/src/main.rs:206 | the `str` order puts a prefix before any extension of it and never puts a string before its own proper prefix |
| Strings.LexLeReflexive | alacritty_theme_switcher/src/main.rs:206 | the order on paths is reflexive |
| Strings.LexLeTotal | alacritty_theme_switcher/src/main.rs:206 | any two paths are comparable |
| Strings.LexLeAntisymmetric | alacritty_theme_switcher/src/main.rs:206 | paths that compare equal both ways are the same path |
| Strings.LexLeTransitive | alacritty_theme_switcher/src/main.rs:206 | the order on paths is transitive |
| ThemeList.TomlFiles | alacritty_theme_switcher/src/main.rs:192-203 | a path is kept iff it belongs to a regular-file entry and ends with ".toml" |
| ThemeList.ScanThemes | alacritty_theme_switcher/src/main.rs:188-209 | the result is a permutation of the kept paths, in descending order, and holds exactly the `.toml` regular files |
| ThemeList.SortDescending | alacritty_theme_switcher/src/main.rs:205-206 | sorting with `b.cmp(a)` in place leaves a permutation of the array in descending order |
| ThemeList.Insert | alacritty_theme_switcher/src/main.rs:206 | one insertion step extends the sorted prefix by one element and keeps the multiset of elements |
| ThemeList.DescendingUnique | alacritty_theme_switcher/src/main.rs:206 | two descending arrangements of the same paths are equal, so the listing determines the theme list |
| TomlConfig.WithTheme | alacritty_theme_switcher/src/main.rs:234-263 | a successful edit keeps every other top-level entry, adds `general` if it was missing, and leaves `general.import` holding exactly the theme; `WithThemeMeaning` gives the failure cases |
| TomlConfig.WithThemeMeaning | alacritty_theme_switcher/src/main.rs:234-263 | the edit panics iff an existing `general` is not a table or an existing `general.import` is not an array; otherwise it keeps every other top-level entry and every other entry of `general`, creates `general` if missing, and makes `general.import` exactly `[theme]` |
| TomlConfig.FailureIgnoresTheme | alacritty_theme_switcher/src/main.rs:243-259 | whether the edit panics, and with which message, depends only on the configuration: if it fails for one theme it fails the same way for every theme |
| TomlConfig.WithThemeIdempotent | alacritty_theme_switcher/src/main.rs:234-263 | applying the edit again with the same theme changes nothing |
| TomlConfig.WithThemeOverrides | alacritty_theme_switcher/src/main.rs:234-263 | editing for one theme and then another gives what editing for the second alone gives |
| ThemeSwitcher.Inserted | alacritty_theme_switcher/src/main.rs:101 | insertion grows the text by one, puts the character at the position, and shifts the rest right |
| ThemeSwitcher.Removed | alacritty_theme_switcher/src/main.rs:113-116 | deletion shrinks the text by one, keeps the characters before the position, and shifts the rest left |
| ThemeSwitcher.RemoveInserted | alacritty_theme_switcher/src/main.rs:99-118 | deleting the character just inserted gives back the text |
| ThemeSwitcher.ThemeChanger.constructor | alacritty_theme_switcher/src/main.rs:24-38 | the state after the configuration is read: the given table, an empty search box with the cursor at 0, nothing selected, not exiting, nothing written |
| ThemeSwitcher.ThemeChanger.ClampCursor | alacritty_theme_switcher/src/main.rs:128-130 | the result lies between 0 and the length of the text; a position inside the text is kept, a larger one becomes the length |
| ThemeSwitcher.ThemeChanger.ByteIndex | alacritty_theme_switcher/src/main.rs:120-126 | the insertion position is the cursor when the cursor is on a character, and the end of the text otherwise |
| ThemeSwitcher.ThemeChanger.MoveCursorLeft | alacritty_theme_switcher/src/main.rs:89-92 | the cursor goes one back, stays at 0 at the start, and never passes the end; nothing else changes |
| ThemeSwitcher.ThemeChanger.MoveCursorRight | alacritty_theme_switcher/src/main.rs:94-97 | the cursor goes one on and stops at the end of the text; nothing else changes |
| ThemeSwitcher.ThemeChanger.EnterChar | alacritty_theme_switcher/src/main.rs:99-103 | with cursor k, the text becomes old[..k] + [c] + old[k..] and the cursor k+1; the cursor invariant is kept |
| ThemeSwitcher.ThemeChanger.DeleteChar | alacritty_theme_switcher/src/main.rs:105-118 | at cursor 0 nothing changes; at cursor k > 0 exactly the character at k-1 is removed, the others are kept in order, and the cursor becomes k-1 |
| ThemeSwitcher.ThemeChanger.SelectPrevious | alacritty_theme_switcher/src/main.rs:81-83 | the row before the selected one, stopping at 0, or `usize::MAX` when nothing is selected |
| ThemeSwitcher.ThemeChanger.SelectNext | alacritty_theme_switcher/src/main.rs:85-87 | the row after the selected one, or row 0 when nothing is selected |
| ThemeSwitcher.ThemeChanger.Exit | alacritty_theme_switcher/src/main.rs:132-138 | sets the exit flag and writes the original table back exactly when asked to restore |
| ThemeSwitcher.ThemeChanger.HandleKeyEvent | alacritty_theme_switcher/src/main.rs:69-79 | only Enter and Esc set the exit flag and only Esc writes, and it writes the original table; a character is inserted at the cursor and the cursor moves past it; Backspace does nothing at the start and otherwise removes the character before the cursor and moves the cursor onto its place; other keys leave the search box alone; Up and Down set the selection as `SelectPrevious` and `SelectNext` do, and no other key changes it; the class invariant is kept: the cursor is within the text, and every table written is the original or the original with one theme imported |
| ThemeSwitcher.ThemeChanger.UpdateTheme | alacritty_theme_switcher/src/main.rs:211-267 | selects row 0 if nothing is selected; an out-of-range row writes nothing; otherwise it writes the edited table for the selected theme, or writes nothing and reports the panic; `config_table` is never changed |
| ThemeSwitcher.ThemeChanger.TypeThenBackspace | alacritty_theme_switcher/src/main.rs:99-118 | entering a character and then deleting it restores the text and the cursor |
| ThemeSwitcher.ThemedIsPermitted | alacritty_theme_switcher/src/main.rs:231-266 | a table written for a chosen theme is the original with that theme imported |
| ThemeSwitcher.Run | alacritty_theme_switcher/src/main.rs:36-52 | every table written is the original, or the original with one theme as its only import; the loop ends at the first Enter or Esc and only there, and otherwise runs until the keys run out or the program panics; it panics only when `general` is not a table or `general.import` is not an array, and then the edit fails the same way for every theme; after Esc the file holds the original configuration |

## Left out

- Key pair generation and address encoding (`Keypair::new`, `pubkey().to_string()`) are outside the model. The address is an arbitrary string.
- The `fancy_regex` engine is outside the model. It is an arbitrary function that answers a match, no match or an error.
- Threads, the channel and CPU pinning are not modelled.
  - A worker is modelled for a finite number of passes. The real worker's inner loop has no `break`, so it runs forever and the thread is pinned once.
  - The coordinator is modelled over any finite sequence of messages, so any interleaving of the workers is covered. The real channel never closes, so the outcome "messages ran out" stands for a coordinator that is still waiting.
- The following are I/O and are not modelled: `save_key` file writes, progress and key printing, and the once-per-second report cadence, which reads the wall clock. The rate printed is `CalculateSpeed` of a tracker whose queue is `Replay(Fed(...))` of the messages received so far; `Coordinate` returns that queue as `samples`.
- Command-line parsing is not modelled. The mode, pattern, word, flags, count, limit and thread count are parameters.
- SpeedTracking.SpeedTracker.CalculateSpeed: the rate is an exact real number, not the `f64` the program computes, and the cast of the speed to `usize` for printing is left out.
- SpeedTracking.SpeedTracker.AddIterations: does not model the panic of `time - window_duration` when the instant lies less than the window after the clock's origin. Timestamps are unbounded integers.
- VanitySearch.Coordinate: does not model `usize` overflow of `total_iterations` or `found_keys`. The sums are unbounded.
- VanitySearch.Worker: does not model `usize` overflow of the counter, which the reset at 1000 rules out anyway.
- KeyMatch.LowerChar: lowers ASCII letters only. `char::to_lowercase` also lowers non-ASCII letters, for example U+212A KELVIN SIGN to `k`, and some letters become more than one character.
- KeyMatch.CheckKey: with case folding, prefix and suffix modes fold ASCII letters only. A `word` with a non-ASCII letter that `to_lowercase` maps to an ASCII one, such as U+212A KELVIN SIGN, matches addresses in the program that it does not match in the model.
- KeyMatch.Lower: lowers ASCII letters only. `str::to_lowercase` also maps non-ASCII letters and can change the length of the string. Addresses are base58 and therefore ASCII, but a non-ASCII `word` is not modelled.
- The following parts of the theme switcher are outside the model:
  - configuration discovery through `xdg` and `HOME`;
  - `fs::read_to_string`, parsing and printing TOML, and `fs::write`, whose content is recorded in `written`;
  - the error paths of `run` that use `?`;
  - `read_dir` errors, unreadable entries and the `parent().unwrap()` in `scan_themes`.
- `get_matched_themes` (`SkimMatcherV2` scoring and ordering) is outside the model. `Run` receives the search as a function from the search text to the matching themes.
- The following are not modelled: drawing, event reading, non-press events, and ratatui's clamping of the selection to the list at render time.
- ThemeSwitcher.ThemeChanger.SelectNext: ratatui's `ListState::select_next` and `select_previous` belong to ratatui, a library the program calls. They are modelled as that library documents them, and `select_next` does not saturate at `usize::MAX`.
- ThemeSwitcher.ThemeChanger.ByteIndex: returns a character position. The program returns the UTF-8 byte offset of that character, so the two agree only on ASCII text. On a sequence of characters, inserting at the character position is what inserting at the byte offset does to the text.
- ThemeList.ScanThemes: paths are compared as whole strings. `PathBuf` compares component by component, which gives the same order for entries of one directory.
- `term-clock` and `web_embed` are not part of this model. One is a terminal clock and the other an embedded-file HTTP server.
