/**
 * The interactive state of the theme switcher (`ThemeChanger`): the search
 * box, the selection in the theme list, the exit flag, and the writes of the
 * configuration file.
 *
 * The search text is a sequence of characters and `characterIndex` counts
 * characters; the program also converts that position to a UTF-8 byte offset
 * (`byte_index`), which over a sequence of characters is the position itself.
 * Writing the file is recorded by appending the table written to `written`;
 * serialising it and the file system are outside this model.
 */
module ThemeSwitcher {
  import opened Wrappers
  import opened TomlConfig

  /** The keys of a key-press event that the switcher can receive. */
  datatype KeyCode = Char(c: char) | Enter | Backspace | Up | Down | Esc | Left | Right | Other

  /** `s` with `c` inserted before position `k`. */
  function Inserted(s: string, k: nat, c: char): (r: string)
    requires k <= |s|
    ensures |r| == |s| + 1 && r[k] == c
    ensures forall i :: 0 <= i < k ==> r[i] == s[i]
    ensures forall i :: k < i < |r| ==> r[i] == s[i - 1]
  {
    s[..k] + [c] + s[k..]
  }

  /** `s` without the character at position `k`. */
  function Removed(s: string, k: nat): (r: string)
    requires k < |s|
    ensures |r| == |s| - 1
    ensures forall i :: 0 <= i < k ==> r[i] == s[i]
    ensures forall i :: k <= i < |r| ==> r[i] == s[i + 1]
  {
    s[..k] + s[k + 1..]
  }

  /** Deleting the character just inserted gives back the text. */
  lemma RemoveInserted(s: string, k: nat, c: char)
    requires k <= |s|
    ensures Removed(Inserted(s, k, c), k) == s
  {
    var r := Removed(Inserted(s, k, c), k);
    assert forall i :: 0 <= i < |s| ==> r[i] == s[i];
  }

  class ThemeChanger {
    var configTable: TomlTable
    var input: string
    var characterIndex: nat
    /** The selected row of the theme list (`ListState::selected`). */
    var selected: Option<nat>
    var exit: bool
    /** The tables written to the configuration file, oldest first. */
    var written: seq<TomlTable>

    /**
     * The cursor never passes the end of the text, and the configuration file
     * only ever receives the original table or the original with one theme
     * as its only import.
     */
    ghost predicate Valid()
      reads this
    {
      characterIndex <= |input| && forall table :: table in written ==> Permitted(configTable, table)
    }

    /** The state once `run` has read the configuration, before the theme list is selected. */
    constructor (config: TomlTable)
      ensures Valid()
      ensures configTable == config && input == [] && characterIndex == 0
      ensures selected == None && !exit && written == []
    {
      configTable, input, characterIndex := config, [], 0;
      selected, exit, written := None, false, [];
    }

    /** `clamp_cursor`: the position brought into the range from 0 to the length of the text. */
    function ClampCursor(newCursorPos: nat): (r: nat)
      reads this
      ensures r <= |input|
      ensures newCursorPos <= |input| ==> r == newCursorPos
      ensures |input| < newCursorPos ==> r == |input|
    {
      // the lower bound 0 is met by every unsigned position
      if |input| < newCursorPos then |input| else newCursorPos
    }

    /**
     * `byte_index`: where an insertion at the cursor goes, i.e. the offset of
     * the `characterIndex`-th character, or the end of the text when the
     * cursor is at (or past) the end.
     */
    function ByteIndex(): (r: nat)
      reads this
      ensures r <= |input|
      ensures characterIndex < |input| ==> r == characterIndex
      ensures |input| <= characterIndex ==> r == |input|
    {
      if characterIndex < |input| then characterIndex else |input|
    }

    /** `move_cursor_left`: one character back, stopping at the start (`saturating_sub`). */
    method MoveCursorLeft()
      modifies this
      ensures characterIndex == if old(characterIndex) == 0 then 0 else ClampCursor(old(characterIndex) - 1)
      ensures characterIndex <= |input|
      ensures input == old(input) && configTable == old(configTable) && selected == old(selected)
      ensures exit == old(exit) && written == old(written)
    {
      var cursorMovedLeft := if characterIndex == 0 then 0 else characterIndex - 1;
      characterIndex := ClampCursor(cursorMovedLeft);
    }

    /** `move_cursor_right`: one character on, stopping at the end of the text. */
    method MoveCursorRight()
      modifies this
      ensures characterIndex == ClampCursor(old(characterIndex) + 1)
      ensures characterIndex <= |input|
      ensures input == old(input) && configTable == old(configTable) && selected == old(selected)
      ensures exit == old(exit) && written == old(written)
    {
      var cursorMovedRight := characterIndex + 1;
      characterIndex := ClampCursor(cursorMovedRight);
    }

    /** `enter_char`: insert at the cursor and move the cursor past the new character. */
    method EnterChar(newChar: char)
      requires Valid()
      modifies this
      ensures Valid()
      ensures input == Inserted(old(input), old(characterIndex), newChar)
      ensures characterIndex == old(characterIndex) + 1
      ensures configTable == old(configTable) && selected == old(selected)
      ensures exit == old(exit) && written == old(written)
    {
      var index := ByteIndex();
      input := input[..index] + [newChar] + input[index..];
      MoveCursorRight();
    }

    /**
     * `delete_char`: remove the character before the cursor and move the
     * cursor onto its place; nothing happens at the start of the text.
     */
    method DeleteChar()
      requires Valid()
      modifies this
      ensures Valid()
      ensures old(characterIndex) == 0 ==> input == old(input) && characterIndex == 0
      ensures old(characterIndex) > 0 ==>
                input == Removed(old(input), old(characterIndex) - 1)
                && characterIndex == old(characterIndex) - 1
      ensures configTable == old(configTable) && selected == old(selected)
      ensures exit == old(exit) && written == old(written)
    {
      if characterIndex == 0 {
        return;
      }
      var currentIndex := characterIndex;
      var fromLeftToCurrentIndex := currentIndex - 1;
      var beforeCharToDelete := input[..fromLeftToCurrentIndex];
      var afterCharToDelete := input[currentIndex..];
      input := beforeCharToDelete + afterCharToDelete;
      MoveCursorLeft();
    }

    /**
     * `ListState::select_next` of ratatui, a library the program calls:
     * the row after the selected one, or the first row when none is selected.
     * Rendering later clamps the row to the list; that is left out.
     */
    method SelectNext()
      requires Valid()
      modifies this
      ensures Valid()
      ensures selected == Some(if old(selected).None? then 0 else old(selected).value + 1)
      ensures input == old(input) && characterIndex == old(characterIndex) && configTable == old(configTable)
      ensures exit == old(exit) && written == old(written)
    {
      selected := Some(if selected.None? then 0 else selected.value + 1);
    }

    /**
     * `ListState::select_previous` of ratatui, a library the program calls:
     * the row before the selected one, stopping at the first; with
     * nothing selected, the largest index, which rendering turns into the last row.
     */
    method SelectPrevious()
      requires Valid()
      modifies this
      ensures Valid()
      ensures selected == Some(if old(selected).None? then UsizeMax
                               else if old(selected).value == 0 then 0 else old(selected).value - 1)
      ensures input == old(input) && characterIndex == old(characterIndex) && configTable == old(configTable)
      ensures exit == old(exit) && written == old(written)
    {
      selected := Some(if selected.None? then UsizeMax else if selected.value == 0 then 0 else selected.value - 1);
    }

    /** `exit`: stop the event loop; on cancel, write the original table back to the file. */
    method Exit(restoreOriginal: bool)
      requires Valid()
      modifies this
      ensures Valid()
      ensures exit
      ensures written == old(written) + (if restoreOriginal then [configTable] else [])
      ensures input == old(input) && characterIndex == old(characterIndex)
      ensures configTable == old(configTable) && selected == old(selected)
    {
      exit := true;
      if restoreOriginal {
        written := written + [configTable];
      }
    }

    /**
     * `handle_key_event`: a character goes into the search box, Backspace
     * deletes, Up and Down move the selection, Enter accepts the theme on
     * file, Esc restores the original; every other key is ignored.
     */
    method HandleKeyEvent(key: KeyCode)
      requires Valid()
      modifies this
      ensures Valid()
      // only Enter and Esc end the loop, and only Esc writes
      ensures exit == (old(exit) || key == Enter || key == Esc)
      ensures written == old(written) + (if key == Esc then [configTable] else [])
      ensures configTable == old(configTable)
      // the search box: a character goes in at the cursor, Backspace takes out the one before it
      ensures key.Char? ==>
                input == Inserted(old(input), old(characterIndex), key.c)
                && characterIndex == old(characterIndex) + 1
      ensures key == Backspace && old(characterIndex) == 0 ==> input == old(input) && characterIndex == 0
      ensures key == Backspace && old(characterIndex) > 0 ==>
                input == Removed(old(input), old(characterIndex) - 1)
                && characterIndex == old(characterIndex) - 1
      ensures !key.Char? && key != Backspace ==> input == old(input) && characterIndex == old(characterIndex)
      // the selection: Up and Down move it, every other key leaves it alone
      ensures key == Up ==>
                selected == Some(if old(selected).None? then UsizeMax
                                 else if old(selected).value == 0 then 0 else old(selected).value - 1)
      ensures key == Down ==> selected == Some(if old(selected).None? then 0 else old(selected).value + 1)
      ensures key != Up && key != Down ==> selected == old(selected)
    {
      match key
      case Char(toInsert) => EnterChar(toInsert);
      case Enter => Exit(false);
      case Backspace => DeleteChar();
      case Up => SelectPrevious();
      case Down => SelectNext();
      case Esc => Exit(true);
      case _ =>
    }

    /**
     * `update_theme`, given the themes that currently match the search text:
     * select the first row if nothing is selected; if the selected row is in
     * the list, write the configuration with that theme as the only import.
     * The working copy is a clone: `configTable` itself is never changed.
     * `failure` is the panic the program stops with.
     */
    method UpdateTheme(matched: seq<string>) returns (failure: Option<Panic>)
      requires Valid()
      modifies this
      ensures Valid()
      ensures selected == if old(selected).None? then Some(0) else old(selected)
      ensures selected.value >= |matched| ==> failure == None && written == old(written)
      ensures selected.value < |matched| ==>
                match WithTheme(configTable, matched[selected.value])
                case Ok(table) => failure == None && written == old(written) + [table]
                case Err(e) => failure == Some(e) && written == old(written)
      ensures configTable == old(configTable) && input == old(input) && characterIndex == old(characterIndex)
      ensures exit == old(exit)
    {
      failure := None;
      if selected.None? {
        selected := Some(0);
      }
      // `selected` is now always some row, so the program's early return for
      // "no row selected" cannot be taken
      var index := selected.value;
      if index >= |matched| {
        return;
      }
      var theme := matched[index];
      var configClone := configTable;
      if "general" !in configClone {
        configClone := configClone["general" := Table(map[])];
      }
      var general := configClone["general"];
      assert general == General(configTable);
      if !general.Table? {
        failure := Some(GeneralNotTable);
        return;
      }
      var generalEntries := general.entries;
      if "import" !in generalEntries {
        generalEntries := generalEntries["import" := Array([])];
      }
      var imports := generalEntries["import"];
      assert imports == Import(general.entries);
      if !imports.Array? {
        failure := Some(ImportNotArray);
        return;
      }
      var items := imports.items;
      items := [];
      items := items + [String(theme)];
      assert items == [String(theme)];
      configClone := configClone["general" := Table(generalEntries["import" := Array(items)])];
      assert generalEntries["import" := Array(items)] == general.entries["import" := Array([String(theme)])];
      assert configClone == WithTheme(configTable, theme).value;
      ThemedIsPermitted(configTable, theme);
      written := written + [configClone];
    }

    /** Typing a character and deleting it again leaves the search box as it was. */
    method TypeThenBackspace(c: char)
      requires Valid()
      modifies this
      ensures Valid()
      ensures input == old(input) && characterIndex == old(characterIndex)
      ensures configTable == old(configTable) && selected == old(selected)
      ensures exit == old(exit) && written == old(written)
    {
      EnterChar(c);
      DeleteChar();
      RemoveInserted(old(input), old(characterIndex), c);
    }
  }

  /** `usize::MAX`. */
  const UsizeMax: nat := 0xFFFF_FFFF_FFFF_FFFF

  /** The tables the switcher may write: the original, or the original with one theme as its only import. */
  ghost predicate Permitted(config: TomlTable, table: TomlTable)
  {
    table == config || exists theme :: WithTheme(config, theme) == Ok(table)
  }

  /**
   * `run` after the configuration is read, over the key presses the user
   * makes and the search, which gives the matching themes for each search
   * text: select the first theme, write it, then until exit write the
   * selected theme and handle the next key. `pressed` counts the keys
   * handled; the run also ends when the keys run out or the program panics.
   */
  method Run(config: TomlTable, keys: seq<KeyCode>, search: string -> seq<string>)
    returns (written: seq<TomlTable>, exited: bool, failure: Option<Panic>, pressed: nat)
    ensures pressed <= |keys|
    // every write is the original configuration or the original with one theme imported
    ensures forall table :: table in written ==> Permitted(config, table)
    // the loop ends on Enter or Esc, and Esc leaves the original configuration on file
    ensures exited ==> failure == None && 0 < pressed && keys[pressed - 1] in {Enter, Esc}
    // ... and it ends at the first Enter or Esc: no key handled before it was one
    ensures forall i :: 0 <= i < pressed - (if exited then 1 else 0) ==> keys[i] !in {Enter, Esc}
    ensures exited && keys[pressed - 1] == Esc ==> written != [] && written[|written| - 1] == config
    ensures !exited && failure == None ==> pressed == |keys|
    // the program panics only on a configuration whose `general` or `import` has the wrong type
    ensures failure.Some? ==> forall t :: WithTheme(config, t) == Err(failure.value)
  {
    var app := new ThemeChanger(config);
    app.selected := Some(0);
    pressed, exited := 0, false;
    FailureIgnoresTheme(config);
    failure := app.UpdateTheme(search(app.input));
    while failure == None && !app.exit && pressed < |keys|
      invariant fresh(app) && app.Valid()
      invariant pressed <= |keys|
      invariant app.configTable == config
      invariant app.exit ==> failure == None && 0 < pressed && keys[pressed - 1] in {Enter, Esc}
      invariant app.exit && keys[pressed - 1] == Esc ==> app.written != [] && app.written[|app.written| - 1] == config
      invariant forall i :: 0 <= i < pressed - (if app.exit then 1 else 0) ==> keys[i] !in {Enter, Esc}
      invariant failure.Some? ==> forall t :: WithTheme(config, t) == Err(failure.value)
      decreases |keys| - pressed, if failure == None then 1 else 0
    {
      failure := app.UpdateTheme(search(app.input));
      if failure == None {
        app.HandleKeyEvent(keys[pressed]);
        pressed := pressed + 1;
      }
    }
    written, exited := app.written, app.exit;
  }

  /** A table written for a chosen theme is permitted. */
  lemma ThemedIsPermitted(config: TomlTable, theme: string)
    ensures WithTheme(config, theme).Ok? ==> Permitted(config, WithTheme(config, theme).value)
  {
  }
}
