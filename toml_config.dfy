/**
 * The configuration edit of the theme switcher (`update_theme`): the parsed
 * `alacritty.toml` is a table of TOML values, and choosing a theme makes
 * `general.import` exactly the list holding the theme's path, creating the
 * `general` table and its `import` array when they are missing.
 *
 * Parsing and printing the TOML text are outside this model.
 */
module TomlConfig {
  import opened Wrappers

  /** A TOML value; floats and date-times are kept as their text, since the edit never looks inside them. */
  datatype Value =
    | String(str: string)
    | Integer(integer: int)
    | Boolean(boolean: bool)
    | Array(items: seq<Value>)
    | Table(entries: map<string, Value>)
    | Other(raw: string)

  /** A TOML document: the top-level table. */
  type TomlTable = map<string, Value>

  /** The two `expect`s of the edit that can fail: the program panics with these messages. */
  datatype Panic = GeneralNotTable | ImportNotArray

  /** The `general` section as the edit sees it: the existing one, or a new empty table. */
  function General(config: TomlTable): Value
  {
    if "general" in config then config["general"] else Table(map[])
  }

  /** The `import` entry of a `general` table as the edit sees it: the existing one, or a new empty array. */
  function Import(general: map<string, Value>): Value
  {
    if "import" in general then general["import"] else Array([])
  }

  /**
   * The table `update_theme` writes for `theme`, or the panic it stops with:
   * the clone of `config` with `general.import` cleared and given the theme.
   */
  function WithTheme(config: TomlTable, theme: string): (r: Result<TomlTable, Panic>)
    // a successful edit keeps every other top-level entry, adds `general` if
    // missing, and leaves the theme as the only import
    ensures r.Ok? ==> r.value.Keys == config.Keys + {"general"}
    ensures r.Ok? ==> forall k :: k in config && k != "general" ==> r.value[k] == config[k]
    ensures r.Ok? ==> General(r.value).Table? && Import(General(r.value).entries) == Array([String(theme)])
  {
    var general := General(config);
    if !general.Table? then Err(GeneralNotTable)
    else if !Import(general.entries).Array? then Err(ImportNotArray)
    else Ok(config["general" := Table(general.entries["import" := Array([String(theme)])])])
  }

  /**
   * What the edit does, stated entry by entry: it fails exactly when an
   * existing `general` is not a table or an existing `general.import` is not
   * an array; otherwise every other top-level entry and every other entry of
   * `general` is kept, `general` is added if it was missing, and
   * `general.import` is exactly `[theme]`.
   */
  lemma WithThemeMeaning(config: TomlTable, theme: string)
    ensures WithTheme(config, theme) == Err(GeneralNotTable)
            <==> "general" in config && !config["general"].Table?
    ensures WithTheme(config, theme) == Err(ImportNotArray)
            <==> "general" in config && config["general"].Table?
                 && "import" in config["general"].entries && !config["general"].entries["import"].Array?
    ensures WithTheme(config, theme).Ok? ==>
              var r := WithTheme(config, theme).value;
              r.Keys == config.Keys + {"general"}
              && (forall k :: k in config && k != "general" ==> r[k] == config[k])
              && r["general"].Table?
              && r["general"].entries.Keys == General(config).entries.Keys + {"import"}
              && (forall k :: k in General(config).entries && k != "import" ==>
                    r["general"].entries[k] == General(config).entries[k])
              && r["general"].entries["import"] == Array([String(theme)])
  {
  }

  /** Whether the edit fails, and how, depends on the configuration alone, never on the theme chosen. */
  lemma FailureIgnoresTheme(config: TomlTable)
    ensures forall t, u :: WithTheme(config, t).Err? ==> WithTheme(config, u) == WithTheme(config, t)
  {
  }

  /** Choosing the same theme again writes the same table. */
  lemma {:induction false} WithThemeIdempotent(config: TomlTable, theme: string)
    requires WithTheme(config, theme).Ok?
    ensures WithTheme(WithTheme(config, theme).value, theme) == WithTheme(config, theme)
  {
    var r := WithTheme(config, theme).value;
    var g := General(config).entries["import" := Array([String(theme)])];
    assert General(r) == Table(g);
    assert g["import" := Array([String(theme)])] == g;
    assert r["general" := Table(g)] == r;
  }

  /**
   * Only the last choice matters: choosing `first` and then `second` writes
   * what choosing `second` directly writes.
   */
  lemma {:induction false} WithThemeOverrides(config: TomlTable, first: string, second: string)
    requires WithTheme(config, first).Ok?
    ensures WithTheme(WithTheme(config, first).value, second) == WithTheme(config, second)
  {
    var r := WithTheme(config, first).value;
    var g := General(config).entries;
    assert General(r) == Table(g["import" := Array([String(first)])]);
    assert g["import" := Array([String(first)])]["import" := Array([String(second)])] == g["import" := Array([String(second)])];
    assert r["general" := Table(g["import" := Array([String(second)])])]
        == config["general" := Table(g["import" := Array([String(second)])])];
  }
}
