/**
 * The theme list of the theme switcher (`scan_themes`): the regular files of
 * the themes directory whose path ends in `.toml`, sorted with `b.cmp(a)`,
 * that is in DESCENDING order although the code's comment says
 * "alphabetically".
 *
 * Reading the directory is outside this model: the directory listing is given
 * as its entries, each a path and whether its metadata says it is a regular
 * file (an entry whose metadata cannot be read counts as not a file). All
 * entries share the directory's path as prefix, so ordering the paths of
 * `PathBuf` component by component orders them as whole strings.
 */
module ThemeList {
  import opened Strings

  datatype DirEntry = DirEntry(path: string, isFile: bool)

  /** The entry is kept by the two filters of `scan_themes`. */
  predicate IsTheme(e: DirEntry)
  {
    e.isFile && EndsWith(e.path, ".toml")
  }

  /** The paths kept by the filters, in directory order. */
  function TomlFiles(entries: seq<DirEntry>): (r: seq<string>)
    ensures |r| <= |entries|
    ensures forall p :: p in r <==> exists e :: e in entries && IsTheme(e) && e.path == p
  {
    if entries == [] then []
    else
      var rest := TomlFiles(entries[1..]);
      assert forall e :: e in entries <==> e == entries[0] || e in entries[1..];
      if IsTheme(entries[0]) then [entries[0].path] + rest else rest
  }

  /** Every path comes no earlier than the next one: `sort_by(|a, b| b.cmp(a))`. */
  ghost predicate Descending(s: seq<string>)
  {
    forall i, j :: 0 <= i < j < |s| ==> LexLe(s[j], s[i])
  }

  /**
   * `scan_themes` after the directory is read: collect the kept paths, then
   * sort them in place with the reversed comparison.
   */
  method ScanThemes(entries: seq<DirEntry>) returns (paths: seq<string>)
    ensures multiset(paths) == multiset(TomlFiles(entries))
    ensures Descending(paths)
    // only regular files whose name ends in `.toml`, and all of them
    ensures forall p :: p in paths <==> exists e :: e in entries && IsTheme(e) && e.path == p
  {
    var kept := TomlFiles(entries);
    var a := new string[|kept|](i => if 0 <= i < |kept| then kept[i] else []);
    assert a[..] == kept;
    SortDescending(a);
    paths := a[..];
    forall p
      ensures p in paths <==> p in kept
    {
      assert p in paths <==> p in multiset(paths);
      assert p in kept <==> p in multiset(kept);
    }
  }

  /** The first `n` paths are in descending order. */
  ghost predicate DescendingPrefix(s: seq<string>, n: nat)
  {
    forall p, q :: 0 <= p < q < n && q < |s| ==> LexLe(s[q], s[p])
  }

  /** In-place insertion sort: each element in turn is moved towards the front past the smaller ones. */
  method SortDescending(a: array<string>)
    modifies a
    ensures multiset(a[..]) == multiset(old(a[..]))
    ensures Descending(a[..])
  {
    var i := 0;
    while i < a.Length
      invariant 0 <= i <= a.Length
      invariant multiset(a[..]) == multiset(old(a[..]))
      invariant DescendingPrefix(a[..], i)
    {
      Insert(a, i);
      i := i + 1;
    }
  }

  /**
   * While `a[i]` moves to the front, the first `i + 1` paths are in order
   * apart from the one being moved, at `j`, which is no smaller than every
   * path it has passed.
   */
  ghost predicate Inserting(s: seq<string>, i: nat, j: nat)
  {
    j <= i < |s|
    && (forall p, q :: 0 <= p < q <= i && p != j && q != j ==> LexLe(s[q], s[p]))
    && (forall q :: j < q <= i ==> LexLe(s[q], s[j]))
  }

  /** Moves `a[i]` into place in the sorted prefix `a[..i]` by swapping it with smaller predecessors. */
  method Insert(a: array<string>, i: nat)
    requires i < a.Length
    requires DescendingPrefix(a[..], i)
    modifies a
    ensures multiset(a[..]) == multiset(old(a[..]))
    ensures DescendingPrefix(a[..], i + 1)
  {
    var j: nat := i;
    while 0 < j && !LexLe(a[j], a[j - 1])
      invariant Inserting(a[..], i, j)
      invariant multiset(a[..]) == multiset(old(a[..]))
    {
      SwapStep(a[..], i, j);
      a[j - 1], a[j] := a[j], a[j - 1];
      j := j - 1;
    }
    InsertDone(a[..], i, j);
  }

  /** Swapping the moved path with a smaller predecessor keeps the insertion invariant one place further on. */
  lemma SwapStep(s: seq<string>, i: nat, j: nat)
    requires Inserting(s, i, j) && 0 < j && !LexLe(s[j], s[j - 1])
    ensures Inserting(s[j - 1 := s[j]][j := s[j - 1]], i, j - 1)
    ensures multiset(s[j - 1 := s[j]][j := s[j - 1]]) == multiset(s)
  {
    LexLeTotal(s[j], s[j - 1]);
  }

  /** Once the moved path is no smaller than its predecessor (or first), the prefix is sorted. */
  lemma InsertDone(s: seq<string>, i: nat, j: nat)
    requires Inserting(s, i, j) && (j == 0 || LexLe(s[j], s[j - 1]))
    ensures DescendingPrefix(s, i + 1)
  {
    forall p | 0 <= p < j
      ensures LexLe(s[j], s[p])
    {
      if p < j - 1 {
        LexLeTransitive(s[j], s[j - 1], s[p]);
      }
    }
  }

  /**
   * The sorted list is determined by the directory listing: two descending
   * arrangements of the same paths are the same list.
   */
  lemma {:induction false} DescendingUnique(s: seq<string>, t: seq<string>)
    requires Descending(s) && Descending(t)
    requires multiset(s) == multiset(t)
    ensures s == t
  {
    if s == [] {
      assert |t| == |multiset(t)| == 0;
    } else {
      assert |t| == |multiset(t)| > 0;
      SameFirst(s, t);
      assert s == [s[0]] + s[1..] && t == [t[0]] + t[1..];
      assert multiset(s[1..]) == multiset(t[1..]) by {
        assert multiset(s[1..]) == multiset(s) - multiset{s[0]};
        assert multiset(t[1..]) == multiset(t) - multiset{t[0]};
      }
      DescendingUnique(s[1..], t[1..]);
    }
  }

  /** Both descending arrangements start with the greatest path. */
  lemma SameFirst(s: seq<string>, t: seq<string>)
    requires Descending(s) && Descending(t)
    requires multiset(s) == multiset(t) && s != [] && t != []
    ensures s[0] == t[0]
  {
    assert s[0] in multiset(t) && t[0] in multiset(s);
    var k :| 0 <= k < |t| && t[k] == s[0];
    var m :| 0 <= m < |s| && s[m] == t[0];
    if k == 0 { LexLeReflexive(s[0]); }
    if m == 0 { LexLeReflexive(t[0]); }
    LexLeAntisymmetric(s[0], t[0]);
  }
}
