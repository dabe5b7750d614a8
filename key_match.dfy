/**
 * The match predicate of the vanity-address search (`check_key`).
 *
 * An address is the string encoding of a public key; generating the key pair
 * and encoding its public key are outside this model, so the predicate takes
 * the address directly.
 */
module KeyMatch {
  import opened Wrappers
  import opened Strings

  /** The four search modes selectable on the command line. */
  datatype Mode = Regex | Prefix | Suffix | Repeating

  /** The span of one regex match inside the searched text. */
  datatype Match = Match(start: nat, end: nat)

  /**
   * A compiled pattern, seen only through its unanchored `find`: the engine
   * answers with the first match, with no match, or with an internal error
   * (a backtracking engine may give up on a pathological input).
   */
  type Pattern = string -> Result<Option<Match>, string>

  /** What one worker thread clones from the command line before it starts. */
  datatype Config = Config(mode: Mode, pattern: Pattern, word: string, ignoreCase: bool, count: nat)

  /** ASCII lower-casing of one character; every other character is unchanged. */
  function LowerChar(c: char): (r: char)
    // the result is never an upper-case ASCII letter ...
    ensures !('A' <= r <= 'Z')
    // ... it is the letter itself unless that was upper case, which moves to its lower-case partner
    ensures !('A' <= c <= 'Z') ==> r == c
    ensures 'A' <= c <= 'Z' ==> 'a' <= r <= 'z' && r as int - 'a' as int == c as int - 'A' as int
  {
    if 'A' <= c <= 'Z' then (c as int - 'A' as int + 'a' as int) as char else c
  }

  /** Lower-casing of a whole string, one character at a time. */
  function Lower(s: string): (r: string)
    ensures |r| == |s|
    ensures forall i :: 0 <= i < |s| ==> r[i] == LowerChar(s[i])
  {
    seq(|s|, i requires 0 <= i < |s| => LowerChar(s[i]))
  }

  /**
   * Length of the longest prefix of `s` made only of the character `c`
   * (`s.chars().take_while(|&x| x == c).count()`).
   */
  function RunLength(s: string, c: char): (n: nat)
    ensures n <= |s|
    ensures forall i :: 0 <= i < n ==> s[i] == c
    ensures n == |s| || s[n] != c
  {
    if s == [] || s[0] != c then 0 else 1 + RunLength(s[1..], c)
  }

  /**
   * `check_key`: does `address` satisfy the configured rule?
   * Each ensures clause describes one mode without reference to the body.
   */
  function CheckKey(address: string, mode: Mode, pattern: Pattern, word: string, ignoreCase: bool, count: nat): (r: bool)
    // Regex: an unanchored search that reports a match; an engine error is no match.
    ensures mode == Regex ==> (r <==> pattern(address).Ok? && pattern(address).value.Some?)
    // Case-sensitive prefix and suffix: literal comparison, character by character.
    ensures mode == Prefix && !ignoreCase ==>
      (r <==> |word| <= |address| && forall i :: 0 <= i < |word| ==> address[i] == word[i])
    ensures mode == Suffix && !ignoreCase ==>
      (r <==> |word| <= |address| && forall i :: 0 <= i < |word| ==> address[|address| - |word| + i] == word[i])
    // Case-insensitive prefix and suffix: both sides are lowered the same way.
    ensures mode == Prefix && ignoreCase ==>
      (r <==> |word| <= |address| && forall i :: 0 <= i < |word| ==> LowerChar(address[i]) == LowerChar(word[i]))
    ensures mode == Suffix && ignoreCase ==>
      (r <==> |word| <= |address| &&
              forall i :: 0 <= i < |word| ==> LowerChar(address[|address| - |word| + i]) == LowerChar(word[i]))
    // Repeating: the address is non-empty and its first `count` characters exist and equal the first one.
    ensures mode == Repeating ==>
      (r <==> |address| > 0 && count <= |address| && forall i :: 0 <= i < count ==> address[i] == address[0])
  {
    match mode
    case Regex =>
      var res := pattern(address);
      res.Ok? && res.value.Some?
    case Prefix =>
      if ignoreCase then StartsWith(Lower(address), Lower(word)) else StartsWith(address, word)
    case Suffix =>
      if ignoreCase then EndsWith(Lower(address), Lower(word)) else EndsWith(address, word)
    case Repeating =>
      if address == [] then false
      else
        var n := RunLength(address, address[0]);
        if n >= count then true
        else
          // the character at position n is missing or differs from the first
          assert n < |address| ==> address[n] != address[0];
          false
  }

  /** `check_key` with the settings a worker cloned. */
  predicate Matches(config: Config, address: string)
  {
    CheckKey(address, config.mode, config.pattern, config.word, config.ignoreCase, config.count)
  }

  /** With the flag set, the lowered address is compared against the lowered word. */
  lemma IgnoreCaseLowersBothSides(address: string, mode: Mode, pattern: Pattern, word: string, count: nat)
    requires mode == Prefix || mode == Suffix
    ensures CheckKey(address, mode, pattern, word, true, count)
        == CheckKey(Lower(address), mode, pattern, Lower(word), false, count)
  {
  }

  /** A case-sensitive match is also a case-insensitive one. */
  lemma CaseSensitiveImpliesInsensitive(address: string, mode: Mode, pattern: Pattern, word: string, count: nat)
    requires mode == Prefix || mode == Suffix
    ensures CheckKey(address, mode, pattern, word, false, count) ==> CheckKey(address, mode, pattern, word, true, count)
  {
  }

  /** `Prefix("ABC", ignore_case)` against "abcdef": a match only when case is ignored. */
  lemma PrefixIgnoreCaseExample(pattern: Pattern)
    ensures CheckKey("abcdef", Prefix, pattern, "ABC", true, 0)
    ensures !CheckKey("abcdef", Prefix, pattern, "ABC", false, 0)
  {
    assert "abcdef"[0] != "ABC"[0];
  }

  /** An engine error is a non-match, never a failure of the search. */
  lemma RegexErrorIsNoMatch(address: string, pattern: Pattern, word: string, ignoreCase: bool, count: nat)
    requires pattern(address).Err?
    ensures !CheckKey(address, Regex, pattern, word, ignoreCase, count)
  {
  }

  /** Repeating mode with a count of 0 or 1 accepts every non-empty address and never the empty one. */
  lemma RepeatingSmallCount(address: string, pattern: Pattern, word: string, ignoreCase: bool, count: nat)
    requires count <= 1
    ensures CheckKey(address, Repeating, pattern, word, ignoreCase, count) <==> address != []
  {
  }

  /** Lowering the required run length never turns a match into a non-match. */
  lemma RepeatingMonotone(address: string, pattern: Pattern, word: string, ignoreCase: bool, count: nat, fewer: nat)
    requires fewer <= count
    requires CheckKey(address, Repeating, pattern, word, ignoreCase, count)
    ensures CheckKey(address, Repeating, pattern, word, ignoreCase, fewer)
  {
  }

  /** "aaabc" has a leading run of three: it satisfies a count of 3 but not of 4. */
  lemma RepeatingExample(pattern: Pattern, word: string, ignoreCase: bool)
    ensures CheckKey("aaabc", Repeating, pattern, word, ignoreCase, 3)
    ensures !CheckKey("aaabc", Repeating, pattern, word, ignoreCase, 4)
    ensures !CheckKey("", Repeating, pattern, word, ignoreCase, 1)
  {
    assert "aaabc"[3] != "aaabc"[0];
  }
}
