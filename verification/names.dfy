/**
 * The identifier validators. Three pages carry their own is_valid_name and one
 * page checks table names with a bare pattern; they differ in strictness.
 *
 * All patterns are anchored as /^...$/ without the D modifier, so PCRE's `$`
 * also matches just before one final "\n": "abc\n" passes. The predicates
 * below encode that.
 */
module Names {
  import opened PhpText

  predicate IsWordChar(c: char) {
    'a' <= c <= 'z' || 'A' <= c <= 'Z' || '0' <= c <= '9' || c == '_'
  }

  predicate IsLeadChar(c: char) {
    'a' <= c <= 'z' || 'A' <= c <= 'Z' || c == '_'
  }

  predicate AllWord(s: string) {
    forall i :: 0 <= i < |s| ==> IsWordChar(s[i])
  }

  /** `[a-zA-Z0-9_]+` covering the whole of `s`. */
  predicate WordPlus(s: string) {
    |s| >= 1 && AllWord(s)
  }

  /** `[a-zA-Z_][a-zA-Z0-9_]{0,63}` covering the whole of `s`. */
  predicate LeadThenWords(s: string) {
    1 <= |s| <= 64 && IsLeadChar(s[0]) && AllWord(s)
  }

  predicate EndsWithNewline(s: string) {
    |s| > 0 && s[|s| - 1] == '\n'
  }

  /** preg_match('/^[a-zA-Z0-9_]+$/', $s) */
  predicate MatchesWordPattern(s: string) {
    WordPlus(s) || (EndsWithNewline(s) && WordPlus(s[..|s| - 1]))
  }

  /** preg_match('/^[a-zA-Z_][a-zA-Z0-9_]{0,63}$/', $s) */
  predicate MatchesStrictPattern(s: string) {
    LeadThenWords(s) || (EndsWithNewline(s) && LeadThenWords(s[..|s| - 1]))
  }

  /** is_valid_name of php_app/db_config.php: non-empty, the word pattern, strlen at most 64. */
  predicate IsValidNameConfig(name: string) {
    name != "" && MatchesWordPattern(name) && |name| <= 64
  }

  /** is_valid_name of php_app/index.php: the word pattern and strlen at most 64. */
  predicate IsValidNameIndex(name: string) {
    MatchesWordPattern(name) && |name| <= 64
  }

  /** is_valid_name of php_app/include/db_config.php: the strict pattern alone. */
  predicate IsValidNameStrict(name: string) {
    MatchesStrictPattern(name)
  }

  /** A character that no validator lets through, except as the single final "\n". */
  predicate HasForeignChar(s: string) {
    exists i :: 0 <= i < |s| && !IsWordChar(s[i]) && !(i == |s| - 1 && s[i] == '\n')
  }

  /**
   * db_config.php rejects the empty name, every name longer than 64 bytes and
   * every name with a character outside [A-Za-z0-9_] (backtick, space, hyphen,
   * ...), the final "\n" that `$` tolerates excepted.
   */
  lemma {:induction false} ConfigRejects(name: string)
    ensures name == "" ==> !IsValidNameConfig(name)
    ensures |name| > 64 ==> !IsValidNameConfig(name)
    ensures HasForeignChar(name) ==> !IsValidNameConfig(name)
  {
    if IsValidNameConfig(name) {
      forall i | 0 <= i < |name|
        ensures IsWordChar(name[i]) || (i == |name| - 1 && name[i] == '\n')
      {
        if !WordPlus(name) && i < |name| - 1 {
          assert name[..|name| - 1][i] == name[i];
        }
      }
    }
  }

  /** db_config.php accepts every name of 1..64 characters from [A-Za-z0-9_], a leading digit included. */
  lemma {:induction false} ConfigAcceptsWords(name: string)
    requires 1 <= |name| <= 64 && AllWord(name)
    ensures IsValidNameConfig(name)
  {
  }

  /** The newline quirk: "abc\n" passes db_config.php's check. */
  lemma ConfigAcceptsFinalNewline()
    ensures IsValidNameConfig("abc\n")
  {
    assert "abc\n"[..3] == "abc";
  }

  /** index.php's variant leaves out the `!== ''` test, which the pattern makes redundant. */
  lemma {:induction false} IndexAgreesWithConfig(name: string)
    ensures IsValidNameIndex(name) <==> IsValidNameConfig(name)
  {
  }

  /**
   * index.php trims names before validating them, so the quirk cannot arise
   * there: a trimmed name passes exactly when it is 1..64 word characters.
   */
  lemma {:induction false} TrimmedNameValidation(raw: string)
    ensures IsValidNameIndex(Trim(raw)) <==> (1 <= |Trim(raw)| <= 64 && AllWord(Trim(raw)))
  {
    var t := Trim(raw);
    assert t == [] || !IsTrimChar(t[|t| - 1]);
  }

  /**
   * include/db_config.php rejects the empty name and a leading digit, and
   * accepts nothing longer than 64 characters apart from 64 followed by the
   * final "\n".
   */
  lemma {:induction false} StrictRejects(name: string)
    ensures !IsValidNameStrict("")
    ensures |name| > 0 && IsDigit(name[0]) ==> !IsValidNameStrict(name)
    ensures |name| > 64 && !(|name| == 65 && EndsWithNewline(name)) ==> !IsValidNameStrict(name)
  {
    if |name| > 0 && IsDigit(name[0]) && EndsWithNewline(name) && |name| > 1 {
      assert name[..|name| - 1][0] == name[0];
    }
  }

  /** include/db_config.php accepts a letter or underscore followed by 0..63 word characters. */
  lemma {:induction false} StrictAcceptsIdentifiers(name: string)
    requires 1 <= |name| <= 64 && IsLeadChar(name[0]) && AllWord(name)
    ensures IsValidNameStrict(name)
  {
  }

  /** Without a final "\n", every name the strict variant accepts is also accepted by db_config.php. */
  lemma {:induction false} StrictWithinConfig(name: string)
    requires !EndsWithNewline(name)
    ensures IsValidNameStrict(name) ==> IsValidNameConfig(name)
  {
  }

  /**
   * With the final "\n" the inclusion fails: 64 letters and "\n" are 65 bytes,
   * which db_config.php's strlen test refuses but the strict pattern accepts.
   */
  lemma StrictNotWithinConfig()
    ensures exists name :: IsValidNameStrict(name) && !IsValidNameConfig(name)
  {
    var letters := seq(64, _ => 'a');
    var name := letters + "\n";
    assert name[..|name| - 1] == letters;
    assert LeadThenWords(letters);
    assert IsValidNameStrict(name) && !IsValidNameConfig(name);
  }

  /** No accepted name holds a backtick, so escaping leaves an accepted name unchanged. */
  lemma {:induction false} ValidNamesNeedNoEscaping(name: string)
    requires MatchesWordPattern(name)
    ensures '`' !in name
    ensures DoubleBackticks(name) == name
  {
    forall i | 0 <= i < |name|
      ensures name[i] != '`'
    {
      if !WordPlus(name) && i < |name| - 1 {
        assert name[..|name| - 1][i] == name[i];
      }
    }
  }
}
