/**
 * The DDL/DML classification of SQL text (`ddlStatement`, nuodb.go:64-68).
 * Text is DML when, after optional leading white space, it starts with one of
 * seven keywords in any case followed by at least one white-space character;
 * everything else is DDL.
 */
module SqlText {

  /** `\s` in Go's regular expressions: tab, newline, form feed, carriage return, space. */
  predicate IsSpace(c: char)
  {
    c == '\t' || c == '\n' || c == '\U{000C}' || c == '\r' || c == ' '
  }

  /** The keywords of `dmlStatementRegexp`, in upper case. */
  const Keywords: seq<string> :=
    ["DELETE", "EXPLAIN", "INSERT", "REPLACE", "SELECT", "TRUNCATE", "UPDATE"]

  /**
   * `c` matches `k` under Go's `(?i)` simple case folding: the letter itself,
   * its ASCII lower case, and the two non-ASCII members of a fold orbit
   * (LATIN SMALL LETTER LONG S for S, KELVIN SIGN for K).
   */
  predicate FoldsTo(c: char, k: char)
  {
    || c == k
    || ('A' <= k <= 'Z' && c as int == k as int + 32)
    || (k == 'S' && c == '\U{017F}')
    || (k == 'K' && c == '\U{212A}')
  }

  /** `t` spells `kw` letter for letter, ignoring case. */
  predicate SpellsKeyword(t: string, kw: string)
  {
    |t| == |kw| && forall j :: 0 <= j < |kw| ==> FoldsTo(t[j], kw[j])
  }

  predicate AllSpace(s: string)
  {
    forall j :: 0 <= j < |s| ==> IsSpace(s[j])
  }

  /**
   * The reference reading of `^\s*(?i:DELETE|...|UPDATE)\s+`: some all-space
   * prefix, then a keyword, then a white-space character.
   */
  ghost predicate RegexMatches(s: string)
  {
    exists k :: 0 <= k < |Keywords| &&
      exists i :: 0 <= i && i + |Keywords[k]| < |s| &&
        AllSpace(s[..i]) &&
        SpellsKeyword(s[i..i + |Keywords[k]|], Keywords[k]) &&
        IsSpace(s[i + |Keywords[k]|])
  }

  /** The number of white-space characters `s` starts with. */
  function LeadingSpaces(s: string): (n: nat)
    ensures n <= |s|
    ensures forall j :: 0 <= j < n ==> IsSpace(s[j])
    ensures n < |s| ==> !IsSpace(s[n])
  {
    if |s| > 0 && IsSpace(s[0]) then 1 + LeadingSpaces(s[1..]) else 0
  }

  /** `t` starts with `kw` in any case and a white-space character follows it. */
  predicate StartsWithKeyword(t: string, kw: string)
  {
    |kw| < |t| && SpellsKeyword(t[..|kw|], kw) && IsSpace(t[|kw|])
  }

  /** The text is DML: skip the leading white space, then look for a keyword. */
  predicate IsDml(s: string)
    ensures IsDml(s) ==> LeadingSpaces(s) + 7 <= |s|
  {
    var t := s[LeadingSpaces(s)..];
    exists k :: 0 <= k < |Keywords| && StartsWithKeyword(t, Keywords[k])
  }

  /** `ddlStatement` */
  predicate IsDdl(s: string)
    ensures IsDdl(s) <==> !RegexMatches(s)
  {
    IsDmlIffRegexMatches(s);
    !IsDml(s)
  }

  /** Every keyword starts with an upper-case ASCII letter. */
  lemma KeywordsStartWithLetters(k: int)
    requires 0 <= k < |Keywords|
    ensures |Keywords[k]| > 0 && 'A' <= Keywords[k][0] <= 'Z'
  {
    if k == 0 { assert Keywords[k] == "DELETE"; }
    else if k == 1 { assert Keywords[k] == "EXPLAIN"; }
    else if k == 2 { assert Keywords[k] == "INSERT"; }
    else if k == 3 { assert Keywords[k] == "REPLACE"; }
    else if k == 4 { assert Keywords[k] == "SELECT"; }
    else if k == 5 { assert Keywords[k] == "TRUNCATE"; }
    else { assert Keywords[k] == "UPDATE"; }
  }

  lemma {:induction false} DmlMatchesRegex(s: string)
    requires IsDml(s)
    ensures RegexMatches(s)
  {
    var n := LeadingSpaces(s);
    var k :| 0 <= k < |Keywords| && StartsWithKeyword(s[n..], Keywords[k]);
    var kw := Keywords[k];
    assert s[n..][..|kw|] == s[n..n + |kw|];
    assert s[n..][|kw|] == s[n + |kw|];
    assert AllSpace(s[..n]);
  }

  lemma {:induction false} RegexMatchIsDml(s: string, k: int, i: int)
    requires 0 <= k < |Keywords|
    requires 0 <= i && i + |Keywords[k]| < |s|
    requires AllSpace(s[..i])
    requires SpellsKeyword(s[i..i + |Keywords[k]|], Keywords[k])
    requires IsSpace(s[i + |Keywords[k]|])
    ensures IsDml(s)
  {
    var n := LeadingSpaces(s);
    var kw := Keywords[k];
    KeywordsStartWithLetters(k);
    assert FoldsTo(s[i..i + |kw|][0], kw[0]);
    assert !IsSpace(s[i]);
    assert i == n;
    assert s[n..][..|kw|] == s[i..i + |kw|];
    assert s[n..][|kw|] == s[i + |kw|];
    assert StartsWithKeyword(s[n..], kw);
  }

  /** The keyword scan agrees with the regular expression on every text. */
  lemma IsDmlIffRegexMatches(s: string)
    ensures IsDml(s) <==> RegexMatches(s)
  {
    if IsDml(s) {
      DmlMatchesRegex(s);
    }
    if RegexMatches(s) {
      var k :| 0 <= k < |Keywords| &&
        exists i :: 0 <= i && i + |Keywords[k]| < |s| &&
          AllSpace(s[..i]) &&
          SpellsKeyword(s[i..i + |Keywords[k]|], Keywords[k]) &&
          IsSpace(s[i + |Keywords[k]|]);
      var i :| 0 <= i && i + |Keywords[k]| < |s| &&
        AllSpace(s[..i]) &&
        SpellsKeyword(s[i..i + |Keywords[k]|], Keywords[k]) &&
        IsSpace(s[i + |Keywords[k]|]);
      RegexMatchIsDml(s, k, i);
    }
  }

  /** A keyword needs white space after it: bare "SELECT" and "SELECT*" count as DDL. */
  lemma KeywordAloneIsDdl()
    ensures IsDdl("SELECT")
    ensures IsDdl("SELECT*")
  {
    forall k | 0 <= k < |Keywords| ensures !StartsWithKeyword("SELECT*", Keywords[k]) {
      var t: string := "SELECT*";
      if |Keywords[k]| < |t| {
        assert !SpellsKeyword(t[..|Keywords[k]|], Keywords[k]) || !IsSpace(t[|Keywords[k]|]);
      }
    }
  }

  /** Leading white space is skipped and case is ignored. */
  lemma LeadingSpaceAndCaseIgnored()
    ensures IsDml(" \tselect * from t")
  {
    var s: string := " \tselect * from t";
    assert LeadingSpaces(s[2..]) == 0;
    assert LeadingSpaces(s[1..]) == 1 by { assert s[1..][1..] == s[2..]; }
    assert LeadingSpaces(s) == 2 by { assert s[1..] == s[1..]; }
    assert Keywords[4] == "SELECT";
    assert StartsWithKeyword(s[2..], Keywords[4]);
  }

  /** The query of a prepared SELECT is DML. */
  lemma SelectIsDml()
    ensures IsDml("SELECT * FROM t WHERE id = ?")
  {
    var s: string := "SELECT * FROM t WHERE id = ?";
    assert LeadingSpaces(s) == 0;
    assert Keywords[4] == "SELECT";
    assert StartsWithKeyword(s, Keywords[4]);
  }

  /** CREATE starts with none of the keywords, so the statement is DDL. */
  lemma CreateTableIsDdl()
    ensures IsDdl("CREATE TABLE t (id INT)")
  {
    var s: string := "CREATE TABLE t (id INT)";
    assert LeadingSpaces(s) == 0;
    forall k | 0 <= k < |Keywords| ensures !StartsWithKeyword(s, Keywords[k]) {
      KeywordsStartWithLetters(k);
      assert Keywords[k][0] != 'C' by {
        if k == 0 { assert Keywords[k] == "DELETE"; }
        else if k == 1 { assert Keywords[k] == "EXPLAIN"; }
        else if k == 2 { assert Keywords[k] == "INSERT"; }
        else if k == 3 { assert Keywords[k] == "REPLACE"; }
        else if k == 4 { assert Keywords[k] == "SELECT"; }
        else if k == 5 { assert Keywords[k] == "TRUNCATE"; }
        else { assert Keywords[k] == "UPDATE"; }
      }
      assert !FoldsTo(s[0], Keywords[k][0]);
    }
  }
}
