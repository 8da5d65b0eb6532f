/**
 * The lexical scanner behind the analyzer's `_findDependencies`: the global pattern
 * `require\s*\(\s*['"]([\w\.\/-]+)['"]\s*\)` run over a file's text.
 *
 * The pattern never needs backtracking: `\s*` and `[\w./-]+` are each followed by a
 * character they cannot contain, so a match at a position is decided by one left-to-right
 * pass (MatchAt). The global search tries positions in order and restarts at the end of
 * each match (ScanFrom). The opening and closing quotes need not be the same character.
 */
module RequireScan {
  import opened Wrappers
  import opened Strings

  /** `[\w./-]`: ASCII letters, digits, `_`, `.`, `/` and `-`. */
  predicate IsIdChar(c: char) {
    ('a' <= c <= 'z') || ('A' <= c <= 'Z') || ('0' <= c <= '9') || c == '_' || c == '.' || c == '/' || c == '-'
  }

  predicate IsQuote(c: char) {
    c == '\'' || c == '"'
  }

  /** A non-empty run of identifier characters: what one `require` captures. */
  predicate IsRequireId(s: string) {
    |s| > 0 && forall i :: 0 <= i < |s| ==> IsIdChar(s[i])
  }

  /** The end of the run of `\s` characters starting at `i`. */
  function SkipSpaces(s: string, i: nat): (r: nat)
    requires i <= |s|
    ensures i <= r <= |s|
    ensures forall k :: i <= k < r ==> IsSpace(s[k])
    ensures r < |s| ==> !IsSpace(s[r])
    decreases |s| - i
  {
    if i < |s| && IsSpace(s[i]) then SkipSpaces(s, i + 1) else i
  }

  /** The end of the run of identifier characters starting at `i`. */
  function SkipIdChars(s: string, i: nat): (r: nat)
    requires i <= |s|
    ensures i <= r <= |s|
    ensures forall k :: i <= k < r ==> IsIdChar(s[k])
    ensures r < |s| ==> !IsIdChar(s[r])
    decreases |s| - i
  {
    if i < |s| && IsIdChar(s[i]) then SkipIdChars(s, i + 1) else i
  }

  /** A match: the captured id and the position just after the closing parenthesis. */
  datatype Match = Match(id: string, end: nat)

  /** The match of the pattern that starts exactly at `i`, if any. */
  function MatchAt(s: string, i: nat): (r: Option<Match>)
    requires i <= |s|
    ensures r.Some? ==> i < r.value.end <= |s| && IsRequireId(r.value.id)
    ensures r.Some? ==> i + 7 <= |s| && s[i..i + 7] == "require"
  {
    if !(i + 7 <= |s| && s[i..i + 7] == "require") then None
    else
      var open := SkipSpaces(s, i + 7);
      if open >= |s| || s[open] != '(' then None
      else
        var quote := SkipSpaces(s, open + 1);
        if quote >= |s| || !IsQuote(s[quote]) then None
        else
          var idEnd := SkipIdChars(s, quote + 1);
          if idEnd == quote + 1 || idEnd >= |s| || !IsQuote(s[idEnd]) then None
          else
            var close := SkipSpaces(s, idEnd + 1);
            if close >= |s| || s[close] != ')' then None
            else Some(Match(s[quote + 1..idEnd], close + 1))
  }

  /** The ids the global search finds from position `i` on, in source order. */
  function ScanFrom(s: string, i: nat): (r: seq<string>)
    requires i <= |s|
    ensures forall k :: 0 <= k < |r| ==> IsRequireId(r[k])
    decreases |s| - i
  {
    if i == |s| then []
    else
      match MatchAt(s, i)
      case Some(m) => [m.id] + ScanFrom(s, m.end)
      case None => ScanFrom(s, i + 1)
  }

  /** Every id `require(...)` yields in a file's text, duplicates kept. */
  function RequireIds(content: string): seq<string> {
    ScanFrom(content, 0)
  }

  /**
   * The search is leftmost: when the first match at or after `i` starts at `j`, the scan
   * from `i` reports that match's id first and then resumes at its end.
   */
  lemma {:induction false} ScanLeftmost(s: string, i: nat, j: nat)
    requires i <= j < |s| && MatchAt(s, j).Some?
    requires forall k :: i <= k < j ==> MatchAt(s, k).None?
    ensures ScanFrom(s, i) == [MatchAt(s, j).value.id] + ScanFrom(s, MatchAt(s, j).value.end)
    decreases j - i
  {
    if i < j {
      ScanLeftmost(s, i + 1, j);
    }
  }

  /** A text in which no position starts a match yields no ids. */
  lemma {:induction false} ScanNone(s: string, i: nat)
    requires i <= |s|
    requires forall k :: i <= k < |s| ==> MatchAt(s, k).None?
    ensures ScanFrom(s, i) == []
    decreases |s| - i
  {
    if i < |s| {
      ScanNone(s, i + 1);
    }
  }

  /** `require('x')` alone, for a well-formed id x, is found. */
  lemma SingleRequire(id: string)
    requires IsRequireId(id)
    ensures RequireIds("require('" + id + "')") == [id]
  {
    var s := "require('" + id + "')";
    assert s[..7] == "require";
    assert s[7] == '(';
    assert s[8] == '\'';
    assert s[9..9 + |id|] == id;
    assert IsQuote(s[9 + |id|]);
    var idEnd := SkipIdChars(s, 9);
    SkipIdCharsRun(s, 9, 9 + |id|);
    assert SkipSpaces(s, 7) == 7;
    assert SkipSpaces(s, 8) == 8;
    assert SkipSpaces(s, 10 + |id|) == 10 + |id|;
    assert s[9 + |id| + 1] == ')';
    assert MatchAt(s, 0) == Some(Match(id, |s|));
    assert ScanFrom(s, |s|) == [];
  }

  lemma {:induction false} SkipIdCharsRun(s: string, i: nat, j: nat)
    requires i <= j < |s|
    requires forall k :: i <= k < j ==> IsIdChar(s[k])
    requires !IsIdChar(s[j])
    ensures SkipIdChars(s, i) == j
    decreases j - i
  {
    if i < j {
      SkipIdCharsRun(s, i + 1, j);
    }
  }
}
