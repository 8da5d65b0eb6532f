/**
 * The two option parsers of the command-line entry point: on/off toggles and the
 * comma-separated list of environment variable names.
 */
module Cli {
  import opened Wrappers
  import opened Seqs
  import opened Strings
  import opened JsValues

  const TrueWords: seq<string> := ["true", "1", "yes", "on"]
  const FalseWords: seq<string> := ["false", "0", "no", "off"]

  /**
   * `parseToggle(value)`: a flag given without a value is on; the words above, in any case,
   * switch it on or off; any other text is on unless it is empty.
   */
  function ParseToggle(value: Option<string>): (r: bool)
    ensures !r <==> value.Some? && (ToLower(value.value) in FalseWords || value.value == "")
  {
    if value.None? then true
    else
      var normalized := ToLower(value.value);
      if normalized in TrueWords then true
      else if normalized in FalseWords then false
      else value.value != ""
  }

  /** Every spelling of an on word switches on and every spelling of an off word switches off. */
  lemma ToggleWords(s: string)
    ensures ToLower(s) in TrueWords ==> ParseToggle(Some(s))
    ensures ToLower(s) in FalseWords ==> !ParseToggle(Some(s))
    ensures ParseToggle(None)
  {
  }

  /** A token of the list: non-empty, without surrounding white space, and free of commas. */
  predicate IsToken(t: string) {
    t != "" && Trim(t) == t && ',' !in t
  }

  function NonEmpty(t: string): bool {
    t != ""
  }

  /**
   * `parseEnvOption(value)`: no option gives no list; a value that is not a string or is
   * blank gives the empty list; otherwise the comma-separated pieces, trimmed, with the empty
   * ones dropped.
   */
  function ParseEnvOption(value: Json): (r: Option<seq<string>>)
    ensures r.None? <==> value.Undefined?
    ensures !value.Undefined? && !value.Str? ==> r == Some([])
    ensures r.Some? ==> forall i :: 0 <= i < |r.value| ==> IsToken(r.value[i])
  {
    if value.Undefined? then None
    else if !value.Str? then Some([])
    else
      var trimmed := Trim(value.s);
      if trimmed == "" then Some([]) else Some(Tokens(trimmed))
  }

  /** The comma-separated pieces of a text, trimmed, with the empty ones dropped. */
  function Tokens(s: string): (r: seq<string>)
    ensures forall i :: 0 <= i < |r| ==> IsToken(r[i])
  {
    var pieces := Split(s, ',');
    JoinSplit(s, ',');
    var tokens := Map(Trim, pieces);
    forall i | 0 <= i < |tokens| ensures Trim(tokens[i]) == tokens[i] && ',' !in tokens[i] {
      TrimIdempotent(pieces[i]);
      TrimSubstring(pieces[i]);
    }
    Filter(NonEmpty, tokens)
  }

  /** The trimmed text is a piece of the original, so it holds no character the original lacks. */
  lemma TrimSubstring(s: string)
    ensures forall c :: c in Trim(s) ==> c in s
  {
    var t := TrimStart(s);
    forall c | c in Trim(s) ensures c in s {
      var i :| 0 <= i < |Trim(s)| && Trim(s)[i] == c;
      assert t[i] == c;
      assert s[|s| - |t| + i] == c;
    }
  }

  /** A text that starts and ends with non-space characters is already trimmed. */
  lemma TrimmedEnds(s: string)
    requires |s| > 0 && !IsSpace(s[0]) && !IsSpace(s[|s| - 1])
    ensures Trim(s) == s
  {
  }

  lemma {:induction false} JoinEnds(parts: seq<string>, sep: string)
    requires |parts| >= 1 && forall i :: 0 <= i < |parts| ==> |parts[i]| > 0
    ensures (var j := Join(parts, sep);
             |j| > 0 && j[0] == parts[0][0] && j[|j| - 1] == parts[|parts| - 1][|parts[|parts| - 1]| - 1])
    decreases |parts|
  {
    if |parts| > 1 {
      JoinEnds(parts[1..], sep);
    }
  }

  /** Joining tokens with commas and parsing the text back gives the tokens. */
  lemma ParseJoined(names: seq<string>)
    requires |names| >= 1
    requires forall i :: 0 <= i < |names| ==> IsToken(names[i])
    ensures ParseEnvOption(Str(Join(names, ","))) == Some(names)
  {
    JoinedIsTrimmed(names);
    TokensOfJoined(names);
  }

  lemma JoinedIsTrimmed(names: seq<string>)
    requires |names| >= 1
    requires forall i :: 0 <= i < |names| ==> IsToken(names[i])
    ensures Trim(Join(names, ",")) == Join(names, ",") != ""
  {
    TrimProps(names[0]);
    TrimProps(names[|names| - 1]);
    JoinEnds(names, ",");
    TrimmedEnds(Join(names, ","));
  }

  lemma TokensOfJoined(names: seq<string>)
    requires |names| >= 1
    requires forall i :: 0 <= i < |names| ==> IsToken(names[i])
    ensures Tokens(Join(names, ",")) == names
  {
    SplitJoin(names, ',');
    assert Map(Trim, names) == names;
    FilterAll(NonEmpty, names);
  }
}
