/**
 * The JavaScript string operations the core relies on, over `string` (= `seq<char>`):
 * `trim`, `toLowerCase`, `startsWith`, `endsWith`, `indexOf`, `split` with a one-character
 * separator, `join`, character-for-character `replace`, and decimal formatting.
 */
module Strings {

  /** ECMAScript WhiteSpace and LineTerminator code points: what `String.prototype.trim` removes. */
  predicate IsSpace(c: char) {
    c == '\t' || c == '\n' || c == '\U{000B}' || c == '\U{000C}' || c == '\r' || c == ' ' ||
    c == '\U{00A0}' || c == '\U{1680}' || ('\U{2000}' <= c <= '\U{200A}') ||
    c == '\U{2028}' || c == '\U{2029}' || c == '\U{202F}' || c == '\U{205F}' || c == '\U{3000}' ||
    c == '\U{FEFF}'
  }

  function TrimStart(s: string): (r: string)
    ensures |r| <= |s| && r == s[|s| - |r|..]
    ensures |r| > 0 ==> !IsSpace(r[0])
    ensures forall i :: 0 <= i < |s| - |r| ==> IsSpace(s[i])
  {
    if |s| > 0 && IsSpace(s[0]) then TrimStart(s[1..]) else s
  }

  function TrimEnd(s: string): (r: string)
    ensures |r| <= |s| && r == s[..|r|]
    ensures |r| > 0 ==> !IsSpace(r[|r| - 1])
    ensures forall i :: |r| <= i < |s| ==> IsSpace(s[i])
  {
    if |s| > 0 && IsSpace(s[|s| - 1]) then TrimEnd(s[..|s| - 1]) else s
  }

  /** `s.trim()`. */
  function Trim(s: string): string {
    TrimEnd(TrimStart(s))
  }

  /** The trimmed string has no white space at either end, and is empty iff the input is all white space. */
  lemma TrimProps(s: string)
    ensures |Trim(s)| > 0 ==> !IsSpace(Trim(s)[0]) && !IsSpace(Trim(s)[|Trim(s)| - 1])
    ensures (forall i :: 0 <= i < |s| ==> IsSpace(s[i])) <==> Trim(s) == ""
  {
    var t := TrimStart(s);
    if |Trim(s)| > 0 {
      assert Trim(s)[0] == t[0];
    }
    if |t| > 0 {
      assert t[0] == s[|s| - |t|];
    }
  }

  /** Trimming twice trims nothing more. */
  lemma TrimIdempotent(s: string)
    ensures Trim(Trim(s)) == Trim(s)
  {
    var t := Trim(s);
    TrimProps(s);
    if |t| > 0 {
      assert TrimStart(t) == t;
      assert TrimEnd(t) == t;
    }
  }

  /** `toLowerCase` on the ASCII range. */
  function LowerChar(c: char): char {
    if 'A' <= c <= 'Z' then (c as int + 32) as char else c
  }

  function ToLower(s: string): (r: string)
    ensures |r| == |s|
    ensures forall i :: 0 <= i < |s| ==> r[i] == LowerChar(s[i])
  {
    if |s| == 0 then "" else [LowerChar(s[0])] + ToLower(s[1..])
  }

  predicate StartsWith(s: string, prefix: string) {
    |prefix| <= |s| && s[..|prefix|] == prefix
  }

  predicate EndsWith(s: string, suffix: string) {
    |suffix| <= |s| && s[|s| - |suffix|..] == suffix
  }

  /** `s.indexOf(c)`: the first position holding `c`, or -1. */
  function IndexOf(s: string, c: char): (r: int)
    ensures -1 <= r < |s|
    ensures r == -1 <==> c !in s
    ensures r >= 0 ==> s[r] == c && c !in s[..r]
  {
    if |s| == 0 then -1
    else if s[0] == c then 0
    else
      var k := IndexOf(s[1..], c);
      assert s[1..][..k + 1] == s[1..k + 2] || k == -1;
      if k == -1 then -1 else k + 1
  }

  /** Every occurrence of `a` replaced by `b` (`s.replace(/a/g, b)` for one-character patterns). */
  function ReplaceChar(s: string, a: char, b: char): (r: string)
    ensures |r| == |s|
    ensures forall i :: 0 <= i < |s| ==> r[i] == (if s[i] == a then b else s[i])
  {
    seq(|s|, i requires 0 <= i < |s| => if s[i] == a then b else s[i])
  }

  /** `s.replace(/<suffix>$/, '')` for a literal suffix. */
  function StripSuffix(s: string, suffix: string): (r: string)
    ensures EndsWith(s, suffix) ==> r + suffix == s
    ensures !EndsWith(s, suffix) ==> r == s
  {
    if EndsWith(s, suffix) then s[..|s| - |suffix|] else s
  }

  /** `parts.join(sep)`. */
  function Join(parts: seq<string>, sep: string): string {
    if |parts| == 0 then ""
    else if |parts| == 1 then parts[0]
    else parts[0] + sep + Join(parts[1..], sep)
  }

  /**
   * `s.split(c)` for a one-character separator: the maximal pieces between occurrences
   * of `c`; there is always at least one piece (the empty string gives `[""]`).
   */
  function Split(s: string, c: char): (r: seq<string>)
    ensures |r| >= 1
  {
    var k := IndexOf(s, c);
    if k == -1 then [s] else [s[..k]] + Split(s[k + 1..], c)
  }

  /** Splitting and joining with the same separator are inverse. */
  lemma JoinSplit(s: string, c: char)
    ensures Join(Split(s, c), [c]) == s
    ensures forall i :: 0 <= i < |Split(s, c)| ==> c !in Split(s, c)[i]
  {
    JoinSplitText(s, c);
    SplitPiecesClean(s, c);
  }

  lemma {:induction false} JoinSplitText(s: string, c: char)
    ensures Join(Split(s, c), [c]) == s
    decreases |s|
  {
    var k := IndexOf(s, c);
    if k != -1 {
      var rest := Split(s[k + 1..], c);
      assert Split(s, c) == [s[..k]] + rest;
      JoinSplitText(s[k + 1..], c);
      JoinSplitStep(s, c, k, rest);
    }
  }

  /** Rejoining the piece before the first separator with the rejoined rest gives `s` back. */
  lemma JoinSplitStep(s: string, c: char, k: nat, rest: seq<string>)
    requires k < |s| && s[k] == c
    requires |rest| >= 1 && Join(rest, [c]) == s[k + 1..]
    ensures Join([s[..k]] + rest, [c]) == s
  {
    JoinCons(s[..k], rest, [c]);
    Around(s, k);
  }

  /** A string is the part before position `k`, the character there, and the rest. */
  lemma Around(s: string, k: nat)
    requires k < |s|
    ensures s == s[..k] + [s[k]] + s[k + 1..]
  {
  }

  lemma JoinCons(head: string, rest: seq<string>, sep: string)
    requires |rest| >= 1
    ensures Join([head] + rest, sep) == head + sep + Join(rest, sep)
  {
    assert ([head] + rest)[1..] == rest;
  }

  /** No piece of a split holds the separator. */
  lemma {:induction false} SplitPiecesClean(s: string, c: char)
    ensures forall i :: 0 <= i < |Split(s, c)| ==> c !in Split(s, c)[i]
    decreases |s|
  {
    var k := IndexOf(s, c);
    if k != -1 {
      SplitPiecesClean(s[k + 1..], c);
      var rest := Split(s[k + 1..], c);
      assert Split(s, c) == [s[..k]] + rest;
    }
  }

  /** No piece of a split contains the separator, and joining the pieces back gives them again. */
  lemma {:induction false} SplitJoin(parts: seq<string>, c: char)
    requires |parts| >= 1
    requires forall i :: 0 <= i < |parts| ==> c !in parts[i]
    ensures Split(Join(parts, [c]), c) == parts
    decreases |parts|
  {
    if |parts| == 1 {
      assert Join(parts, [c]) == parts[0];
      assert c !in parts[0];
      assert Split(parts[0], c) == [parts[0]];
    } else {
      var head, rest := parts[0], parts[1..];
      assert forall i :: 0 <= i < |rest| ==> c !in rest[i] by {
        forall i | 0 <= i < |rest| ensures c !in rest[i] {
          assert rest[i] == parts[i + 1];
        }
      }
      SplitJoin(rest, c);
      var tail := Join(rest, [c]);
      var s := head + ([c] + tail);
      assert Join(parts, [c]) == s;
      SplitAtFirst(head, c, tail);
      assert [head] + rest == parts;
    }
  }

  /** Splitting `head c tail`, for a `head` free of `c`, peels off `head`. */
  lemma SplitAtFirst(head: string, c: char, tail: string)
    requires c !in head
    ensures Split(head + ([c] + tail), c) == [head] + Split(tail, c)
  {
    var s := head + ([c] + tail);
    IndexOfPrefix(head, c, [c] + tail);
    assert s[..|head|] == head;
    assert s[|head| + 1..] == tail;
  }

  lemma IndexOfPrefix(a: string, c: char, b: string)
    requires c !in a && |b| > 0 && b[0] == c
    ensures IndexOf(a + b, c) == |a|
  {
    var s := a + b;
    assert s[|a|] == c;
    assert s[..|a|] == a;
  }

  /** The decimal digits of a natural number, as `String(n)` prints it. */
  function NatToString(n: nat): (r: string)
    ensures |r| >= 1
    ensures forall i :: 0 <= i < |r| ==> '0' <= r[i] <= '9'
    decreases n
  {
    if n < 10 then [Digit(n)] else NatToString(n / 10) + [Digit(n % 10)]
  }

  function Digit(d: nat): (c: char)
    requires d < 10
    ensures '0' <= c <= '9'
  {
    ('0' as int + d) as char
  }

  /** The value of a run of decimal digits. */
  function DigitsValue(s: string): nat
    requires forall i :: 0 <= i < |s| ==> '0' <= s[i] <= '9'
  {
    if |s| == 0 then 0 else DigitsValue(s[..|s| - 1]) * 10 + (s[|s| - 1] as int - '0' as int)
  }

  /** Printing a number and reading its digits back gives the number. */
  lemma {:induction false} NatToStringValue(n: nat)
    ensures DigitsValue(NatToString(n)) == n
    decreases n
  {
    if n >= 10 {
      NatToStringValue(n / 10);
      var r := NatToString(n);
      assert r[..|r| - 1] == NatToString(n / 10);
    }
  }

  /** The length of the leading run of decimal digits. */
  function DigitRun(s: string): (k: nat)
    ensures k <= |s|
    ensures forall i :: 0 <= i < k ==> '0' <= s[i] <= '9'
    ensures k < |s| ==> !('0' <= s[k] <= '9')
  {
    if |s| > 0 && '0' <= s[0] <= '9' then 1 + DigitRun(s[1..]) else 0
  }

  /** `s.padStart(width, c)`. */
  function PadStart(s: string, width: nat, c: char): (r: string)
    ensures |r| == if |s| >= width then |s| else width
    ensures EndsWith(r, s)
    ensures forall i :: 0 <= i < |r| - |s| ==> r[i] == c
  {
    if |s| >= width then s else seq(width - |s|, _ => c) + s
  }
}
