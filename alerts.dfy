/** The warnings, missing-modules and errors sections of the text report. */
module Alerts {
  import opened Wrappers
  import opened Strings
  import opened Seqs
  import opened ReportText
  import Pipeline

  /**
   * A warning or error as the report receives it: nothing, a string, an object whose
   * `message` is a string (an `Error` among them), or any other value, which the host
   * converts with `String(value)`; `shown` is that conversion.
   */
  datatype Reported = Absent | Text(text: string) | WithMessage(message: string) | Other(shown: string)

  /** `normalizeMessage(value)`. */
  function NormalizeMessage(value: Reported): string {
    match value
    case Absent => ""
    case Text(s) => s
    case WithMessage(m) => m
    case Other(shown) => shown
  }

  /** `(list || [])`. */
  function OrEmpty<T>(list: Option<seq<T>>): (r: seq<T>)
    ensures list.None? ==> r == []
  {
    list.GetOr([])
  }

  /** `getWarningsData(warnings)`: one message per warning, in order. */
  function GetWarningsData(warnings: Option<seq<Reported>>): (r: seq<string>)
    ensures |r| == |OrEmpty(warnings)|
    ensures forall i :: 0 <= i < |r| ==> r[i] == NormalizeMessage(OrEmpty(warnings)[i])
  {
    Map(NormalizeMessage, OrEmpty(warnings))
  }

  /**
   * Warnings given as plain strings are listed as those strings, and errors given as
   * `Error`s with distinct messages are listed as those messages, each once, in order.
   */
  lemma {:induction false} PlainAlertsPassThrough(texts: seq<string>)
    ensures GetWarningsData(Some(seq(|texts|, i requires 0 <= i < |texts| => Text(texts[i])))) == texts
    ensures Distinct(texts) ==>
      Dedup(Map(NormalizeMessage, seq(|texts|, i requires 0 <= i < |texts| => WithMessage(texts[i])))) == texts
  {
    var warnings := seq(|texts|, i requires 0 <= i < |texts| => Text(texts[i]));
    assert GetWarningsData(Some(warnings)) == texts;
    var errors := seq(|texts|, i requires 0 <= i < |texts| => WithMessage(texts[i]));
    assert Map(NormalizeMessage, errors) == texts;
    if Distinct(texts) {
      assert [] + texts == texts;
      DedupOntoDistinct([], texts);
    }
  }

  datatype Severity = ErrorSeverity | WarnSeverity

  /** One missing module as the missing section shows it. */
  datatype MissingAlert = MissingAlert(
    severity: Severity,
    message: string,
    prefix: string,
    requireId: string,
    requiredBy: Option<string>,
    fatal: bool,
    moduleName: Option<string>,
    isExternal: bool,
    overrideApplied: bool)

  /** `''` counts as absent, as `x || null` treats it. */
  function Truthy(s: Option<string>): Option<string> {
    if s.Some? && s.value != "" then s else None
  }

  /** The alert for one missing entry. */
  function MissingAlertOf(item: Pipeline.MissingReport): (r: MissingAlert)
    ensures r.severity == ErrorSeverity <==> item.fatal
    ensures r.requireId == (if item.requireId != "" then item.requireId else "unknown")
    ensures r.requiredBy == Truthy(item.requiredBy)
    ensures r.requiredBy.None? ==> r.prefix == r.requireId
    ensures r.requiredBy.Some? ==>
      StartsWith(r.prefix, r.requiredBy.value + " -> ") && EndsWith(r.prefix, r.requireId) &&
      |r.prefix| == |r.requiredBy.value| + 4 + |r.requireId|
    ensures r.message == item.message
    ensures r.moduleName == Truthy(Some(item.moduleName))
  {
    var requireId := if item.requireId != "" then item.requireId else "unknown";
    var requiredBy := Truthy(item.requiredBy);
    MissingAlert(
      if item.fatal then ErrorSeverity else WarnSeverity,
      NormalizeMessage(Text(item.message)),
      if requiredBy.Some? then requiredBy.value + " -> " + requireId else requireId,
      requireId,
      requiredBy,
      item.fatal,
      Truthy(Some(item.moduleName)),
      item.isExternal,
      item.overrideApplied)
  }

  /** `getMissingData(missing)`: one alert per missing entry, in order. */
  function GetMissingData(missing: Option<seq<Pipeline.MissingReport>>): (r: seq<MissingAlert>)
    ensures |r| == |OrEmpty(missing)|
    ensures forall i :: 0 <= i < |r| ==> r[i] == MissingAlertOf(OrEmpty(missing)[i])
  {
    Map(MissingAlertOf, OrEmpty(missing))
  }

  /** `getErrorsData(errors)`: the loop that pushes each message not seen before. */
  method GetErrorsData(errors: Option<seq<Reported>>) returns (results: seq<string>)
    ensures results == Dedup(Map(NormalizeMessage, OrEmpty(errors)))
    ensures Distinct(results)
    ensures forall m :: m in results <==> exists i :: 0 <= i < |OrEmpty(errors)| && NormalizeMessage(OrEmpty(errors)[i]) == m
  {
    var list := OrEmpty(errors);
    var seen: set<string> := {};
    results := [];
    for i := 0 to |list|
      invariant results == Dedup(Map(NormalizeMessage, list[..i]))
      invariant forall m :: m in seen <==> m in results
    {
      var message := NormalizeMessage(list[i]);
      assert list[..i + 1] == list[..i] + [list[i]];
      MapSnoc(NormalizeMessage, list[..i], list[i]);
      DedupSnoc(Map(NormalizeMessage, list[..i]), message);
      DedupProps(Map(NormalizeMessage, list[..i]));
      if message in seen {
        continue;
      }
      seen := seen + {message};
      results := results + [message];
    }
    assert list[..|list|] == list;
    DedupProps(Map(NormalizeMessage, list));
    ghost var all := Map(NormalizeMessage, list);
    assert forall m :: m in all <==> exists i :: 0 <= i < |list| && NormalizeMessage(list[i]) == m by {
      forall m | m in all ensures exists i :: 0 <= i < |list| && NormalizeMessage(list[i]) == m {
        var k :| 0 <= k < |all| && all[k] == m;
        assert NormalizeMessage(list[k]) == m;
      }
    }
  }

  /** A bullet line: `<bullet> <message>`, the message in its own colour. */
  function BulletLine(bullet: Style, style: Style, message: string): (r: Line)
    ensures |r| == 3 && r[0].style == Some(bullet) && r[2] == Span(Some(style), message)
    ensures TextOf(r) == "- " + message
  {
    var r := Styled(bullet, "-") + Plain(" ") + Styled(style, message);
    assert r[..2][..1] == r[..1] && r[..1][..0] == [];
    assert TextOf(r[..1]) == "-";
    assert TextOf(r[..2]) == "- ";
    r
  }

  /** `buildWarningsSection(warnings, palette)`. */
  method BuildWarningsSection(warnings: Option<seq<Reported>>) returns (lines: seq<Line>)
    ensures GetWarningsData(warnings) == [] ==> lines == []
    ensures GetWarningsData(warnings) != [] ==>
      && |lines| == 2 + |GetWarningsData(warnings)|
      && lines[0] == Styled(WarningHeader, "Warnings") && lines[1] == Styled(Warning, "--------")
      && forall i :: 0 <= i < |GetWarningsData(warnings)| ==>
        lines[2 + i] == BulletLine(Warning, Warning, GetWarningsData(warnings)[i])
  {
    var warningData := GetWarningsData(warnings);
    if |warningData| == 0 {
      return [];
    }
    lines := [Styled(WarningHeader, "Warnings"), Styled(Warning, "--------")];
    for i := 0 to |warningData|
      invariant |lines| == 2 + i
      invariant lines[0] == Styled(WarningHeader, "Warnings") && lines[1] == Styled(Warning, "--------")
      invariant forall k :: 0 <= k < i ==> lines[2 + k] == BulletLine(Warning, Warning, warningData[k])
    {
      lines := lines + [BulletLine(Warning, Warning, warningData[i])];
    }
  }

  /** The text of a missing line: the prefix, then whether the missing module is ignored. */
  function MissingText(item: MissingAlert, ignoreMissing: bool): string {
    if ignoreMissing then item.prefix + ": Module not found ignored." else item.prefix + ": Module not found."
  }

  /** The heading colour of the missing section: muted when missing modules are ignored. */
  function MissingHeading(ignoreMissing: bool): Style {
    if ignoreMissing then Muted else Warning
  }

  /** One missing line: a fatal entry is shown as an error unless missing modules are ignored. */
  function MissingLine(item: MissingAlert, ignoreMissing: bool): (r: Line)
    ensures TextOf(r) == "- " + MissingText(item, ignoreMissing)
    ensures |r| == 3
    ensures r[2].style == Some(if item.fatal && !ignoreMissing then Error else MissingHeading(ignoreMissing))
    ensures r[0].style == Some(if ignoreMissing then Muted else Error)
  {
    BulletLine(if ignoreMissing then Muted else Error,
      if item.fatal && !ignoreMissing then Error else MissingHeading(ignoreMissing),
      MissingText(item, ignoreMissing))
  }

  /** The two endings are told apart by the ignore flag alone. */
  lemma MissingTextEnding(item: MissingAlert, ignoreMissing: bool)
    ensures EndsWith(MissingText(item, ignoreMissing), if ignoreMissing then "Module not found ignored." else "Module not found.")
    ensures StartsWith(MissingText(item, ignoreMissing), item.prefix + ": ")
  {
    var t := MissingText(item, ignoreMissing);
    assert t[..|item.prefix| + 2] == item.prefix + ": ";
  }

  /** `buildMissingSection(missing, {palette, ignoreMissing})`. */
  method BuildMissingSection(missing: Option<seq<Pipeline.MissingReport>>, ignoreMissing: bool) returns (lines: seq<Line>)
    ensures GetMissingData(missing) == [] ==> lines == []
    ensures GetMissingData(missing) != [] ==>
      && |lines| == 2 + |GetMissingData(missing)|
      && lines[0] == Styled(MissingHeading(ignoreMissing), "Missing Modules")
      && lines[1] == Styled(MissingHeading(ignoreMissing), "---------------")
      && forall i :: 0 <= i < |GetMissingData(missing)| ==>
        lines[2 + i] == MissingLine(GetMissingData(missing)[i], ignoreMissing)
  {
    var missingData := GetMissingData(missing);
    if |missingData| == 0 {
      return [];
    }
    var headingColor := MissingHeading(ignoreMissing);
    lines := [Styled(headingColor, "Missing Modules"), Styled(headingColor, "---------------")];
    for i := 0 to |missingData|
      invariant |lines| == 2 + i
      invariant lines[0] == Styled(headingColor, "Missing Modules") && lines[1] == Styled(headingColor, "---------------")
      invariant forall k :: 0 <= k < i ==> lines[2 + k] == MissingLine(missingData[k], ignoreMissing)
    {
      lines := lines + [MissingLine(missingData[i], ignoreMissing)];
    }
  }

  /** `buildErrorsSection(errors, palette)`: one line per distinct message. */
  method BuildErrorsSection(errors: Option<seq<Reported>>) returns (lines: seq<Line>)
    ensures Dedup(Map(NormalizeMessage, OrEmpty(errors))) == [] ==> lines == []
    ensures Dedup(Map(NormalizeMessage, OrEmpty(errors))) != [] ==>
      && |lines| == 2 + |Dedup(Map(NormalizeMessage, OrEmpty(errors)))|
      && lines[0] == Styled(ErrorHeader, "Errors") && lines[1] == Styled(Error, "------")
      && forall i :: 0 <= i < |Dedup(Map(NormalizeMessage, OrEmpty(errors)))| ==>
        lines[2 + i] == BulletLine(Error, Error, Dedup(Map(NormalizeMessage, OrEmpty(errors)))[i])
  {
    var errorsData := GetErrorsData(errors);
    if |errorsData| == 0 {
      return [];
    }
    lines := [Styled(ErrorHeader, "Errors"), Styled(Error, "------")];
    for i := 0 to |errorsData|
      invariant |lines| == 2 + i
      invariant lines[0] == Styled(ErrorHeader, "Errors") && lines[1] == Styled(Error, "------")
      invariant forall k :: 0 <= k < i ==> lines[2 + k] == BulletLine(Error, Error, errorsData[k])
    {
      lines := lines + [BulletLine(Error, Error, errorsData[i])];
    }
  }

  /** No error is listed twice: the item lines of the errors section are pairwise different. */
  lemma ErrorLinesDistinct(errors: Option<seq<Reported>>, i: nat, j: nat)
    requires i < j < |Dedup(Map(NormalizeMessage, OrEmpty(errors)))|
    ensures var d := Dedup(Map(NormalizeMessage, OrEmpty(errors)));
      BulletLine(Error, Error, d[i]) != BulletLine(Error, Error, d[j])
  {
    var d := Dedup(Map(NormalizeMessage, OrEmpty(errors)));
    DedupProps(Map(NormalizeMessage, OrEmpty(errors)));
    assert BulletLine(Error, Error, d[i])[2].text == d[i];
  }
}
