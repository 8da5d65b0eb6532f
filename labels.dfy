/** The tags shown after a module's name in the report, and the palette entry its label gets. */
module Labels {
  import opened Wrappers
  import opened Strings
  import opened Records
  import opened ReportText

  /** Where a tag may appear in a tag list: `external`, then `override`, then `skipped`. */
  function TagRank(tag: string): nat {
    if tag == "external" then 0 else if tag == "override" then 1 else 2
  }

  /**
   * `collectModuleTags(moduleRecord)`: `external` for an external module, `override` when an
   * override was applied, and `skipped` for a module inside the source root whose requires
   * were not followed; no tags for no record.
   */
  function CollectModuleTags(moduleRecord: Option<ModuleRecord>): (r: seq<string>)
    ensures moduleRecord.None? ==> r == []
    ensures moduleRecord.Some? ==>
      && ("external" in r <==> moduleRecord.value.isExternal)
      && ("override" in r <==> moduleRecord.value.overrideApplied)
      && ("skipped" in r <==> !moduleRecord.value.analyzeDependencies && !moduleRecord.value.isExternal)
    ensures forall i :: 0 <= i < |r| ==> r[i] in ["external", "override", "skipped"]
    ensures forall i, j :: 0 <= i < j < |r| ==> TagRank(r[i]) < TagRank(r[j])
  {
    if moduleRecord.None? then []
    else
      var m := moduleRecord.value;
      (if m.isExternal then ["external"] else []) +
      (if m.overrideApplied then ["override"] else []) +
      (if !m.analyzeDependencies && !m.isExternal then ["skipped"] else [])
  }

  /** An external module is never tagged `skipped`, whatever its recursion setting. */
  lemma ExternalNeverSkipped(m: ModuleRecord)
    requires m.isExternal
    ensures CollectModuleTags(Some(m))[0] == "external"
    ensures "skipped" !in CollectModuleTags(Some(m))
  {
  }

  /** The options of `formatModuleLabel`, with its defaults filled in by the caller. */
  datatype LabelOptions = LabelOptions(
    name: string,
    tags: seq<string>,
    ignoreMissing: bool,
    isFolder: bool,
    isEntry: bool,
    displayTags: bool)

  /** The defaults: no tags, missing modules not ignored, a module, not the entry, tags shown. */
  function DefaultLabel(name: string): LabelOptions {
    LabelOptions(name, [], false, false, false, true)
  }

  /** The palette entry for a label: entry, folder, skipped, missing, external, override, module, first match wins. */
  function LabelStyle(o: LabelOptions): Style {
    if o.isEntry then Entry
    else if o.isFolder then Folder
    else if "skipped" in o.tags then Muted
    else if "missing" in o.tags then (if o.ignoreMissing then Muted else Error)
    else if "external" in o.tags then External
    else if "override" in o.tags then Override
    else Module
  }

  /** The label text: the name, then ` (t1, t2, …)` when tags are shown and there are some. */
  function LabelText(o: LabelOptions): string {
    o.name + (if o.displayTags && |o.tags| > 0 then " (" + Join(o.tags, ", ") + ")" else "")
  }

  /** `formatModuleLabel(options)`: the label text in its palette entry. */
  function FormatModuleLabel(o: LabelOptions): (r: Line)
    ensures |r| == 1 && r[0].style == Some(LabelStyle(o))
    ensures StartsWith(r[0].text, o.name)
    ensures r[0].text == o.name <==> !(o.displayTags && |o.tags| > 0)
  {
    Styled(LabelStyle(o), LabelText(o))
  }

  /**
   * The style priority: the entry and folders win over any tag; a missing module is
   * shown as an error unless missing modules are ignored, even when it is also external;
   * `override` shows only when nothing stronger applies.
   */
  lemma StylePriority(o: LabelOptions)
    ensures o.isEntry ==> LabelStyle(o) == Entry
    ensures !o.isEntry && o.isFolder ==> LabelStyle(o) == Folder
    ensures !o.isEntry && !o.isFolder && "skipped" !in o.tags && "missing" in o.tags ==>
      LabelStyle(o) == (if o.ignoreMissing then Muted else Error)
    ensures LabelStyle(o) == Override <==>
      !o.isEntry && !o.isFolder && "override" in o.tags &&
      "skipped" !in o.tags && "missing" !in o.tags && "external" !in o.tags
    ensures LabelStyle(o) == Module <==>
      !o.isEntry && !o.isFolder && "override" !in o.tags &&
      "skipped" !in o.tags && "missing" !in o.tags && "external" !in o.tags
  {
  }

  /** A module's own tags decide its style: an external override shows as external. */
  lemma ModuleLabelStyle(m: ModuleRecord, ignoreMissing: bool)
    requires m.isExternal && m.overrideApplied
    ensures LabelStyle(LabelOptions(m.moduleName, CollectModuleTags(Some(m)), ignoreMissing, false, false, true)) == External
    ensures LabelText(LabelOptions(m.moduleName, CollectModuleTags(Some(m)), ignoreMissing, false, false, true)) ==
      m.moduleName + " (external, override)"
  {
    var o := LabelOptions(m.moduleName, CollectModuleTags(Some(m)), ignoreMissing, false, false, true);
    assert o.tags == ["external", "override"];
    assert "skipped" !in o.tags && "missing" !in o.tags by {
      assert |"skipped"| == |"missing"| == 7 && |"external"| == |"override"| == 8;
    }
    assert LabelStyle(o) == External;
    JoinPair("external", "override", ", ");
    OverrideSuffix();
  }

  lemma OverrideSuffix()
    ensures " (" + ("external" + ", " + "override") + ")" == " (external, override)"
  {
  }

  lemma JoinPair(a: string, b: string, sep: string)
    ensures Join([a, b], sep) == a + sep + b
  {
    assert [a, b][1..] == [b];
  }
}
