/** The dependency-tree and topological-order sections of the text report. */
module ReportSections {
  import opened Wrappers
  import opened Strings
  import opened Seqs
  import opened ReportText

  /** Every block, with a blank line between consecutive blocks and none after the last. */
  function JoinBlocks(blocks: seq<seq<Line>>): seq<Line>
    decreases |blocks|
  {
    if |blocks| == 0 then []
    else if |blocks| == 1 then blocks[0]
    else JoinBlocks(blocks[..|blocks| - 1]) + [BlankLine] + blocks[|blocks| - 1]
  }

  /** Where block `i` starts: the lines of the blocks before it, and one separator after each. */
  function BlockStart(blocks: seq<seq<Line>>, i: nat): nat
    requires i <= |blocks|
  {
    SumLengths(blocks[..i]) + i
  }

  /** k blocks take their own lines plus k - 1 separators. */
  lemma {:induction false} JoinBlocksLength(blocks: seq<seq<Line>>)
    requires |blocks| >= 1
    ensures |JoinBlocks(blocks)| == SumLengths(blocks) + |blocks| - 1
    decreases |blocks|
  {
    if |blocks| == 1 {
      assert blocks[..0] == [];
    } else {
      JoinBlocksLength(blocks[..|blocks| - 1]);
    }
  }

  /**
   * Block `i` appears whole, starting at BlockStart, and is followed by a blank line unless
   * it is the last block.
   */
  lemma {:induction false} JoinBlocksSlice(blocks: seq<seq<Line>>, i: nat)
    requires i < |blocks|
    ensures BlockStart(blocks, i) + |blocks[i]| <= |JoinBlocks(blocks)|
    ensures JoinBlocks(blocks)[BlockStart(blocks, i)..BlockStart(blocks, i) + |blocks[i]|] == blocks[i]
    ensures i < |blocks| - 1 ==>
      BlockStart(blocks, i) + |blocks[i]| < |JoinBlocks(blocks)| &&
      JoinBlocks(blocks)[BlockStart(blocks, i) + |blocks[i]|] == BlankLine
    decreases |blocks|
  {
    var n := |blocks|;
    if n == 1 {
      assert blocks[..0] == [];
    } else {
      var front := blocks[..n - 1];
      var joined := JoinBlocks(front);
      JoinBlocksLength(front);
      assert JoinBlocks(blocks) == joined + [BlankLine] + blocks[n - 1];
      if i == n - 1 {
        assert blocks[..i] == front;
      } else {
        JoinBlocksSlice(front, i);
        assert front[..i] == blocks[..i];
        assert front[i] == blocks[i];
        if i == n - 2 {
          assert front[..|front| - 1] == front[..i];
          assert BlockStart(blocks, i) + |blocks[i]| == |joined|;
        }
      }
    }
  }

  /** `buildDependencyTreeSection(sections, {palette, renderSection})`. */
  method BuildDependencyTreeSection<T>(sections: Option<seq<T>>, renderSection: (T, nat) -> seq<Line>)
    returns (lines: seq<Line>)
    ensures sections.None? || |sections.value| == 0 ==> lines == []
    ensures sections.Some? && |sections.value| > 0 ==>
      lines == [Styled(Heading, "Dependency Tree"), DividerLine] +
        JoinBlocks(seq(|sections.value|, i requires 0 <= i < |sections.value| => renderSection(sections.value[i], i)))
  {
    if sections.None? || |sections.value| == 0 {
      return [];
    }
    var list := sections.value;
    ghost var rendered := seq(|list|, i requires 0 <= i < |list| => renderSection(list[i], i));
    var header := [Styled(Heading, "Dependency Tree"), DividerLine];
    lines := header;
    for index := 0 to |list|
      invariant index == 0 ==> lines == header
      invariant index > 0 ==>
        lines == header + JoinBlocks(rendered[..index]) + (if index < |list| then [BlankLine] else [])
    {
      var r := renderSection(list[index], index);
      assert rendered[..index + 1][..index] == rendered[..index];
      assert r == rendered[index];
      ghost var before := lines;
      for k := 0 to |r|
        invariant lines == before + r[..k]
      {
        lines := lines + [r[k]];
      }
      assert r[..|r|] == r;
      if index == 0 {
        assert rendered[..1] == [r];
      } else {
        assert JoinBlocks(rendered[..index + 1]) == JoinBlocks(rendered[..index]) + [BlankLine] + r;
      }
      if index < |list| - 1 {
        lines := lines + [BlankLine];
      }
    }
    assert rendered[..|list|] == rendered;
  }
  /** The position label of item `i`: `i + 1` in decimal, zero-padded to two digits. */
  function IndexLabel(i: nat): string {
    PadStart(NatToString(i + 1), 2, '0')
  }

  /** One line of the topological order: the muted position label, `. `, and the formatted item. */
  function ItemLine(position: string, item: Line): Line {
    Styled(Muted, position) + Plain(". ") + item
  }

  /** `buildTopologicalOrderSection(items, {palette, formatItem})`. */
  method BuildTopologicalOrderSection<T>(items: Option<seq<T>>, formatItem: (T, nat) -> Line)
    returns (lines: seq<Line>)
    ensures items.None? || |items.value| == 0 ==> lines == []
    ensures items.Some? && |items.value| > 0 ==>
      && |lines| == |items.value| + 2
      && lines[0] == Styled(Heading, "Topological Order") && lines[1] == DividerLine
      && forall i :: 0 <= i < |items.value| ==>
        lines[2 + i] == ItemLine(IndexLabel(i), formatItem(items.value[i], i))
  {
    if items.None? || |items.value| == 0 {
      return [];
    }
    var list := items.value;
    lines := [Styled(Heading, "Topological Order"), DividerLine];
    for index := 0 to |list|
      invariant |lines| == index + 2
      invariant lines[0] == Styled(Heading, "Topological Order") && lines[1] == DividerLine
      invariant forall i :: 0 <= i < index ==> lines[2 + i] == ItemLine(IndexLabel(i), formatItem(list[i], i))
    {
      var indexLabel := PadStart(NatToString(index + 1), 2, '0');
      lines := lines + [ItemLine(indexLabel, formatItem(list[index], index))];
    }
  }

  /** Leading zeros do not change the value of a run of digits. */
  lemma {:induction false} LeadingZero(s: string)
    requires forall i :: 0 <= i < |s| ==> '0' <= s[i] <= '9'
    ensures DigitsValue("0" + s) == DigitsValue(s)
    decreases |s|
  {
    if |s| > 0 {
      var t := "0" + s;
      assert t[..|t| - 1] == "0" + s[..|s| - 1];
      LeadingZero(s[..|s| - 1]);
    }
  }

  /**
   * The label of item `i` has at least two digits and reads back as `i + 1`; from the
   * tenth item on it is the plain number.
   */
  lemma IndexLabelValue(i: nat)
    ensures |IndexLabel(i)| >= 2
    ensures forall k :: 0 <= k < |IndexLabel(i)| ==> '0' <= IndexLabel(i)[k] <= '9'
    ensures DigitsValue(IndexLabel(i)) == i + 1
    ensures i >= 9 ==> IndexLabel(i) == NatToString(i + 1)
  {
    var digits := NatToString(i + 1);
    NatToStringValue(i + 1);
    if |digits| < 2 {
      assert IndexLabel(i) == "0" + digits;
      LeadingZero(digits);
    }
    if i >= 9 {
      assert |digits| >= 2 by {
        assert digits == NatToString((i + 1) / 10) + [Digit((i + 1) % 10)];
      }
    }
  }
}
