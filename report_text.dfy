/**
 * Report text with the colouring left abstract: a line is a sequence of spans, each span
 * some text and, when the palette coloured it, the palette entry that did.
 */
module ReportText {
  import opened Wrappers

  /** The palette entries the report sections use. */
  datatype Style =
    | Heading | Divider | Muted | Module | Folder | Entry | External | Error | Override
    | Warning | WarningHeader | ErrorHeader

  datatype Span = Span(style: Option<Style>, text: string)

  type Line = seq<Span>

  /** `palette.<style>(text)`. */
  function Styled(style: Style, text: string): Line {
    [Span(Some(style), text)]
  }

  /** Uncoloured text. */
  function Plain(text: string): Line {
    [Span(None, text)]
  }

  /** The text of a line once the colours are stripped. */
  function TextOf(line: Line): string {
    if |line| == 0 then "" else TextOf(line[..|line| - 1]) + line[|line| - 1].text
  }

  /** `palette.divider`: a fixed run of dashes. */
  const DividerLine: Line := Styled(Divider, "-----------------")

  /** The empty line that separates blocks. */
  const BlankLine: Line := Plain("")
}
