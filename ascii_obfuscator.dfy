/**
 * The ASCII obfuscator: a module's text becomes Lua code that rebuilds it from its character
 * codes, written in `string.char(...)` blocks of at most 200 codes, and runs it.
 */
module AsciiObfuscation {
  import opened Seqs
  import opened Strings
  import opened Wrappers

  /** How many codes one `string.char(...)` block carries at most. */
  const ChunkSize := 200

  /**
   * `char.charCodeAt(0)` for one code point of `Array.from(content)`: the code point itself in
   * the Basic Multilingual Plane, else its leading (high) surrogate.
   */
  function Code(c: char): (r: nat)
    ensures (c as int) < 0x1_0000 ==> r == c as int
    ensures (c as int) >= 0x1_0000 ==> 0xD800 <= r < 0xDC00
  {
    if (c as int) < 0x1_0000 then c as int else 0xD800 + ((c as int) - 0x1_0000) / 0x400
  }

  function Codes(content: string): (r: seq<nat>)
    ensures |r| == |content|
  {
    Map(Code, content)
  }

  function Min(a: int, b: int): int {
    if a < b then a else b
  }

  /** The blocks of codes from position `i` on: consecutive slices of up to 200. */
  function ChunksFrom(codes: seq<nat>, i: nat): seq<seq<nat>>
    decreases |codes| - i
  {
    if i >= |codes| then [] else [codes[i..Min(i + ChunkSize, |codes|)]] + ChunksFrom(codes, i + ChunkSize)
  }

  function Chunks(codes: seq<nat>): seq<seq<nat>> {
    ChunksFrom(codes, 0)
  }

  /** `string.char(c1, c2, ...)` for one block. */
  function ChunkText(chunk: seq<nat>): string {
    "string.char(" + Join(Map(NatToString, chunk), ", ") + ")"
  }

  /** The expression that rebuilds the text: the block itself when there is exactly one, else their `table.concat`. */
  function SourceBuilder(chunkTexts: seq<string>): string {
    if |chunkTexts| == 1 then chunkTexts[0] else "table.concat({ " + Join(chunkTexts, ", ") + " })"
  }

  const Trailer := "return __lp_chunk(...)\n"

  /** The emitted module: bind the rebuilt text, load it under the module's name, run it. */
  function Wrapper(sourceBuilder: string, moduleName: string): string {
    "local __lp_source = " + sourceBuilder + "\nlocal __lp_chunk = assert(load(__lp_source, \"" + moduleName + "\"))\n" + Trailer
  }

  /** `AsciiObfuscator.encode`. */
  method Encode(content: string, moduleName: string) returns (r: string)
    ensures r == Wrapper(SourceBuilder(Map(ChunkText, Chunks(Codes(content)))), moduleName)
  {
    var codes := Codes(content);
    var chunks: seq<string> := [];
    ghost var blocks: seq<seq<nat>> := [];
    var i := 0;
    while i < |codes|
      invariant blocks + ChunksFrom(codes, i) == Chunks(codes)
      invariant chunks == Map(ChunkText, blocks)
      decreases |codes| - i
    {
      var segment := codes[i..Min(i + ChunkSize, |codes|)];
      MapSnoc(ChunkText, blocks, segment);
      assert blocks + [segment] + ChunksFrom(codes, i + ChunkSize) == blocks + ChunksFrom(codes, i);
      chunks := chunks + [ChunkText(segment)];
      blocks := blocks + [segment];
      i := i + ChunkSize;
    }
    assert blocks + [] == blocks;
    var sourceBuilder := if |chunks| == 1 then chunks[0] else "table.concat({ " + Join(chunks, ", ") + " })";
    r := "local __lp_source = " + sourceBuilder + "\nlocal __lp_chunk = assert(load(__lp_source, \"" + moduleName + "\"))\n" + Trailer;
  }

  /**
   * Blocks are non-empty and carry at most 200 codes, there are ⌈n/200⌉ of them, and
   * concatenated in order they give back the code list.
   */
  lemma {:induction false} ChunksFromProps(codes: seq<nat>, i: nat)
    requires i <= |codes|
    ensures forall k :: 0 <= k < |ChunksFrom(codes, i)| ==> 1 <= |ChunksFrom(codes, i)[k]| <= ChunkSize
    ensures |ChunksFrom(codes, i)| == (|codes| - i + ChunkSize - 1) / ChunkSize
    ensures FlattenFront(ChunksFrom(codes, i)) == codes[i..]
    decreases |codes| - i
  {
    if i < |codes| {
      var j := Min(i + ChunkSize, |codes|);
      ChunksFromProps(codes, j);
      assert ChunksFrom(codes, i + ChunkSize) == ChunksFrom(codes, j);
      var rest := ChunksFrom(codes, j);
      assert ChunksFrom(codes, i) == [codes[i..j]] + rest;
      assert ([codes[i..j]] + rest)[1..] == rest;
      assert codes[i..] == codes[i..j] + codes[j..];
    }
  }

  /** Concatenation taking the first block off the front (equal to Flatten; see FlattenFrontIsFlatten). */
  function FlattenFront(ss: seq<seq<nat>>): seq<nat> {
    if |ss| == 0 then [] else ss[0] + FlattenFront(ss[1..])
  }

  lemma {:induction false} FlattenFrontIsFlatten(ss: seq<seq<nat>>)
    ensures FlattenFront(ss) == Flatten(ss)
    decreases |ss|
  {
    if |ss| > 0 {
      var n := |ss| - 1;
      FlattenFrontIsFlatten(ss[1..]);
      if n > 0 {
        FlattenFrontIsFlatten(ss[..n]);
        FlattenFrontIsFlatten(ss[1..][..n - 1]);
        assert ss[1..][..n - 1] == ss[..n][1..];
        assert ss[1..][n - 1] == ss[n];
      } else {
        assert ss[..n] == [];
      }
    }
  }

  /** The partition property of the blocks. */
  lemma ChunksPartition(codes: seq<nat>)
    ensures forall k :: 0 <= k < |Chunks(codes)| ==> 1 <= |Chunks(codes)[k]| <= ChunkSize
    ensures |Chunks(codes)| == (|codes| + ChunkSize - 1) / ChunkSize
    ensures Flatten(Chunks(codes)) == codes
  {
    ChunksFromProps(codes, 0);
    FlattenFrontIsFlatten(Chunks(codes));
    assert codes[0..] == codes;
  }

  /** Exactly one block is used as it is; any other count, zero included, goes through `table.concat`. */
  lemma SourceBuilderShape(chunkTexts: seq<string>)
    ensures |chunkTexts| == 1 ==> SourceBuilder(chunkTexts) == chunkTexts[0]
    ensures |chunkTexts| != 1 ==> StartsWith(SourceBuilder(chunkTexts), "table.concat({ ")
  {
    if |chunkTexts| != 1 {
      var t := "table.concat({ " + Join(chunkTexts, ", ") + " })";
      assert t[..15] == "table.concat({ ";
    }
  }

  /** The emitted module always ends by running the loaded chunk with the module's arguments. */
  lemma WrapperEnds(sourceBuilder: string, moduleName: string)
    ensures EndsWith(Wrapper(sourceBuilder, moduleName), Trailer)
  {
    var head := "local __lp_source = " + sourceBuilder + "\nlocal __lp_chunk = assert(load(__lp_source, \"" + moduleName + "\"))\n";
    assert Wrapper(sourceBuilder, moduleName) == head + Trailer;
    assert (head + Trailer)[|head|..] == Trailer;
  }

  /** Read back a `, `-separated list of decimal numbers, as the Lua reader sees a block's arguments. */
  function ParseCodes(s: string): seq<nat>
    decreases |s|
  {
    var k := DigitRun(s);
    if k == 0 then []
    else
      var v := DigitsValue(s[..k]);
      if k + 2 <= |s| && s[k..k + 2] == ", " then [v] + ParseCodes(s[k + 2..]) else [v]
  }

  /** The arguments of one `string.char(...)` block, read back. */
  function ChunkCodes(text: string): seq<nat>
    requires |text| >= 13
  {
    ParseCodes(text[12..|text| - 1])
  }

  lemma {:induction false} DigitRunPrefix(a: string, b: string)
    requires forall i :: 0 <= i < |a| ==> '0' <= a[i] <= '9'
    requires |b| > 0 && !('0' <= b[0] <= '9')
    ensures DigitRun(a + b) == |a|
    decreases |a|
  {
    if |a| > 0 {
      assert (a + b)[1..] == a[1..] + b;
      DigitRunPrefix(a[1..], b);
    } else {
      assert a + b == b;
    }
  }

  /** Printing codes as a `, `-separated list and reading the list back gives the codes. */
  lemma {:induction false} ParseJoinedCodes(codes: seq<nat>)
    requires |codes| > 0
    ensures ParseCodes(Join(Map(NatToString, codes), ", ")) == codes
    decreases |codes|
  {
    var parts := Map(NatToString, codes);
    var first := NatToString(codes[0]);
    NatToStringValue(codes[0]);
    if |codes| == 1 {
      assert Join(parts, ", ") == first;
      ParseSingle(first);
    } else {
      var rest := Join(parts[1..], ", ");
      assert parts[1..] == Map(NatToString, codes[1..]);
      ParseJoinedCodes(codes[1..]);
      assert Join(parts, ", ") == first + ", " + rest;
      ParseStep(first, rest);
      assert [codes[0]] + codes[1..] == codes;
    }
  }

  lemma ParseSingle(digits: string)
    requires |digits| > 0 && forall i :: 0 <= i < |digits| ==> '0' <= digits[i] <= '9'
    ensures ParseCodes(digits) == [DigitsValue(digits)]
  {
    assert DigitRun(digits) == |digits|;
    assert digits[..|digits|] == digits;
  }

  lemma ParseStep(digits: string, rest: string)
    requires |digits| > 0 && forall i :: 0 <= i < |digits| ==> '0' <= digits[i] <= '9'
    ensures ParseCodes(digits + ", " + rest) == [DigitsValue(digits)] + ParseCodes(rest)
  {
    var s := digits + ", " + rest;
    DigitRunPrefix(digits, ", " + rest);
    assert digits + (", " + rest) == s;
    assert s[..|digits|] == digits;
    assert s[|digits|..|digits| + 2] == ", ";
    assert s[|digits| + 2..] == rest;
  }

  /** Each block's text reads back as exactly the codes it was made from. */
  lemma ChunkRoundTrip(chunk: seq<nat>)
    requires |chunk| > 0
    ensures |ChunkText(chunk)| >= 13 && ChunkCodes(ChunkText(chunk)) == chunk
  {
    var inner := Join(Map(NatToString, chunk), ", ");
    var t := ChunkText(chunk);
    assert |inner| > 0 by {
      JoinNonEmpty(Map(NatToString, chunk), ", ");
    }
    assert t[12..|t| - 1] == inner;
    ParseJoinedCodes(chunk);
  }

  lemma JoinNonEmpty(parts: seq<string>, sep: string)
    requires |parts| > 0 && |parts[0]| > 0
    ensures |Join(parts, sep)| > 0
  {
  }

  /** A byte of a Lua string. */
  type Byte = b: int | 0 <= b < 0x100

  /**
   * Lua's `string.char`: one byte per code, in order; a code above 255 raises "value out of
   * range", modelled as `None`.
   */
  function StringChar(codes: seq<nat>): (r: Option<seq<Byte>>)
    ensures r.Some? <==> forall i :: 0 <= i < |codes| ==> codes[i] < 0x100
    ensures r.Some? ==> |r.value| == |codes| && forall i :: 0 <= i < |codes| ==> r.value[i] == codes[i]
  {
    if |codes| == 0 then Some([])
    else if codes[0] >= 0x100 then None
    else match StringChar(codes[1..])
      case None => None
      case Some(rest) => Some([codes[0] as Byte] + rest)
  }

  /**
   * What `__lp_source` holds when the module runs: every block through `string.char`, the
   * results joined by `table.concat` (nothing for zero blocks); `None` when a block raises.
   */
  function Rebuild(blocks: seq<seq<nat>>): (r: Option<seq<Byte>>) {
    if |blocks| == 0 then Some([])
    else match (StringChar(blocks[0]), Rebuild(blocks[1..]))
      case (Some(head), Some(rest)) => Some(head + rest)
      case _ => None
  }

  /** The UTF-8 bytes of one character, as the module file stores it. */
  function Utf8Char(c: char): (r: seq<Byte>)
    ensures 1 <= |r| <= 4
    ensures |r| == 1 <==> (c as int) < 0x80
    ensures |r| == 1 ==> r[0] == c as int
  {
    var n := c as int;
    if n < 0x80 then [n]
    else if n < 0x800 then [0xC0 + n / 0x40, 0x80 + n % 0x40]
    else if n < 0x1_0000 then [0xE0 + n / 0x1000, 0x80 + (n / 0x40) % 0x40, 0x80 + n % 0x40]
    else [0xF0 + n / 0x4_0000, 0x80 + (n / 0x1000) % 0x40, 0x80 + (n / 0x40) % 0x40, 0x80 + n % 0x40]
  }

  /** The UTF-8 bytes of a text: never fewer than its characters, as many only for ASCII. */
  function Utf8(content: string): (r: seq<Byte>)
    ensures |r| >= |content|
    ensures |r| == |content| <==> IsAscii(content)
  {
    if |content| == 0 then []
    else
      assert IsAscii(content) <==> (content[0] as int) < 0x80 && IsAscii(content[1..]) by {
        if (content[0] as int) < 0x80 && IsAscii(content[1..]) {
          forall i | 0 < i < |content| ensures (content[i] as int) < 0x80 {
            assert content[i] == content[1..][i - 1];
          }
        }
      }
      Utf8Char(content[0]) + Utf8(content[1..])
  }

  predicate IsAscii(content: string) {
    forall i :: 0 <= i < |content| ==> (content[i] as int) < 0x80
  }

  /** For ASCII text the UTF-8 bytes are the character codes. */
  lemma {:induction false} Utf8OfAscii(content: string)
    requires IsAscii(content)
    ensures |Utf8(content)| == |content| && forall i :: 0 <= i < |content| ==> Utf8(content)[i] == content[i] as int
    decreases |content|
  {
    if |content| > 0 {
      assert IsAscii(content[1..]) by {
        forall i | 0 <= i < |content| - 1 ensures (content[1..][i] as int) < 0x80 {
          assert content[1..][i] == content[i + 1];
        }
      }
      Utf8OfAscii(content[1..]);
      forall i | 0 < i < |content| ensures Utf8(content)[i] == content[i] as int {
        assert content[1..][i - 1] == content[i];
      }
    }
  }

  /** `string.char` over a concatenation is the concatenation of the two, failing when either does. */
  lemma StringCharAppend(a: seq<nat>, b: seq<nat>)
    ensures StringChar(a + b).Some? <==> StringChar(a).Some? && StringChar(b).Some?
    ensures StringChar(a + b).Some? ==> StringChar(a + b).value == StringChar(a).value + StringChar(b).value
  {
    var ab := a + b;
    if StringChar(a).Some? && StringChar(b).Some? {
      assert forall i :: 0 <= i < |ab| ==> ab[i] < 0x100 by {
        forall i | 0 <= i < |ab| ensures ab[i] < 0x100 {
          if i >= |a| {
            assert ab[i] == b[i - |a|];
          }
        }
      }
    }
    if StringChar(ab).Some? {
      assert forall i :: 0 <= i < |a| ==> a[i] < 0x100 by {
        forall i | 0 <= i < |a| ensures a[i] < 0x100 {
          assert a[i] == ab[i];
        }
      }
      assert forall i :: 0 <= i < |b| ==> b[i] < 0x100 by {
        forall i | 0 <= i < |b| ensures b[i] < 0x100 {
          assert b[i] == ab[|a| + i];
        }
      }
    }
  }

  /** Joining the blocks' `string.char` results is `string.char` of all the codes at once. */
  lemma {:induction false} RebuildFlat(blocks: seq<seq<nat>>)
    ensures Rebuild(blocks) == StringChar(FlattenFront(blocks))
    decreases |blocks|
  {
    if |blocks| > 0 {
      RebuildFlat(blocks[1..]);
      StringCharAppend(blocks[0], FlattenFront(blocks[1..]));
    }
  }

  /**
   * The round trip: every block's text reads back as its codes, the blocks concatenate to the
   * code list, and the text `load` receives is the module's UTF-8 text exactly when the module is
   * ASCII. A character above 255 (a surrogate half included) makes `string.char` raise; one
   * from 128 to 255 comes back as a single byte where UTF-8 has two.
   */
  lemma EncodeRoundTrip(content: string)
    ensures var blocks := Chunks(Codes(content));
      && (forall k :: 0 <= k < |blocks| ==> |ChunkText(blocks[k])| >= 13 && ChunkCodes(ChunkText(blocks[k])) == blocks[k])
      && Flatten(blocks) == Codes(content)
      && (Rebuild(blocks) == Some(Utf8(content)) <==> IsAscii(content))
      && ((exists i :: 0 <= i < |content| && (content[i] as int) >= 0x100) ==> Rebuild(blocks).None?)
  {
    var codes := Codes(content);
    var blocks := Chunks(codes);
    ChunksPartition(codes);
    forall k | 0 <= k < |blocks| ensures |ChunkText(blocks[k])| >= 13 && ChunkCodes(ChunkText(blocks[k])) == blocks[k] {
      ChunkRoundTrip(blocks[k]);
    }
    RebuildFlat(blocks);
    FlattenFrontIsFlatten(blocks);
    StringCharOfCodes(content);
  }

  /** `string.char` of the code list gives the UTF-8 text exactly for ASCII, and raises above 255. */
  lemma StringCharOfCodes(content: string)
    ensures StringChar(Codes(content)) == Some(Utf8(content)) <==> IsAscii(content)
    ensures (exists i :: 0 <= i < |content| && (content[i] as int) >= 0x100) ==> StringChar(Codes(content)).None?
  {
    if IsAscii(content) {
      AsciiBytes(content);
    } else {
      NonAsciiBytes(content);
    }
    if exists i :: 0 <= i < |content| && (content[i] as int) >= 0x100 {
      var i :| 0 <= i < |content| && (content[i] as int) >= 0x100;
      WideCharFails(content, i);
    }
  }

  lemma AsciiBytes(content: string)
    requires IsAscii(content)
    ensures StringChar(Codes(content)) == Some(Utf8(content))
  {
    var codes := Codes(content);
    Utf8OfAscii(content);
    assert forall i :: 0 <= i < |codes| ==> codes[i] == content[i] as int < 0x80;
    assert StringChar(codes).value == Utf8(content);
  }

  lemma NonAsciiBytes(content: string)
    requires !IsAscii(content)
    ensures StringChar(Codes(content)) != Some(Utf8(content))
  {
    var codes := Codes(content);
    if StringChar(codes).Some? {
      assert |StringChar(codes).value| == |content| < |Utf8(content)|;
    }
  }

  lemma WideCharFails(content: string, i: nat)
    requires i < |content| && (content[i] as int) >= 0x100
    ensures StringChar(Codes(content)).None?
  {
    assert Codes(content)[i] >= 0x100;
  }
}
