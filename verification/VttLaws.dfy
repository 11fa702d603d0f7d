/** Laws that relate reading, writing and the shape of the lines: what
    reading depends on, what a write followed by a read gives back, and
    small worked cases of the behaviour of the reader and the renderer. */
module VttLaws {
  import opened Wrappers
  import opened PyText
  import opened VttFormatBlock
  import opened VttFile

  // ---------------------------------------------------------------------------
  // Reading looks at stripped lines only

  /** Two line lists of the same length whose lines strip to the same text. */
  predicate StrippedAlike(a: seq<string>, b: seq<string>)
  {
    |a| == |b| && forall i :: 0 <= i < |a| ==> Strip(a[i]) == Strip(b[i])
  }

  lemma StrippedAlikeDrop(a: seq<string>, b: seq<string>, k: nat)
    requires StrippedAlike(a, b) && k <= |a|
    ensures StrippedAlike(a[k..], b[k..])
  {
    forall i | 0 <= i < |a| - k
      ensures Strip(a[k..][i]) == Strip(b[k..][i])
    {
      assert a[k..][i] == a[k + i] && b[k..][i] == b[k + i];
    }
  }

  /** `int()` of a line sees the line stripped. */
  lemma ParseIntSeesStripped(s: string, t: string)
    requires Strip(s) == Strip(t)
    ensures ParseInt(s) == ParseInt(t)
  {
  }

  /** The speaker line is split after stripping. */
  lemma SplitSpeakerLineSeesStripped(s: string, t: string)
    requires Strip(s) == Strip(t)
    ensures SplitSpeakerLine(s) == SplitSpeakerLine(t)
  {
  }

  lemma AbsorbSeesStripped(a: seq<string>, b: seq<string>)
    requires StrippedAlike(a, b)
    ensures AbsorbLines(a) == AbsorbLines(b)
  {
    if a != [] {
      ParseIntSeesStripped(a[0], b[0]);
      if |a| >= 3 {
        assert Strip(a[1]) == Strip(b[1]);
        SplitSpeakerLineSeesStripped(a[2], b[2]);
      }
    }
  }

  /** Parsing the blocks depends on nothing but the stripped lines. */
  lemma {:induction false} ParseBlocksSeesStripped(a: seq<string>, b: seq<string>)
    requires StrippedAlike(a, b)
    ensures ParseBlocks(a) == ParseBlocks(b)
    decreases |a|
  {
    if a != [] {
      assert Strip(a[0]) == Strip(b[0]);
      if |Strip(a[0])| == 0 {
        ParseBlocksAtBlank(a);
        ParseBlocksAtBlank(b);
        StrippedAlikeDrop(a, b, 1);
        ParseBlocksSeesStripped(a[1..], b[1..]);
      } else {
        ParseBlocksAtBlock(a);
        ParseBlocksAtBlock(b);
        AbsorbSeesStripped(a, b);
        if AbsorbLines(a).Ok? {
          StrippedAlikeDrop(a, b, 3);
          ParseBlocksSeesStripped(a[3..], b[3..]);
        }
      }
    }
  }

  /** Reading a transcript depends on nothing but the stripped lines. */
  lemma ParseSeesStripped(a: seq<string>, b: seq<string>)
    requires StrippedAlike(a, b)
    ensures Parse(a) == Parse(b)
  {
    if a != [] {
      assert Strip(a[0]) == Strip(b[0]);
      StrippedAlikeDrop(a, b, 1);
      ParseBlocksSeesStripped(a[1..], b[1..]);
    }
  }

  /** Iterating over an open file yields each line with its "\n" still on
      it; reading such lines gives what reading the bare lines gives. */
  lemma ParseIgnoresLineTerminators(lines: seq<string>, fileLines: seq<string>)
    requires |fileLines| == |lines|
    requires forall i :: 0 <= i < |lines| ==> fileLines[i] == lines[i] + "\n"
    ensures Parse(fileLines) == Parse(lines)
  {
    forall i | 0 <= i < |lines|
      ensures Strip(fileLines[i]) == Strip(lines[i])
    {
      StripIgnoresTrailingSpace(lines[i], '\n');
    }
    ParseSeesStripped(fileLines, lines);
  }

  // ---------------------------------------------------------------------------
  // Writing, then reading back

  /** The blocks as a write followed by a read returns them: each text has
      gained the space written after the speaker's colon. */
  function PadTexts(blocks: seq<Block>): (r: seq<Block>)
    ensures |r| == |blocks|
  {
    if blocks == [] then []
    else PadTexts(blocks[..|blocks| - 1]) + [blocks[|blocks| - 1].(text := " " + blocks[|blocks| - 1].text)]
  }

  lemma {:induction false} PadTextsAt(blocks: seq<Block>, i: nat)
    requires i < |blocks|
    ensures PadTexts(blocks)[i] == blocks[i].(text := " " + blocks[i].text)
  {
    if i < |blocks| - 1 {
      PadTextsAt(blocks[..|blocks| - 1], i);
    }
  }

  /** The four lines written for a block read back as one block. */
  lemma ParseBlocksOfRegenerate(b: Block)
    requires Reparsable(b)
    ensures ParseBlocks(Regenerate(b)) == Ok([b.(text := " " + b.text)])
  {
    var lines := Regenerate(b);
    IndexLineNotBlank(b.index);
    assert lines[0] == IntToString(b.index);
    AbsorbRegenerate(b);
    ParseBlocksAtBlock(lines);
    assert lines[3..] == [""];
    ParseBlocksOfBlankLine();
    assert [b.(text := " " + b.text)] + [] == [b.(text := " " + b.text)];
  }

  lemma ParseBlocksOfBlankLine()
    ensures ParseBlocks([""]) == Ok([])
  {
    assert |Strip("")| == 0;
    ParseBlocksAtBlank([""]);
    assert [""][1..] == [];
  }

  /** The index line is never blank. */
  lemma IndexLineNotBlank(n: int)
    ensures |Strip(IntToString(n))| != 0
  {
    var s := IntToString(n);
    var m: nat := if n < 0 then -n else n;
    NatToStringNumeral(m);
    assert s != [] && !IsSpace(s[0]);
    assert Strip(s) != [] by {
      StripIsSlice(s);
      assert |s| - |LStrip(s)| == 0;
    }
  }

  lemma {:induction false} ParseBlocksOfRegenerateAll(blocks: seq<Block>)
    requires forall i :: 0 <= i < |blocks| ==> Reparsable(blocks[i])
    ensures ParseBlocks(RegenerateAll(blocks)) == Ok(PadTexts(blocks))
  {
    if blocks == [] {
    } else {
      var front, last := blocks[..|blocks| - 1], blocks[|blocks| - 1];
      ParseBlocksOfRegenerateAll(front);
      ParseBlocksOfRegenerate(last);
      ParseBlocksConcat(RegenerateAll(front), Regenerate(last));
    }
  }

  /** Writing a transcript and reading the lines back gives the same blocks in
      the same order with the same index, time token and speaker, and with
      one more leading space on every text. */
  lemma WriteThenRead(t: Transcript)
    requires forall i :: 0 <= i < |t.blocks| ==> Reparsable(t.blocks[i])
    ensures Parse(FileLines(t)) == Ok(Transcript(PadTexts(t.blocks)))
  {
    var lines := FileLines(t);
    assert lines[0] == HEADER && lines[1..] == [""] + RegenerateAll(t.blocks);
    StripUnchanged(HEADER);
    ParseBlocksAtBlank(lines[1..]);
    assert lines[1..][1..] == RegenerateAll(t.blocks);
    ParseBlocksOfRegenerateAll(t.blocks);
  }

  /** No byte-exact round trip: a file as the writer itself lays it out is
      read, written again, and comes out different. */
  lemma NoExactRoundTrip()
    ensures var lines := ["WEBVTT", "", "1", "00:01 --> 00:02", "Alice: hi", ""];
      Parse(lines).Ok? && FileLines(Parse(lines).value) != lines
  {
    var b := Block(1, "00:01 --> 00:02", "Alice", "hi");
    var back := b.(text := " hi");
    ExampleWritten(b);
    ExampleReparsable(b);
    WriteThenRead(Transcript([b]));
    PadTextsOne(b);
    assert " " + b.text == " hi";
    ExampleRewritten(back);
  }

  lemma ExampleWritten(b: Block)
    requires b == Block(1, "00:01 --> 00:02", "Alice", "hi")
    ensures FileLines(Transcript([b])) == ["WEBVTT", "", "1", "00:01 --> 00:02", "Alice: hi", ""]
  {
    assert IntToString(1) == "1";
    assert "Alice" + ": " + "hi" == "Alice: hi";
    RegenerateAllOne(b);
  }

  lemma ExampleReparsable(b: Block)
    requires b == Block(1, "00:01 --> 00:02", "Alice", "hi")
    ensures Reparsable(b)
  {
    StripUnchanged(b.timetuple);
  }

  lemma ExampleRewritten(back: Block)
    requires back == Block(1, "00:01 --> 00:02", "Alice", " hi")
    ensures FileLines(Transcript([back]))[4] == "Alice:  hi" != "Alice: hi"
  {
    var lines := FileLines(Transcript([back]));
    var written := Regenerate(back);
    RegenerateAllOne(back);
    assert lines == [HEADER, ""] + written;
    assert lines[4] == written[2] == back.speaker + ": " + back.text;
    assert "Alice" + ": " + " hi" == "Alice:  hi";
    assert |"Alice:  hi"| != |"Alice: hi"|;
  }

  lemma PadTextsOne(b: Block)
    ensures PadTexts([b]) == [b.(text := " " + b.text)]
  {
    assert [b][..0] == [];
  }

  lemma RegenerateAllOne(b: Block)
    ensures RegenerateAll([b]) == Regenerate(b)
  {
    assert [b][..0] == [];
  }

  /** Whatever follows a second colon on the speaker line is dropped. */
  lemma SecondColonEndsText(sp: string, tx: string, rest: string)
    requires ':' !in sp && ':' !in tx
    requires var line := sp + ":" + tx + ":" + rest; !IsSpace(line[0]) && !IsSpace(line[|line| - 1])
    ensures SplitSpeakerLine(sp + ":" + tx + ":" + rest) == Some((sp, tx))
  {
    var line := sp + ":" + tx + ":" + rest;
    StripUnchanged(line);
    assert line == sp + [':'] + (tx + [':'] + rest);
    SplitAtFirst(sp, tx + [':'] + rest, ':');
    SplitAtFirst(tx, rest, ':');
    assert Split(line, ':') == [sp] + ([tx] + Split(rest, ':'));
  }

  // ---------------------------------------------------------------------------
  // The collapsed form on a small transcript

  /** Two blocks by Ann then one by Bob: two headers, three text lines. */
  lemma CollapsedExample(blocks: seq<Block>)
    requires blocks == [Block(1, "a", "Ann", "hi"), Block(2, "b", "Ann", "there"), Block(3, "c", "Bob", "yo")]
    ensures |Runs(blocks)| == 2
    ensures RenderRuns(Runs(blocks)) == ["", "", "Ann:", "hi", "there", "", "", "Bob:", "yo"]
  {
    ExampleFirst(blocks);
    CollapsedByRuns(blocks);
  }

  lemma ExampleFirst(blocks: seq<Block>)
    requires blocks == [Block(1, "a", "Ann", "hi"), Block(2, "b", "Ann", "there"), Block(3, "c", "Bob", "yo")]
    ensures CollapsedFrom(blocks, None) == ["", "", "Ann:", "hi", "there", "", "", "Bob:", "yo"]
  {
    ExampleMiddle(blocks[1..]);
    StripUnchanged("hi");
    CollapsedFromFirst(blocks, None);
    assert "Ann" + ":" == "Ann:";
  }

  lemma ExampleMiddle(blocks: seq<Block>)
    requires blocks == [Block(2, "b", "Ann", "there"), Block(3, "c", "Bob", "yo")]
    ensures CollapsedFrom(blocks, Some("Ann")) == ["there", "", "", "Bob:", "yo"]
  {
    ExampleLast(blocks[1..]);
    StripUnchanged("there");
    CollapsedFromFirst(blocks, Some("Ann"));
  }

  lemma ExampleLast(blocks: seq<Block>)
    requires blocks == [Block(3, "c", "Bob", "yo")]
    ensures CollapsedFrom(blocks, Some("Ann")) == ["", "", "Bob:", "yo"]
  {
    StripUnchanged("yo");
    CollapsedFromFirst(blocks, Some("Ann"));
    assert blocks[1..] == [];
    assert "Bob" + ":" == "Bob:";
  }
}
