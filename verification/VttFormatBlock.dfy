/** One WebVTT-style block: an index, a time token, a speaker and what was said.
    Parsing one block out of the line deque, copying it with a new speaker,
    and writing it back as lines. */
module VttFormatBlock {
  import opened Wrappers
  import opened PyText
  import opened Deque

  datatype Block = Block(index: int, timetuple: string, speaker: string, text: string)

  /** Why reading a transcript fails. Python raises at the first of these it meets
      and no blocks are kept. */
  datatype ParseError =
    | EmptyFile              // popleft of the header from an empty deque
    | BadHeader(header: string)
    | BadIndex               // int() of the index line raised ValueError
    | TruncatedBlock         // popleft from an exhausted deque inside a block
    | MissingColon           // the speaker line split into a single piece

  /** Why remapping or anonymising speakers fails. */
  datatype RemapError =
    | UnknownSpeaker(speaker: string)
    | TooManySpeakers

  /** The speaker line is stripped and split on every ':'; the speaker is the
      piece before the first colon and the text the piece between the first
      and the second colon. Whatever follows a second colon is dropped. */
  function SplitSpeakerLine(line: string): (r: Option<(string, string)>)
    ensures r.None? <==> ':' !in line
  {
    var pieces := Split(Strip(line), ':');
    StripKeepsNonSpace(line, ':');
    if |pieces| < 2 then None else Some((pieces[0], pieces[1]))
  }

  /** Where speaker and text lie in the stripped line: the speaker runs up to
      the first colon, the text from there up to the second colon or the end,
      and neither holds a colon. */
  lemma SplitSpeakerLinePositions(line: string)
    requires ':' in line
    ensures var s, sp, tx := Strip(line), SplitSpeakerLine(line).value.0, SplitSpeakerLine(line).value.1;
      && ':' !in sp && ':' !in tx
      && |sp| + 1 + |tx| <= |s|
      && s[..|sp|] == sp && s[|sp|] == ':' && s[|sp| + 1..|sp| + 1 + |tx|] == tx
      && (|sp| + 1 + |tx| == |s| || s[|sp| + 1 + |tx|] == ':')
  {
    var pieces := Split(Strip(line), ':');
    StripKeepsNonSpace(line, ':');
    JoinFirstTwo(pieces, ':');
  }

  /** What `absorb` does to the lines at the front of the deque: the index
      line through int(), the stripped time line, then the speaker line. */
  function AbsorbLines(lines: seq<string>): (r: Result<Block, ParseError>)
    ensures r.Ok? <==> |lines| >= 3 && ParseInt(lines[0]).Some? && ':' in lines[2]
    ensures r.Ok? ==>
      && ParseInt(lines[0]) == Some(r.value.index)
      && r.value.timetuple == Strip(lines[1])
      && SplitSpeakerLine(lines[2]) == Some((r.value.speaker, r.value.text))
    ensures r == Err(BadIndex) <==> lines != [] && ParseInt(lines[0]).None?
    ensures r == Err(TruncatedBlock) <==> lines == [] || (ParseInt(lines[0]).Some? && |lines| < 3)
    ensures r == Err(MissingColon) <==> |lines| >= 3 && ParseInt(lines[0]).Some? && ':' !in lines[2]
  {
    if lines == [] then Err(TruncatedBlock)
    else match ParseInt(lines[0])
      case None => Err(BadIndex)
      case Some(index) =>
        if |lines| < 2 then Err(TruncatedBlock)
        else
          var timetuple := Strip(lines[1]);
          if |lines| < 3 then Err(TruncatedBlock)
          else match SplitSpeakerLine(lines[2])
            case None => Err(MissingColon)
            case Some((speaker, text)) => Ok(Block(index, timetuple, speaker, text))
  }

  /** How many lines `absorb` pops before it returns or raises. */
  function AbsorbConsumed(lines: seq<string>): nat
  {
    if lines == [] then 0
    else if ParseInt(lines[0]).None? then 1
    else if |lines| < 3 then |lines|
    else 3
  }

  /** A block reads at most three lines: what follows them has no influence on it. */
  lemma AbsorbReadsThreeLines(lines: seq<string>, rest: seq<string>)
    requires |lines| >= 3
    ensures AbsorbLines(lines + rest) == AbsorbLines(lines)
  {
    assert (lines + rest)[0] == lines[0] && (lines + rest)[1] == lines[1] && (lines + rest)[2] == lines[2];
  }

  /** `VttFormatBlock().absorb(infodeq)`: pops the block's lines off the shared deque. */
  method Absorb(infodeq: LineDeque) returns (r: Result<Block, ParseError>)
    modifies infodeq
    ensures r == AbsorbLines(old(infodeq.items))
    ensures infodeq.items == old(infodeq.items)[AbsorbConsumed(old(infodeq.items))..]
  {
    var indexLine := infodeq.PopLeft();
    if indexLine.None? {
      return Err(TruncatedBlock);
    }
    var index := ParseInt(indexLine.value);
    if index.None? {
      return Err(BadIndex);
    }
    var timeLine := infodeq.PopLeft();
    if timeLine.None? {
      return Err(TruncatedBlock);
    }
    var timetuple := Strip(timeLine.value);
    var infoLine := infodeq.PopLeft();
    if infoLine.None? {
      return Err(TruncatedBlock);
    }
    var infoline := Split(Strip(infoLine.value), ':');
    if |infoline| < 2 {
      return Err(MissingColon);
    }
    r := Ok(Block(index.value, timetuple, infoline[0], infoline[1]));
  }

  /** `change_speaker`: a copy of the block with the speaker looked up in the map. */
  function ChangeSpeaker(b: Block, speakermap: map<string, string>): (r: Result<Block, RemapError>)
    ensures r.Ok? <==> b.speaker in speakermap
    ensures r.Ok? ==>
      && r.value.speaker == speakermap[b.speaker]
      && r.value.index == b.index && r.value.timetuple == b.timetuple && r.value.text == b.text
    ensures r.Err? ==> r.error == UnknownSpeaker(b.speaker)
  {
    if b.speaker in speakermap then Ok(b.(speaker := speakermap[b.speaker]))
    else Err(UnknownSpeaker(b.speaker))
  }

  /** `regenerate`: the four lines written for a block. */
  function Regenerate(b: Block): (r: seq<string>)
    ensures |r| == 4 && r[1] == b.timetuple && r[3] == ""
  {
    [IntToString(b.index), b.timetuple, b.speaker + ": " + b.text, ""]
  }

  /** Blocks whose written form reads back predictably: a stripped time token,
      no colon in speaker or text, no whitespace at the outer ends of the
      speaker line, and a non-empty text. */
  predicate Reparsable(b: Block)
  {
    && Strip(b.timetuple) == b.timetuple
    && ':' !in b.speaker && ':' !in b.text
    && (b.speaker == [] || !IsSpace(b.speaker[0]))
    && b.text != [] && !IsSpace(b.text[|b.text| - 1])
  }

  /** The speaker line written for a block splits back into its speaker and
      its text with the written separator space in front. */
  lemma SplitWrittenSpeakerLine(speaker: string, text: string)
    requires ':' !in speaker && ':' !in text
    requires speaker == [] || !IsSpace(speaker[0])
    requires text != [] && !IsSpace(text[|text| - 1])
    ensures SplitSpeakerLine(speaker + ": " + text) == Some((speaker, " " + text))
  {
    var line := speaker + ": " + text;
    WrittenSpeakerLineStripped(speaker, text);
    WrittenSpeakerLineSplit(speaker, text);
    assert Split(Strip(line), ':') == [speaker, " " + text];
  }

  lemma WrittenSpeakerLineStripped(speaker: string, text: string)
    requires speaker == [] || !IsSpace(speaker[0])
    requires text != [] && !IsSpace(text[|text| - 1])
    ensures Strip(speaker + ": " + text) == speaker + ": " + text
  {
    var line := speaker + ": " + text;
    assert line[|line| - 1] == text[|text| - 1];
    assert line[0] == if speaker == [] then ':' else speaker[0];
    StripUnchanged(line);
  }

  lemma WrittenSpeakerLineSplit(speaker: string, text: string)
    requires ':' !in speaker && ':' !in text
    ensures Split(speaker + ": " + text, ':') == [speaker, " " + text]
  {
    assert speaker + ": " + text == speaker + [':'] + (" " + text);
    SplitAtFirst(speaker, " " + text, ':');
    SplitNoSeparator(" " + text, ':');
  }

  /** Reading back a written block does not give the block back: the separator
      written after the colon becomes part of the text. */
  lemma AbsorbRegenerate(b: Block)
    requires Reparsable(b)
    ensures AbsorbLines(Regenerate(b)) == Ok(b.(text := " " + b.text))
  {
    var lines := Regenerate(b);
    assert lines[0] == IntToString(b.index) && lines[1] == b.timetuple
      && lines[2] == b.speaker + ": " + b.text;
    ParseIntOfIntToString(b.index);
    SplitWrittenSpeakerLine(b.speaker, b.text);
    AbsorbWellFormed(lines);
  }

  /** A block with an empty text, as read from a speaker line ending in its
      colon, is written as `speaker: ` and reads back unchanged: the trailing
      separator space is stripped away. */
  lemma AbsorbRegenerateEmptyText(b: Block)
    requires Strip(b.timetuple) == b.timetuple
    requires ':' !in b.speaker && (b.speaker == [] || !IsSpace(b.speaker[0]))
    requires b.text == []
    ensures AbsorbLines(Regenerate(b)) == Ok(b)
  {
    var lines := Regenerate(b);
    var line := b.speaker + ":";
    assert lines[2] == line + [' '];
    StripIgnoresTrailingSpace(line, ' ');
    assert line[0] == if b.speaker == [] then ':' else b.speaker[0];
    StripUnchanged(line);
    assert line == b.speaker + [':'] + [];
    SplitAtFirst(b.speaker, [], ':');
    SplitNoSeparator([], ':');
    ParseIntOfIntToString(b.index);
    AbsorbWellFormed(lines);
  }

  /** The block read from three well-formed lines. */
  lemma AbsorbWellFormed(lines: seq<string>)
    requires |lines| >= 3 && ParseInt(lines[0]).Some? && SplitSpeakerLine(lines[2]).Some?
    ensures AbsorbLines(lines) == Ok(Block(ParseInt(lines[0]).value, Strip(lines[1]),
      SplitSpeakerLine(lines[2]).value.0, SplitSpeakerLine(lines[2]).value.1))
  {
  }
}
