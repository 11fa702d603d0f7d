/** A whole transcript: the header line and the blocks in file order.
    Reading it from lines, writing it back, remapping and anonymising its
    speakers, and the collapsed speaker-grouped rendering. */
module VttFile {
  import opened Wrappers
  import opened PyText
  import opened Deque
  import opened VttFormatBlock
  import opened Seqs

  datatype Transcript = Transcript(blocks: seq<Block>)

  const HEADER := "WEBVTT"

  // ---------------------------------------------------------------------------
  // Reading

  /** The blocks in the lines after the header: blank lines between blocks
      are skipped one at a time, every other line starts a block that takes
      three lines, and the first failing block fails the whole read. */
  function ParseBlocks(lines: seq<string>): (r: Result<seq<Block>, ParseError>)
    ensures r.Ok? ==> 3 * |r.value| <= |lines|
    decreases |lines|
  {
    if lines == [] then Ok([])
    else if |Strip(lines[0])| == 0 then ParseBlocks(lines[1..])
    else match AbsorbLines(lines)
      case Err(e) => Err(e)
      case Ok(b) => PrependOk([b], ParseBlocks(lines[3..]))
  }

  /** `read_from_file` on the lines of a file: the stripped first line must be
      the header, whatever follows it is blocks. */
  function Parse(lines: seq<string>): (r: Result<Transcript, ParseError>)
    ensures lines == [] ==> r == Err(EmptyFile)
    ensures r.Ok? ==> lines != [] && Strip(lines[0]) == HEADER && 3 * |r.value.blocks| < |lines|
  {
    if lines == [] then Err(EmptyFile)
    else if Strip(lines[0]) != HEADER then Err(BadHeader(Strip(lines[0])))
    else match ParseBlocks(lines[1..])
      case Err(e) => Err(e)
      case Ok(blocks) => Ok(Transcript(blocks))
  }

  /** A blank line where a block could start is dropped. */
  lemma ParseBlocksAtBlank(lines: seq<string>)
    requires lines != [] && |Strip(lines[0])| == 0
    ensures ParseBlocks(lines) == ParseBlocks(lines[1..])
  {
  }

  /** One step of block parsing at a line that is not blank. */
  lemma ParseBlocksAtBlock(lines: seq<string>)
    requires lines != [] && |Strip(lines[0])| != 0
    ensures AbsorbLines(lines).Err? ==> ParseBlocks(lines) == Err(AbsorbLines(lines).error)
    ensures AbsorbLines(lines).Ok? ==>
      && |lines| >= 3
      && ParseBlocks(lines) == PrependOk([AbsorbLines(lines).value], ParseBlocks(lines[3..]))
  {
  }

  /** The header is the literal first line: without it nothing is parsed. */
  lemma ParseNeedsHeader(lines: seq<string>)
    ensures Parse(lines).Ok? ==> lines != [] && Strip(lines[0]) == HEADER
    ensures lines != [] && Strip(lines[0]) != HEADER ==> Parse(lines) == Err(BadHeader(Strip(lines[0])))
    ensures lines == [] ==> Parse(lines) == Err(EmptyFile)
  {
  }

  /** Blank lines in front of the blocks change nothing. */
  lemma {:induction false} ParseBlocksSkipsBlankLines(blanks: seq<string>, rest: seq<string>)
    requires forall i :: 0 <= i < |blanks| ==> Strip(blanks[i]) == []
    ensures ParseBlocks(blanks + rest) == ParseBlocks(rest)
  {
    if blanks != [] {
      assert (blanks + rest)[0] == blanks[0];
      assert (blanks + rest)[1..] == blanks[1..] + rest;
      ParseBlocksSkipsBlankLines(blanks[1..], rest);
    } else {
      assert blanks + rest == rest;
    }
  }

  /** Lines that parse completely end on a block boundary: the blocks of what
      follows come after theirs, in order. */
  lemma {:induction false} ParseBlocksConcat(xs: seq<string>, ys: seq<string>)
    requires ParseBlocks(xs).Ok?
    ensures ParseBlocks(xs + ys) == PrependOk(ParseBlocks(xs).value, ParseBlocks(ys))
    decreases |xs|
  {
    var zs := xs + ys;
    if xs == [] {
      assert zs == ys;
      match ParseBlocks(ys)
      case Err(e) =>
      case Ok(more) => assert [] + more == more;
    } else if |Strip(xs[0])| == 0 {
      assert ParseBlocks(zs) == ParseBlocks(xs[1..] + ys) by {
        DropOfConcat(xs, ys, 1);
        ParseBlocksAtBlank(zs);
      }
      ParseBlocksAtBlank(xs);
      ParseBlocksConcat(xs[1..], ys);
    } else {
      var b := AbsorbLines(xs).value;
      assert |xs| >= 3 && ParseBlocks(xs) == PrependOk([b], ParseBlocks(xs[3..])) by {
        ParseBlocksAtBlock(xs);
      }
      assert ParseBlocks(zs) == PrependOk([b], ParseBlocks(xs[3..] + ys)) by {
        DropOfConcat(xs, ys, 3);
        AbsorbReadsThreeLines(xs, ys);
        ParseBlocksAtBlock(zs);
      }
      ParseBlocksConcat(xs[3..], ys);
      PrependTwice([b], ParseBlocks(xs[3..]).value, ParseBlocks(ys));
    }
  }

  lemma DropOfConcat(xs: seq<string>, ys: seq<string>, k: nat)
    requires k <= |xs| && xs != []
    ensures (xs + ys)[0] == xs[0] && (xs + ys)[k..] == xs[k..] + ys
  {
  }

  /** The loop step of the reader that absorbs one block. */
  lemma AbsorbStep(done: Result<seq<Block>, ParseError>, blocks: seq<Block>, items: seq<string>)
    requires items != [] && |Strip(items[0])| != 0 && AbsorbLines(items).Ok?
    requires done == PrependOk(blocks, ParseBlocks(items))
    ensures |items| >= 3
    ensures done == PrependOk(blocks + [AbsorbLines(items).value], ParseBlocks(items[3..]))
  {
    ParseBlocksAtBlock(items);
    PrependTwice(blocks, [AbsorbLines(items).value], ParseBlocks(items[3..]));
  }

  /** A block cut short by the end of the input fails the read, even after
      blocks that parsed. */
  lemma TruncatedTailFails(xs: seq<string>, tail: seq<string>)
    requires ParseBlocks(xs).Ok?
    requires 0 < |tail| < 3 && Strip(tail[0]) != [] && ParseInt(tail[0]).Some?
    ensures ParseBlocks(xs + tail) == Err(TruncatedBlock)
  {
    ParseBlocksConcat(xs, tail);
  }

  /** `read_from_file` once the file has been read into a deque of lines:
      pop and check the header, then, while lines remain, drop a blank one
      or absorb a block. */
  method ReadFromLines(lines: seq<string>) returns (r: Result<Transcript, ParseError>)
    ensures r == Parse(lines)
  {
    var vdeq := new LineDeque(lines);
    var first := vdeq.PopLeft();
    if first.None? {
      return Err(EmptyFile);
    }
    var header := Strip(first.value);
    if header != HEADER {
      return Err(BadHeader(header));
    }
    var blocks: seq<Block> := [];
    assert vdeq.items == lines[1..];
    PrependNothing(ParseBlocks(vdeq.items));
    while !vdeq.IsEmpty()
      invariant ParseBlocks(lines[1..]) == PrependOk(blocks, ParseBlocks(vdeq.items))
      decreases |vdeq.items|
    {
      if |Strip(vdeq.Front())| == 0 {
        ghost var before := vdeq.items;
        ParseBlocksAtBlank(before);
        var blank := vdeq.PopLeft();
        assert vdeq.items == before[1..];
        continue;
      }
      ghost var before := vdeq.items;
      ParseBlocksAtBlock(before);
      var block := Absorb(vdeq);
      if block.Err? {
        assert ParseBlocks(lines[1..]) == Err(block.error);
        return Err(block.error);
      }
      AbsorbStep(ParseBlocks(lines[1..]), blocks, before);
      blocks := blocks + [block.value];
    }
    assert blocks + [] == blocks;
    assert ParseBlocks(lines[1..]) == Ok(blocks);
    r := Ok(Transcript(blocks));
  }

  // ---------------------------------------------------------------------------
  // Writing

  /** The lines written for the blocks, four per block, in order. */
  function RegenerateAll(blocks: seq<Block>): (r: seq<string>)
    ensures |r| == 4 * |blocks|
  {
    if blocks == [] then []
    else RegenerateAll(blocks[..|blocks| - 1]) + Regenerate(blocks[|blocks| - 1])
  }

  /** Block `k` is written on lines `4k` to `4k + 3`. */
  lemma {:induction false} RegenerateAllAt(blocks: seq<Block>, k: nat)
    requires k < |blocks|
    ensures RegenerateAll(blocks)[4 * k..4 * k + 4] == Regenerate(blocks[k])
  {
    var front, last := blocks[..|blocks| - 1], blocks[|blocks| - 1];
    var written, lines := RegenerateAll(front), Regenerate(last);
    assert RegenerateAll(blocks) == written + lines;
    if k < |front| {
      RegenerateAllAt(front, k);
      assert front[k] == blocks[k];
      SliceOfAppendLeft(written, lines, 4 * k, 4 * k + 4);
    } else {
      assert k == |front| && |written| == 4 * k;
      SliceOfAppendRight(written, lines, 4 * k, 4 * k + 4);
      assert lines[0..4] == lines;
    }
  }

  lemma RegenerateAllSnoc(blocks: seq<Block>, i: nat)
    requires i < |blocks|
    ensures RegenerateAll(blocks[..i + 1]) == RegenerateAll(blocks[..i]) + Regenerate(blocks[i])
  {
    assert blocks[..i + 1][..i] == blocks[..i];
  }

  /** The whole file as `gen_file_lines` yields it. */
  function FileLines(t: Transcript): (r: seq<string>)
    ensures |r| == 2 + 4 * |t.blocks| && r[..2] == [HEADER, ""]
  {
    [HEADER, ""] + RegenerateAll(t.blocks)
  }

  /** The header, a blank line, then four lines per block in block order. */
  lemma FileLinesLayout(t: Transcript)
    ensures var lines := FileLines(t);
      && |lines| == 2 + 4 * |t.blocks| && lines[..2] == [HEADER, ""]
      && forall k :: 0 <= k < |t.blocks| ==> lines[2 + 4 * k..6 + 4 * k] == Regenerate(t.blocks[k])
  {
    var lines := FileLines(t);
    forall k | 0 <= k < |t.blocks|
      ensures lines[2 + 4 * k..6 + 4 * k] == Regenerate(t.blocks[k])
    {
      RegenerateAllAt(t.blocks, k);
      SliceOfAppendRight([HEADER, ""], RegenerateAll(t.blocks), 2 + 4 * k, 6 + 4 * k);
    }
  }

  /** `gen_file_lines`: the header, a blank line, then each block's four lines. */
  method GenFileLines(t: Transcript) returns (lines: seq<string>)
    ensures lines == FileLines(t)
  {
    lines := [HEADER, ""];
    for i := 0 to |t.blocks|
      invariant lines == [HEADER, ""] + RegenerateAll(t.blocks[..i])
    {
      RegenerateAllSnoc(t.blocks, i);
      AppendAssoc([HEADER, ""], RegenerateAll(t.blocks[..i]), Regenerate(t.blocks[i]));
      lines := lines + Regenerate(t.blocks[i]);
    }
    assert t.blocks[..|t.blocks|] == t.blocks;
  }

  // ---------------------------------------------------------------------------
  // Collapsed rendering

  /** Two blank lines and the `speaker:` line that open a run. */
  function SpeakerHeader(speaker: string): seq<string>
  {
    ["", "", speaker + ":"]
  }

  /** The collapsed lines for `blocks` when the speaker heard last is `last`:
      a speaker change brings two blank lines and a `speaker:` header, and
      every block brings its stripped text. */
  function CollapsedFrom(blocks: seq<Block>, last: Option<string>): (r: seq<string>)
    ensures |blocks| <= |r| <= 4 * |blocks|
  {
    if blocks == [] then []
    else
      var b := blocks[0];
      (if last != Some(b.speaker) then SpeakerHeader(b.speaker) else [])
      + [Strip(b.text)]
      + CollapsedFrom(blocks[1..], Some(b.speaker))
  }

  predicate SameSpeaker(run: seq<Block>)
  {
    forall j :: 0 <= j < |run| ==> run[j].speaker == run[0].speaker
  }

  function Flatten(runs: seq<seq<Block>>): seq<Block>
  {
    if runs == [] then [] else runs[0] + Flatten(runs[1..])
  }

  /** The maximal runs of consecutive blocks by one speaker, in order. */
  function Runs(blocks: seq<Block>): (runs: seq<seq<Block>>)
    ensures Flatten(runs) == blocks
    ensures forall k :: 0 <= k < |runs| ==> runs[k] != [] && SameSpeaker(runs[k])
    ensures forall j, k :: 0 <= j && j + 1 == k < |runs| ==> runs[j][0].speaker != runs[k][0].speaker
    ensures blocks != [] ==> runs != [] && runs[0][0] == blocks[0]
  {
    if blocks == [] then []
    else
      var b, rest := blocks[0], Runs(blocks[1..]);
      assert Flatten(rest) == blocks[1..];
      if rest != [] && rest[0][0].speaker == b.speaker then
        var runs := [[b] + rest[0]] + rest[1..];
        assert runs[1..] == rest[1..];
        assert Flatten(rest) == rest[0] + Flatten(rest[1..]);
        assert blocks == [b] + blocks[1..];
        runs
      else
        var runs := [[b]] + rest;
        assert runs[1..] == rest;
        assert blocks == [b] + blocks[1..];
        runs
  }

  /** The stripped texts of a run, one line per block. */
  function Texts(run: seq<Block>): (r: seq<string>)
    ensures |r| == |run|
  {
    if run == [] then [] else [Strip(run[0].text)] + Texts(run[1..])
  }

  /** Each run rendered as two blank lines, its speaker's header, then its texts. */
  function RenderRuns(runs: seq<seq<Block>>): seq<string>
    requires forall k :: 0 <= k < |runs| ==> runs[k] != []
  {
    if runs == [] then []
    else SpeakerHeader(runs[0][0].speaker) + Texts(runs[0]) + RenderRuns(runs[1..])
  }

  /** Three header lines per run and one text line per block. */
  lemma {:induction false} RenderRunsLength(runs: seq<seq<Block>>)
    requires forall k :: 0 <= k < |runs| ==> runs[k] != []
    ensures |RenderRuns(runs)| == |Flatten(runs)| + 3 * |runs|
  {
    if runs != [] {
      RenderRunsLength(runs[1..]);
    }
  }

  lemma CollapsedFromFirst(blocks: seq<Block>, last: Option<string>)
    requires blocks != []
    ensures CollapsedFrom(blocks, last) ==
      (if last != Some(blocks[0].speaker) then SpeakerHeader(blocks[0].speaker) else [])
      + ([Strip(blocks[0].text)] + CollapsedFrom(blocks[1..], Some(blocks[0].speaker)))
  {
  }

  lemma RenderRunsFirst(runs: seq<seq<Block>>)
    requires runs != [] && forall k :: 0 <= k < |runs| ==> runs[k] != []
    ensures RenderRuns(runs) == SpeakerHeader(runs[0][0].speaker) + (Texts(runs[0]) + RenderRuns(runs[1..]))
  {
  }

  /** A block by the speaker of the next one joins that block's run. */
  lemma RunsJoin(blocks: seq<Block>)
    requires |blocks| >= 2 && blocks[1].speaker == blocks[0].speaker
    ensures var rest := Runs(blocks[1..]);
      rest != [] && Runs(blocks) == [[blocks[0]] + rest[0]] + rest[1..]
  {
  }

  /** A block by another speaker than the next one is a run of its own. */
  lemma RunsAlone(blocks: seq<Block>)
    requires blocks != [] && (|blocks| == 1 || blocks[1].speaker != blocks[0].speaker)
    ensures Runs(blocks) == [[blocks[0]]] + Runs(blocks[1..])
  {
  }

  /** Rendering block by block with a last-speaker variable is rendering run by run. */
  lemma {:induction false} CollapsedFromRuns(blocks: seq<Block>, last: Option<string>)
    ensures var runs := Runs(blocks);
      CollapsedFrom(blocks, last) ==
        if blocks != [] && last == Some(blocks[0].speaker)
        then Texts(runs[0]) + RenderRuns(runs[1..])
        else RenderRuns(runs)
    decreases |blocks|, 1
  {
    if blocks != [] {
      CollapsedFirstRun(blocks);
      CollapsedFromFirst(blocks, last);
      RenderRunsFirst(Runs(blocks));
    }
  }

  /** After its header, the first run renders as what follows the first block's header. */
  lemma {:induction false} CollapsedFirstRun(blocks: seq<Block>)
    requires blocks != []
    ensures var runs := Runs(blocks);
      Texts(runs[0]) + RenderRuns(runs[1..])
        == [Strip(blocks[0].text)] + CollapsedFrom(blocks[1..], Some(blocks[0].speaker))
    decreases |blocks|, 0
  {
    var b, rest := blocks[0], blocks[1..];
    var restRuns: seq<seq<Block>> := Runs(rest);
    CollapsedFromRuns(rest, Some(b.speaker));
    if |blocks| >= 2 && blocks[1].speaker == b.speaker {
      RunsJoin(blocks);
      FirstRunJoined(b, restRuns);
    } else {
      RunsAlone(blocks);
      FirstRunAlone(b, restRuns);
    }
  }

  lemma FirstRunJoined(b: Block, runs: seq<seq<Block>>)
    requires runs != [] && forall k :: 0 <= k < |runs| ==> runs[k] != []
    ensures var joined := [[b] + runs[0]] + runs[1..];
      Texts(joined[0]) + RenderRuns(joined[1..]) == [Strip(b.text)] + (Texts(runs[0]) + RenderRuns(runs[1..]))
  {
    var joined := [[b] + runs[0]] + runs[1..];
    assert joined[1..] == runs[1..];
    assert joined[0] == [b] + runs[0];
    TextsCons(b, runs[0]);
    AppendAssoc3([], [Strip(b.text)], Texts(runs[0]), RenderRuns(runs[1..]));
  }

  lemma TextsCons(b: Block, run: seq<Block>)
    ensures Texts([b] + run) == [Strip(b.text)] + Texts(run)
  {
    assert ([b] + run)[1..] == run;
  }

  lemma TextsOne(b: Block)
    ensures Texts([b]) == [Strip(b.text)]
  {
    assert [b][1..] == [];
  }

  lemma FirstRunAlone(b: Block, runs: seq<seq<Block>>)
    requires forall k :: 0 <= k < |runs| ==> runs[k] != []
    ensures var alone := [[b]] + runs;
      Texts(alone[0]) + RenderRuns(alone[1..]) == [Strip(b.text)] + RenderRuns(runs)
  {
    var alone := [[b]] + runs;
    assert alone[1..] == runs;
    assert alone[0] == [b];
    TextsOne(b);
  }

  /** The collapsed form is the runs rendered in order: as many headers as
      there are maximal same-speaker runs, and one text line per block. */
  lemma CollapsedByRuns(blocks: seq<Block>)
    ensures CollapsedFrom(blocks, None) == RenderRuns(Runs(blocks))
    ensures |CollapsedFrom(blocks, None)| == |blocks| + 3 * |Runs(blocks)|
  {
    CollapsedFromRuns(blocks, None);
    RenderRunsLength(Runs(blocks));
  }

  /** The loop step of `gen_collapsed_form` for block `i`. */
  lemma CollapsedStep(blocks: seq<Block>, i: nat, last: Option<string>, lines: seq<string>)
    requires i < |blocks|
    requires lines + CollapsedFrom(blocks[i..], last) == CollapsedFrom(blocks, None)
    ensures var sp := blocks[i].speaker;
      (lines + (if last != Some(sp) then SpeakerHeader(sp) else []) + [Strip(blocks[i].text)])
        + CollapsedFrom(blocks[i + 1..], Some(sp)) == CollapsedFrom(blocks, None)
  {
    var sp := blocks[i].speaker;
    var head := if last != Some(sp) then SpeakerHeader(sp) else [];
    var text := [Strip(blocks[i].text)];
    var tail := CollapsedFrom(blocks[i + 1..], Some(sp));
    assert CollapsedFrom(blocks[i..], last) == head + (text + tail) by {
      assert blocks[i..][0] == blocks[i] && blocks[i..][1..] == blocks[i + 1..];
      CollapsedFromFirst(blocks[i..], last);
    }
    AppendAssoc3(lines, head, text, tail);
  }

  /** `gen_collapsed_form`: one header per maximal same-speaker run, one
      stripped text line per block, and no index or time lines. */
  method GenCollapsedForm(t: Transcript) returns (lines: seq<string>)
    ensures lines == RenderRuns(Runs(t.blocks))
    ensures |lines| == |t.blocks| + 3 * |Runs(t.blocks)|
  {
    var lastspeaker: Option<string> := None;
    lines := [];
    for i := 0 to |t.blocks|
      invariant lines + CollapsedFrom(t.blocks[i..], lastspeaker) == CollapsedFrom(t.blocks, None)
    {
      var block := t.blocks[i];
      ghost var before, last := lines, lastspeaker;
      ghost var head := if last != Some(block.speaker) then SpeakerHeader(block.speaker) else [];
      if Some(block.speaker) != lastspeaker {
        lines := lines + SpeakerHeader(block.speaker);
        lastspeaker := Some(block.speaker);
      }
      assert lines == before + head && lastspeaker == Some(block.speaker);
      lines := lines + [Strip(block.text)];
      CollapsedStep(t.blocks, i, last, before);
    }
    assert lines == CollapsedFrom(t.blocks, None) by {
      assert t.blocks[|t.blocks|..] == [];
      assert lines + [] == lines;
    }
    CollapsedByRuns(t.blocks);
  }

  // ---------------------------------------------------------------------------
  // Speakers

  /** The blocks with every speaker looked up in the map, failing at the
      first block whose speaker has no entry. */
  function RemapBlocks(blocks: seq<Block>, speakermap: map<string, string>): (r: Result<seq<Block>, RemapError>)
    ensures r.Ok? <==> forall i :: 0 <= i < |blocks| ==> blocks[i].speaker in speakermap
    ensures r.Ok? ==>
      && |r.value| == |blocks|
      && forall i :: 0 <= i < |blocks| ==> r.value[i] == blocks[i].(speaker := speakermap[blocks[i].speaker])
    ensures r.Err? ==>
      exists k :: && 0 <= k < |blocks| && blocks[k].speaker !in speakermap
                  && r.error == UnknownSpeaker(blocks[k].speaker)
                  && forall j :: 0 <= j < k ==> blocks[j].speaker in speakermap
  {
    if blocks == [] then Ok([])
    else match ChangeSpeaker(blocks[0], speakermap)
      case Err(e) => Err(e)
      case Ok(b) =>
        var rest := RemapBlocks(blocks[1..], speakermap);
        if rest.Err? then
          ghost var k :| 0 <= k < |blocks| - 1 && blocks[1..][k].speaker !in speakermap
            && rest.error == UnknownSpeaker(blocks[1..][k].speaker)
            && forall j :: 0 <= j < k ==> blocks[1..][j].speaker in speakermap;
          assert blocks[k + 1] == blocks[1..][k];
          Err(rest.error)
        else Ok([b] + rest.value)
  }

  /** The speakers of a transcript's blocks, as a set. */
  function GetSpeakerSet(t: Transcript): (s: set<string>)
    ensures forall i :: 0 <= i < |t.blocks| ==> t.blocks[i].speaker in s
    ensures forall sp :: sp in s ==> exists i :: 0 <= i < |t.blocks| && t.blocks[i].speaker == sp
  {
    set i | 0 <= i < |t.blocks| :: t.blocks[i].speaker
  }

  /** `remap_speaker`: a new transcript whose blocks are the old ones with
      their speakers looked up in the map. The old transcript is a value and
      is left as it was. */
  function RemapSpeaker(t: Transcript, speakermap: map<string, string>): (r: Result<Transcript, RemapError>)
    ensures r.Ok? <==> GetSpeakerSet(t) <= speakermap.Keys
    ensures r.Ok? ==>
      && |r.value.blocks| == |t.blocks|
      && forall i :: 0 <= i < |t.blocks| ==>
           r.value.blocks[i] == t.blocks[i].(speaker := speakermap[t.blocks[i].speaker])
    ensures r.Err? ==> exists sp :: sp in GetSpeakerSet(t) && sp !in speakermap && r.error == UnknownSpeaker(sp)
  {
    match RemapBlocks(t.blocks, speakermap)
    case Err(e) => Err(e)
    case Ok(blocks) => Ok(Transcript(blocks))
  }

  /** After a remapping, the speakers are the images of the old speakers. */
  lemma RemapSpeakerSet(t: Transcript, speakermap: map<string, string>)
    requires RemapSpeaker(t, speakermap).Ok?
    ensures GetSpeakerSet(RemapSpeaker(t, speakermap).value)
      == set sp | sp in GetSpeakerSet(t) :: speakermap[sp]
  {
    var u := RemapSpeaker(t, speakermap).value;
    SpeakerImage(t, u, speakermap);
  }

  lemma SpeakerImage(t: Transcript, u: Transcript, speakermap: map<string, string>)
    requires |u.blocks| == |t.blocks|
    requires forall i :: 0 <= i < |t.blocks| ==>
      t.blocks[i].speaker in speakermap && u.blocks[i].speaker == speakermap[t.blocks[i].speaker]
    ensures GetSpeakerSet(u) == set sp | sp in GetSpeakerSet(t) :: speakermap[sp]
  {
    var image := set sp | sp in GetSpeakerSet(t) :: speakermap[sp];
    forall x | x in GetSpeakerSet(u)
      ensures x in image
    {
      var i :| 0 <= i < |u.blocks| && u.blocks[i].speaker == x;
      var sp := t.blocks[i].speaker;
      assert sp in GetSpeakerSet(t) && x == speakermap[sp];
    }
    forall x | x in image
      ensures x in GetSpeakerSet(u)
    {
      var sp :| sp in GetSpeakerSet(t) && speakermap[sp] == x;
      var i :| 0 <= i < |t.blocks| && t.blocks[i].speaker == sp;
      assert u.blocks[i].speaker == x;
    }
  }

  // ---------------------------------------------------------------------------
  // Anonymising

  const ASCII_UPPERCASE: string := "ABCDEFGHIJKLMNOPQRSTUVWXYZ"

  /** The letter `idx` places after 'A'. */
  function Letter(idx: nat): char
    requires idx < 26
  {
    ('A' as int + idx) as char
  }

  /** "Speaker " and the letter of position `idx`. */
  function Label(idx: nat): string
    requires idx < 26
  {
    "Speaker " + [Letter(idx)]
  }

  /** `partname` inside `anonymize`: "Speaker " and the idx-th uppercase letter;
      the assertion fails from the 27th speaker on. */
  function PartName(idx: nat): (r: Result<string, RemapError>)
    ensures r.Ok? <==> idx < 26
    ensures r.Ok? ==> r.value == Label(idx)
    ensures r.Err? ==> r.error == TooManySpeakers
  {
    if idx < 26 then
      assert ASCII_UPPERCASE[idx] == Letter(idx);
      Ok("Speaker " + [ASCII_UPPERCASE[idx]])
    else Err(TooManySpeakers)
  }

  /** Different positions get different labels. */
  lemma LabelInjective(p: nat, q: nat)
    requires p < 26 && q < 26
    ensures Label(p) == Label(q) <==> p == q
  {
    if Label(p) == Label(q) {
      assert Label(p)[8] == Label(q)[8];
    }
  }

  predicate Distinct(order: seq<string>)
  {
    forall i, j :: 0 <= i < j < |order| ==> order[i] != order[j]
  }

  /** `order` lists every element of `s` exactly once: one iteration order of the set. */
  predicate Enumerates(order: seq<string>, s: set<string>)
  {
    Distinct(order) && (set x | x in order) == s
  }

  /** The position of `x` in a sequence that holds it. */
  function IndexOf(order: seq<string>, x: string): (i: nat)
    requires x in order
    ensures i < |order| && order[i] == x
    ensures forall j :: 0 <= j < i ==> order[j] != x
  {
    if order[0] == x then 0 else 1 + IndexOf(order[1..], x)
  }

  /** An enumeration of a set is as long as the set is large. */
  lemma {:induction false} EnumerationSize(order: seq<string>, s: set<string>)
    requires Enumerates(order, s)
    ensures |order| == |s|
  {
    if order != [] {
      var last := order[|order| - 1];
      var front := order[..|order| - 1];
      assert (set x | x in front) == s - {last} by {
        forall x | x in front ensures x != last {
          var i :| 0 <= i < |front| && front[i] == x;
        }
        assert forall x :: x in order <==> x in front || x == last;
      }
      EnumerationSize(front, s - {last});
    }
  }

  /** The dict comprehension of `anonymize` over the enumeration `order`:
      each speaker maps to the label of its position, evaluated in order, so
      the 27th speaker makes it fail. */
  function BuildSpeakerMap(order: seq<string>): (r: Result<map<string, string>, RemapError>)
    ensures r.Ok? <==> |order| <= 26
    ensures r.Err? ==> r.error == TooManySpeakers
    ensures r.Ok? ==> r.value.Keys == set x | x in order
  {
    if order == [] then Ok(map[])
    else match BuildSpeakerMap(order[..|order| - 1])
      case Err(e) => Err(e)
      case Ok(m) =>
        match PartName(|order| - 1)
        case Err(e) => Err(e)
        case Ok(name) =>
          assert order == order[..|order| - 1] + [order[|order| - 1]];
          Ok(m[order[|order| - 1] := name])
  }

  /** In a map built from a duplicate-free enumeration, every speaker gets the
      label of its own position. */
  lemma {:induction false} BuildSpeakerMapLabels(order: seq<string>)
    requires Distinct(order) && BuildSpeakerMap(order).Ok?
    ensures forall i :: 0 <= i < |order| ==> BuildSpeakerMap(order).value[order[i]] == Label(i)
  {
    if order != [] {
      var front := order[..|order| - 1];
      BuildSpeakerMapLabels(front);
      forall i | 0 <= i < |order|
        ensures BuildSpeakerMap(order).value[order[i]] == Label(i)
      {
        if i < |front| {
          assert front[i] == order[i] != order[|order| - 1];
        }
      }
    }
  }

  /** `anonymize`, with `order` the iteration order of `get_speaker_set()`:
      every speaker is replaced by "Speaker " and the letter of its position. */
  function Anonymize(t: Transcript, order: seq<string>): (r: Result<Transcript, RemapError>)
    requires Enumerates(order, GetSpeakerSet(t))
    ensures r.Ok? <==> |GetSpeakerSet(t)| <= 26
    ensures r.Err? ==> r.error == TooManySpeakers
    ensures r.Ok? ==>
      && |order| <= 26 && |r.value.blocks| == |t.blocks|
      && forall i :: 0 <= i < |t.blocks| ==>
           var b := t.blocks[i];
           r.value.blocks[i] == b.(speaker := Label(IndexOf(order, b.speaker)))
  {
    EnumerationSize(order, GetSpeakerSet(t));
    match BuildSpeakerMap(order)
    case Err(e) => Err(e)
    case Ok(m) =>
      BuildSpeakerMapLabels(order);
      RemapSpeaker(t, m)
  }

  /** Two blocks get the same label exactly when they had the same speaker. */
  lemma AnonymizeKeepsWhoSpoke(t: Transcript, order: seq<string>, i: nat, j: nat)
    requires Enumerates(order, GetSpeakerSet(t)) && Anonymize(t, order).Ok?
    requires i < |t.blocks| && j < |t.blocks|
    ensures var u := Anonymize(t, order).value;
      u.blocks[i].speaker == u.blocks[j].speaker <==> t.blocks[i].speaker == t.blocks[j].speaker
  {
    var u := Anonymize(t, order).value;
    var a, b := t.blocks[i].speaker, t.blocks[j].speaker;
    assert u.blocks[i].speaker == Label(IndexOf(order, a));
    assert u.blocks[j].speaker == Label(IndexOf(order, b));
    LabelInjective(IndexOf(order, a), IndexOf(order, b));
  }

  /** The speakers in order of first appearance: one concrete iteration order. */
  function FirstAppearance(blocks: seq<Block>): (order: seq<string>)
    ensures |order| <= |blocks|
  {
    if blocks == [] then []
    else
      var front := FirstAppearance(blocks[..|blocks| - 1]);
      var sp := blocks[|blocks| - 1].speaker;
      if sp in front then front else front + [sp]
  }

  /** The first-appearance order lists the speaker set exactly once each. */
  lemma {:induction false} FirstAppearanceEnumerates(blocks: seq<Block>)
    ensures Enumerates(FirstAppearance(blocks), GetSpeakerSet(Transcript(blocks)))
    decreases |blocks|
  {
    if blocks != [] {
      var init := blocks[..|blocks| - 1];
      var sp := blocks[|blocks| - 1].speaker;
      FirstAppearanceEnumerates(init);
      assert GetSpeakerSet(Transcript(blocks)) == GetSpeakerSet(Transcript(init)) + {sp} by {
        assert forall i :: 0 <= i < |blocks| - 1 ==> init[i] == blocks[i];
      }
    }
  }

  /** Reading more blocks only adds speakers at the end: the order for any
      prefix of the blocks is a prefix of the order for all of them. With
      `Enumerates`, the speakers of the first k blocks are exactly the first
      entries of the order, so speakers are listed by first appearance. */
  lemma {:induction false} FirstAppearancePrefix(blocks: seq<Block>, k: nat)
    requires k <= |blocks|
    ensures FirstAppearance(blocks[..k]) <= FirstAppearance(blocks)
    decreases |blocks|
  {
    if k < |blocks| {
      var n := |blocks| - 1;
      var init := blocks[..n];
      assert init[..k] == blocks[..k];
      FirstAppearancePrefix(init, k);
      FirstAppearanceGrows(blocks);
      PrefixTransitive(FirstAppearance(blocks[..k]), FirstAppearance(init), FirstAppearance(blocks));
    } else {
      assert blocks[..k] == blocks;
    }
  }

  lemma FirstAppearanceGrows(blocks: seq<Block>)
    requires blocks != []
    ensures FirstAppearance(blocks[..|blocks| - 1]) <= FirstAppearance(blocks)
  {
  }

  /** The speakers of the first k blocks are exactly the leading entries of the
      first-appearance order, each once: a speaker is listed before every
      speaker who first speaks later. */
  lemma FirstAppearanceOrder(blocks: seq<Block>, k: nat)
    requires k <= |blocks|
    ensures var n := |FirstAppearance(blocks[..k])|;
      n <= |FirstAppearance(blocks)|
      && Enumerates(FirstAppearance(blocks)[..n], GetSpeakerSet(Transcript(blocks[..k])))
  {
    FirstAppearancePrefix(blocks, k);
    FirstAppearanceEnumerates(blocks[..k]);
  }
}
