/** The Python offline parser `parse_streams`: the text is stripped and cut
    at every `#`; the piece before the first `#` is dropped; each remaining
    piece that is not blank becomes one stream whose id is the first line of
    the stripped piece and whose events are decoded from the other lines. */
module PyParse {
  import opened Wrappers
  import opened Text
  import opened Events
  import opened Seqs

  /** One event line. Blank lines are dropped; otherwise the line itself,
      not stripped, is cut at commas and decoded, with a `sudo` argument
      stored in `name`. */
  function ParseLine(line: string): (r: Option<Event>)
    ensures AllSpace(PythonSpace, line) ==> r.None?
    ensures r.Some? ==> Canonical(r.value, SudoInName)
  {
    StripEmpty(PythonSpace, line);
    if Strip(PythonSpace, line) == "" then None
    else FromFields(Split(line, ','), SudoInName)
  }

  /** A line gives an event exactly when it is not blank, its first comma
      field is a known type and it has the fields that type needs; the
      event's fields are the line's first fields, extra ones ignored. */
  lemma ParseLineFields(line: string)
    ensures var parts := Split(line, ',');
            ParseLine(line).Some? <==> !AllSpace(PythonSpace, line) && KnownKind(parts[0]) && |parts| >= Arity(parts[0])
    ensures var parts := Split(line, ',');
            var r := ParseLine(line);
            r.Some? ==> r.value.kind == parts[0] && Fields(r.value, SudoInName) == parts[..Arity(parts[0])]
  {
    StripEmpty(PythonSpace, line);
  }

  /** The events of a block's lines, in line order. */
  function ParseLines(lines: seq<string>): (r: seq<Event>)
    ensures |r| <= |lines|
  {
    if lines == [] then []
    else
      var head := ParseLine(lines[0]);
      var rest := ParseLines(lines[1..]);
      if head.Some? then [head.value] + rest else rest
  }

  /** Each line contributes its own events independently of the others, so
      events follow line order. */
  lemma {:induction false} ParseLinesAppend(a: seq<string>, b: seq<string>)
    ensures ParseLines(a + b) == ParseLines(a) + ParseLines(b)
  {
    if a != [] {
      var h := ParseLine(a[0]);
      var hs := if h.Some? then [h.value] else [];
      assert (a + b)[0] == a[0];
      assert (a + b)[1..] == a[1..] + b;
      ParseLinesCons(a);
      ParseLinesCons(a + b);
      ParseLinesAppend(a[1..], b);
      Associate(hs, ParseLines(a[1..]), ParseLines(b));
    } else {
      assert a + b == b;
    }
  }

  lemma ParseLinesCons(lines: seq<string>)
    requires lines != []
    ensures var h := ParseLine(lines[0]);
            ParseLines(lines) == (if h.Some? then [h.value] else []) + ParseLines(lines[1..])
  {
  }

  /** One block between two `#`s. A blank block yields no stream; any other
      block yields a stream whose id is the first line of the stripped block,
      so the id is never empty, never starts or ends a block with whitespace,
      and holds neither a line break nor a `#`. */
  function ParseBlock(block: string): (r: Option<Stream>)
    ensures r.None? <==> AllSpace(PythonSpace, block)
    ensures r.Some? ==> && r.value.id != ""
                        && !IsSpace(PythonSpace, r.value.id[0])
                        && '\n' !in r.value.id
    ensures r.Some? && '#' !in block ==> '#' !in r.value.id
  {
    StripEmpty(PythonSpace, block);
    var b := Strip(PythonSpace, block);
    if b == "" then None
    else
      var lines := Split(b, '\n');
      StrippedLinesExclude(block, '#');
      Some(Stream(lines[0], ParseLines(lines[1..])))
  }

  /** The id is the stripped block's first line: all of it up to the first
      line break, or all of it when there is none. */
  lemma BlockIdFirstLine(block: string)
    requires !AllSpace(PythonSpace, block)
    ensures var b := Strip(PythonSpace, block);
            var id := ParseBlock(block).value.id;
            && |id| <= |b| && id == b[..|id|]
            && '\n' !in id
            && (|id| == |b| || b[|id|] == '\n')
  {
    SplitFirstPiece(Strip(PythonSpace, block), '\n');
  }

  /** A non-whitespace character absent from a block is absent from each
      line of the stripped block. */
  lemma StrippedLinesExclude(block: string, x: char)
    requires !IsSpace(PythonSpace, x)
    ensures x !in block ==>
              forall k :: 0 <= k < |Split(Strip(PythonSpace, block), '\n')| ==>
                x !in Split(Strip(PythonSpace, block), '\n')[k]
  {
    if x !in block {
      StripKeepsCount(PythonSpace, block, x);
      SplitExcludes(Strip(PythonSpace, block), '\n', x);
    }
  }

  function ParseBlocks(blocks: seq<string>): (r: seq<Stream>)
    ensures |r| <= |blocks|
  {
    if blocks == [] then []
    else
      var head := ParseBlock(blocks[0]);
      var rest := ParseBlocks(blocks[1..]);
      if head.Some? then [head.value] + rest else rest
  }

  /** `parse_streams(data)`: the stripped text cut at `#`, the piece before
      the first `#` dropped and each other piece parsed as a block; text with
      no `#` at all gives no streams. */
  function ParseStreams(data: string): (r: seq<Stream>)
    ensures '#' !in data ==> r == []
  {
    ParseBlocks(Split(Strip(PythonSpace, data), '#')[1..])
  }

  /** Text before the first `#` is dropped: parsing starts at that `#`,
      whatever comes before it. */
  lemma PreambleDropped(data: string, k: nat)
    requires k < |data| && data[k] == '#' && '#' !in data[..k]
    ensures ParseStreams(data) == ParseStreams(data[k..])
  {
    var a := LeadingSpaces(PythonSpace, data);
    StripAround(PythonSpace, data, k);
    var p := data[a..k];
    var v := Strip(PythonSpace, data[k..]);
    assert '#' !in p by {
      forall i | 0 <= i < |p| ensures p[i] != '#' {
        assert p[i] == data[..k][a + i];
      }
    }
    assert v != [] && v[0] == '#' by {
      StripEmpty(PythonSpace, data[k..]);
      assert !IsSpace(PythonSpace, data[k..][0]);
      StripSolid(PythonSpace, data[k..]);
    }
    SplitAfterPrefix(p, v, '#');
  }

  /** Pieces after a first piece that holds no separator do not depend on
      that first piece. */
  lemma SplitAfterPrefix(p: string, v: string, c: char)
    requires c !in p && v != [] && v[0] == c
    ensures Split(p + v, c)[1..] == Split(v, c)[1..]
  {
    var u := p + v;
    assert u[|p|] == c && u[..|p|] == p;
    SplitAt(u, c, |p|);
    assert u[|p| + 1..] == v[1..];
    assert v[..0] == [];
    SplitAt(v, c, 0);
  }

  /** The same, stated on the text before and after the first `#`. */
  lemma PreambleDroppedConcat(pre: string, rest: string)
    requires '#' !in pre
    ensures ParseStreams(pre + "#" + rest) == ParseStreams("#" + rest)
  {
    var data := pre + "#" + rest;
    assert data[..|pre|] == pre;
    assert data[|pre|..] == "#" + rest;
    PreambleDropped(data, |pre|);
  }

  /** Text before the first `#` is discarded and every `#`, even in the middle
      of a line, opens a block: there are never more streams than `#`s. */
  lemma StreamsAtMostHashes(data: string)
    ensures |ParseStreams(data)| <= multiset(data)['#']
  {
    StripKeepsCount(PythonSpace, data, '#');
    SplitCount(Strip(PythonSpace, data), '#');
  }

  /** Blocks are turned into streams one at a time, in order. */
  lemma {:induction false} ParseBlocksAppend(a: seq<string>, b: seq<string>)
    ensures ParseBlocks(a + b) == ParseBlocks(a) + ParseBlocks(b)
  {
    if a != [] {
      var h := ParseBlock(a[0]);
      var hs := if h.Some? then [h.value] else [];
      assert (a + b)[0] == a[0];
      assert (a + b)[1..] == a[1..] + b;
      ParseBlocksCons(a);
      ParseBlocksCons(a + b);
      ParseBlocksAppend(a[1..], b);
      Associate(hs, ParseBlocks(a[1..]), ParseBlocks(b));
    } else {
      assert a + b == b;
    }
  }

  lemma ParseBlocksCons(blocks: seq<string>)
    requires blocks != []
    ensures var h := ParseBlock(blocks[0]);
            ParseBlocks(blocks) == (if h.Some? then [h.value] else []) + ParseBlocks(blocks[1..])
  {
  }

  /** The number of blocks that are not whitespace only. */
  function NonBlank(blocks: seq<string>): nat {
    if blocks == [] then 0
    else (if AllSpace(PythonSpace, blocks[0]) then 0 else 1) + NonBlank(blocks[1..])
  }

  /** Every stream comes from a non-blank block, and every non-blank block
      gives exactly one stream. */
  lemma {:induction false} ParseBlocksCount(blocks: seq<string>)
    ensures |ParseBlocks(blocks)| == NonBlank(blocks)
    ensures (forall k :: 0 <= k < |blocks| ==> !AllSpace(PythonSpace, blocks[k]))
            ==> |ParseBlocks(blocks)| == |blocks|
    ensures (forall k :: 0 <= k < |blocks| ==> AllSpace(PythonSpace, blocks[k]))
            ==> ParseBlocks(blocks) == []
  {
    if blocks != [] {
      ParseBlocksCount(blocks[1..]);
      ParseBlocksCons(blocks);
      assert forall k :: 0 <= k < |blocks[1..]| ==> blocks[1..][k] == blocks[k + 1];
    }
  }

  /** The ids of all parsed streams are non-empty and free of `#` and line
      breaks. */
  lemma {:induction false} StreamIdsWellFormed(data: string)
    ensures forall k :: 0 <= k < |ParseStreams(data)| ==>
              var id := ParseStreams(data)[k].id;
              id != "" && '#' !in id && '\n' !in id
  {
    var pieces := Split(Strip(PythonSpace, data), '#');
    BlockIdsWellFormed(pieces[1..]);
  }

  lemma {:induction false} BlockIdsWellFormed(blocks: seq<string>)
    requires forall k :: 0 <= k < |blocks| ==> '#' !in blocks[k]
    ensures forall k :: 0 <= k < |ParseBlocks(blocks)| ==>
              var id := ParseBlocks(blocks)[k].id;
              id != "" && '#' !in id && '\n' !in id
  {
    if blocks != [] {
      assert forall k :: 0 <= k < |blocks[1..]| ==> blocks[1..][k] == blocks[k + 1];
      BlockIdsWellFormed(blocks[1..]);
    }
  }

  // ---- Writing streams as text, the inverse of parsing ----

  /** A stream that survives being written as text and parsed back. */
  predicate WritableStream(s: Stream) {
    && s.id != ""
    && '#' !in s.id && '\n' !in s.id
    && !IsSpace(PythonSpace, s.id[0])
    && !IsSpace(PythonSpace, s.id[|s.id| - 1])
    && AllWritable(s.events)
  }

  predicate AllWritable(events: seq<Event>) {
    forall k :: 0 <= k < |events| ==> Writable(events[k], SudoInName, PythonSpace)
  }

  function EventLines(events: seq<Event>): (lines: seq<string>)
    requires AllWritable(events)
    ensures |lines| == |events|
  {
    if events == [] then [] else [FormatLine(events[0], SudoInName)] + EventLines(events[1..])
  }

  /** A stream as a block: its id line, then one line per event. */
  function FormatBlock(s: Stream): string
    requires WritableStream(s)
  {
    Join([s.id] + EventLines(s.events), '\n')
  }

  function FormatBlocks(ss: seq<Stream>): (blocks: seq<string>)
    requires forall s :: s in ss ==> WritableStream(s)
    ensures |blocks| == |ss|
  {
    if ss == [] then [] else [FormatBlock(ss[0])] + FormatBlocks(ss[1..])
  }

  /** The text of several streams: each block introduced by a `#`. */
  function Format(ss: seq<Stream>): string
    requires forall s :: s in ss ==> WritableStream(s)
  {
    Join([""] + FormatBlocks(ss), '#')
  }

  /** A written event line is not blank, does not end in whitespace, has no
      `#` or line break, and parses back to its event. */
  predicate GoodLine(line: string) {
    && |line| > 0 && !IsSpace(PythonSpace, line[0])
    && !IsSpace(PythonSpace, line[|line| - 1])
    && '#' !in line && '\n' !in line
  }

  /** One written event line is a good line and parses back to the event. */
  lemma FormatLineParse(e: Event)
    requires Writable(e, SudoInName, PythonSpace)
    ensures GoodLine(FormatLine(e, SudoInName))
    ensures ParseLine(FormatLine(e, SudoInName)) == Some(e)
  {
    var line := FormatLine(e, SudoInName);
    FormatLineShape(e, SudoInName, PythonSpace);
    FormatLineRoundTrip(e, SudoInName, PythonSpace);
    assert !IsSpace(PythonSpace, line[0]) by {
      assert line[0] == e.kind[0];
    }
    StripEmpty(PythonSpace, line);
  }

  lemma {:induction false} EventLinesParse(events: seq<Event>)
    requires AllWritable(events)
    ensures ParseLines(EventLines(events)) == events
  {
    if events != [] {
      var line := FormatLine(events[0], SudoInName);
      var rest := EventLines(events[1..]);
      FormatLineParse(events[0]);
      EventLinesParse(events[1..]);
      var all := EventLines(events);
      assert all == [line] + rest;
      assert all[0] == line && all[1..] == rest;
      ParseLinesCons(all);
      assert [events[0]] + events[1..] == events;
    }
  }

  lemma {:induction false} EventLinesGood(events: seq<Event>)
    requires AllWritable(events)
    ensures forall k :: 0 <= k < |events| ==> GoodLine(EventLines(events)[k])
  {
    if events != [] {
      var line := FormatLine(events[0], SudoInName);
      var rest := EventLines(events[1..]);
      var all := EventLines(events);
      FormatLineParse(events[0]);
      EventLinesGood(events[1..]);
      assert all == [line] + rest;
      forall k | 0 <= k < |events| ensures GoodLine(all[k]) {
        if k > 0 {
          assert all[k] == rest[k - 1];
        }
      }
    }
  }

  /** The block written for a stream holds no `#`, and has no whitespace at
      either end. */
  lemma FormatBlockShape(s: Stream)
    requires WritableStream(s)
    ensures var block := FormatBlock(s);
            && '#' !in block
            && |block| > 0 && !IsSpace(PythonSpace, block[0])
            && !IsSpace(PythonSpace, block[|block| - 1])
  {
    var lines := EventLines(s.events);
    var parts := [s.id] + lines;
    EventLinesGood(s.events);
    assert forall k :: 1 <= k < |parts| ==> parts[k] == lines[k - 1];
    JoinExcludes(parts, '\n', '#');
    JoinFirst(parts, '\n');
    JoinLast(parts, '\n');
  }

  /** The block written for a stream parses back to the stream. */
  lemma FormatBlockParse(s: Stream)
    requires WritableStream(s)
    ensures var block := FormatBlock(s);
            && '#' !in block
            && |block| > 0 && !IsSpace(PythonSpace, block[|block| - 1])
            && ParseBlock(block) == Some(s)
  {
    var lines := EventLines(s.events);
    var block := FormatBlock(s);
    FormatBlockShape(s);
    StripUnchanged(PythonSpace, block);
    FormatBlockLines(s);
    EventLinesParse(s.events);
    assert ([s.id] + lines)[1..] == lines;
  }

  /** Cutting a written block at its line breaks gives its id line and its
      event lines. */
  lemma FormatBlockLines(s: Stream)
    requires WritableStream(s)
    ensures Split(FormatBlock(s), '\n') == [s.id] + EventLines(s.events)
  {
    var lines := EventLines(s.events);
    var parts := [s.id] + lines;
    EventLinesGood(s.events);
    assert forall k :: 1 <= k < |parts| ==> parts[k] == lines[k - 1];
    SplitJoin(parts, '\n');
  }

  lemma {:induction false} FormatBlocksParse(ss: seq<Stream>)
    requires forall s :: s in ss ==> WritableStream(s)
    ensures forall b :: b in FormatBlocks(ss) ==> '#' !in b
    ensures ParseBlocks(FormatBlocks(ss)) == ss
  {
    if ss != [] {
      FormatBlockParse(ss[0]);
      FormatBlocksParse(ss[1..]);
      assert FormatBlocks(ss) == [FormatBlock(ss[0])] + FormatBlocks(ss[1..]);
    }
  }

  /** Parsing the text written for well-formed streams gives the streams
      back: ids, events and their order. */
  lemma RoundTrip(ss: seq<Stream>)
    requires forall s :: s in ss ==> WritableStream(s)
    ensures ParseStreams(Format(ss)) == ss
  {
    FormatTrimmed(ss);
    FormatSplits(ss);
    FormatBlocksParse(ss);
    var blocks := FormatBlocks(ss);
    assert ([""] + blocks)[1..] == blocks;
  }

  /** The written text starts with `#` and ends with a block's last
      character, so trimming leaves it alone. */
  lemma FormatTrimmed(ss: seq<Stream>)
    requires forall s :: s in ss ==> WritableStream(s)
    ensures Strip(PythonSpace, Format(ss)) == Format(ss)
  {
    var blocks := FormatBlocks(ss);
    var parts := [""] + blocks;
    var data := Join(parts, '#');
    if ss == [] {
      assert data == "";
    } else {
      JoinCons("", blocks, '#');
      assert data[0] == '#';
      LastBlock(ss);
      assert parts[|parts| - 1] == blocks[|ss| - 1];
      JoinLast(parts, '#');
      StripUnchanged(PythonSpace, data);
    }
  }

  /** Cutting the written text at every `#` gives the empty preamble and
      then the blocks. */
  lemma FormatSplits(ss: seq<Stream>)
    requires forall s :: s in ss ==> WritableStream(s)
    ensures Split(Format(ss), '#') == [""] + FormatBlocks(ss)
  {
    var blocks := FormatBlocks(ss);
    var parts := [""] + blocks;
    FormatBlocksParse(ss);
    forall k | 0 <= k < |parts|
      ensures '#' !in parts[k]
    {
      if k > 0 {
        assert parts[k] == blocks[k - 1];
        assert parts[k] in blocks;
      }
    }
    SplitJoin(parts, '#');
  }

  lemma {:induction false} LastBlock(ss: seq<Stream>)
    requires forall s :: s in ss ==> WritableStream(s)
    requires ss != []
    ensures var b := FormatBlocks(ss)[|ss| - 1];
            |b| > 0 && !IsSpace(PythonSpace, b[|b| - 1])
  {
    var blocks := FormatBlocks(ss);
    assert blocks == [FormatBlock(ss[0])] + FormatBlocks(ss[1..]);
    if |ss| == 1 {
      FormatBlockShape(ss[0]);
    } else {
      LastBlock(ss[1..]);
      IndexAfter([FormatBlock(ss[0])], FormatBlocks(ss[1..]), |ss| - 2);
    }
  }
}
