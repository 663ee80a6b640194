/** The Go offline parser (`parseEvent` and `ParseStreams`), over the lines a
    scanner yields. Every line is trimmed; a trimmed line starting with
    `#stream-` opens a new stream named by the line without its `#`; lines
    before the first such header are ignored; every other line is decoded as
    an event of the open stream, and undecodable lines are dropped. */
module GoParse {
  import opened Wrappers
  import opened Text
  import opened Events
  import opened Seqs

  const HeaderPrefix: string := "#stream-"

  /** `parseEvent`: a line that is empty after trimming, or whose trimmed
      comma-separated fields do not decode, gives nothing; a `sudo` argument
      is stored in `Passwd`. */
  function ParseEvent(line: string): (r: Option<Event>)
    ensures AllSpace(GoSpace, line) ==> r.None?
    ensures r.Some? ==> Canonical(r.value, SudoInPasswd)
  {
    StripEmpty(GoSpace, line);
    var t := Strip(GoSpace, line);
    if t == "" then None else FromFields(Split(t, ','), SudoInPasswd)
  }

  /** A line gives an event exactly when it is not blank, the first comma
      field of the trimmed line is a known type and it has the fields that
      type needs; the event's fields are those first fields, extra ones
      ignored. */
  lemma ParseEventFields(line: string)
    ensures var parts := Split(Strip(GoSpace, line), ',');
            ParseEvent(line).Some? <==> !AllSpace(GoSpace, line) && KnownKind(parts[0]) && |parts| >= Arity(parts[0])
    ensures var parts := Split(Strip(GoSpace, line), ',');
            var r := ParseEvent(line);
            r.Some? ==> r.value.kind == parts[0] && Fields(r.value, SudoInPasswd) == parts[..Arity(parts[0])]
  {
    StripEmpty(GoSpace, line);
  }

  predicate IsHeader(line: string) {
    HasPrefix(Strip(GoSpace, line), HeaderPrefix)
  }

  /** The stream id a header line gives: the trimmed line minus its `#`. */
  function HeaderId(line: string): (id: string)
    requires IsHeader(line)
    ensures HasPrefix(id, "stream-")
    ensures HeaderPrefix[..1] + id == Strip(GoSpace, line)
  {
    var t := Strip(GoSpace, line);
    assert t[..|HeaderPrefix|] == HeaderPrefix;
    assert t[1..][..7] == t[1..8];
    assert t == t[..1] + t[1..];
    t[1..]
  }

  /** The events of the lines up to the next header, in order. */
  function Body(lines: seq<string>): (r: seq<Event>)
    ensures |r| <= |lines|
  {
    if lines == [] || IsHeader(lines[0]) then []
    else
      var e := ParseEvent(Strip(GoSpace, lines[0]));
      var rest := Body(lines[1..]);
      if e.Some? then [e.value] + rest else rest
  }

  function HeaderCount(lines: seq<string>): nat {
    if lines == [] then 0
    else (if IsHeader(lines[0]) then 1 else 0) + HeaderCount(lines[1..])
  }

  /** What `ParseStreams` returns, stated declaratively: every header line
      gives one stream, named by the header, whose events are those of the
      lines up to the next header; all other lines belong to a preceding
      header's body or, before the first header, to nothing. */
  function Streams(lines: seq<string>): (r: seq<Stream>)
    ensures |r| == HeaderCount(lines)
  {
    if lines == [] then []
    else if IsHeader(lines[0]) then [Stream(HeaderId(lines[0]), Body(lines[1..]))] + Streams(lines[1..])
    else Streams(lines[1..])
  }

  /** One stream per header line, each named `stream-...`. */
  lemma {:induction false} StreamsPerHeader(lines: seq<string>)
    ensures |Streams(lines)| == HeaderCount(lines)
    ensures forall k :: 0 <= k < |Streams(lines)| ==> HasPrefix(Streams(lines)[k].id, "stream-")
  {
    if lines != [] {
      StreamsPerHeader(lines[1..]);
    }
  }

  /** What is still to be emitted for the open stream (if any) once the
      remaining lines are read. */
  function Pending(current: Option<Stream>, rest: seq<string>): seq<Stream> {
    match current
    case None => Streams(rest)
    case Some(s) => [Stream(s.id, s.events + Body(rest))] + Streams(rest)
  }

  /** A line that is not a header adds its decoded event, if any, to the
      open stream's body and opens no stream. */
  lemma EventLineCons(line: string, rest: seq<string>)
    requires !IsHeader(line)
    ensures Body([line] + rest) == match ParseEvent(Strip(GoSpace, line))
                                   case Some(e) => [e] + Body(rest)
                                   case None => Body(rest)
    ensures Streams([line] + rest) == Streams(rest)
  {
    assert ([line] + rest)[0] == line;
    assert ([line] + rest)[1..] == rest;
  }

  /** A header line opens a stream whose body is what follows it. */
  lemma HeaderLineCons(line: string, rest: seq<string>)
    requires IsHeader(line)
    ensures Body([line] + rest) == []
    ensures Streams([line] + rest) == [Stream(HeaderId(line), Body(rest))] + Streams(rest)
  {
    assert ([line] + rest)[0] == line;
    assert ([line] + rest)[1..] == rest;
  }

  /** Reading one more line moves it from what is pending into the open
      stream or into the emitted streams, and loses nothing. */
  lemma ScanHeader(current: Option<Stream>, line: string, rest: seq<string>)
    requires IsHeader(line)
    ensures Pending(current, [line] + rest)
            == (if current.Some? then [current.value] else [])
               + Pending(Some(Stream(HeaderId(line), [])), rest)
  {
    var lines := [line] + rest;
    HeaderLineCons(line, rest);
    var next := Stream(HeaderId(line), Body(rest));
    assert Stream(HeaderId(line), [] + Body(rest)) == next;
    assert Pending(Some(Stream(HeaderId(line), [])), rest) == [next] + Streams(rest);
    assert Streams(lines) == [next] + Streams(rest);
    if current.Some? {
      var c := current.value;
      assert Stream(c.id, c.events + Body(lines)) == c;
      assert Pending(current, lines) == [c] + Streams(lines);
    } else {
      assert Pending(current, lines) == [] + Streams(lines);
    }
  }

  lemma ScanEventLine(current: Option<Stream>, line: string, rest: seq<string>)
    requires !IsHeader(line)
    ensures current.None? ==> Pending(current, [line] + rest) == Pending(current, rest)
    ensures current.Some? ==>
              var e := ParseEvent(Strip(GoSpace, line));
              Pending(current, [line] + rest)
              == Pending(Some(Stream(current.value.id,
                                     current.value.events + (if e.Some? then [e.value] else []))),
                         rest)
  {
    EventLineCons(line, rest);
    if current.Some? {
      var c := current.value;
      var e := ParseEvent(Strip(GoSpace, line));
      var es := if e.Some? then [e.value] else [];
      assert Body([line] + rest) == es + Body(rest);
      Associate(c.events, es, Body(rest));
    }
  }

  /** What reading one line does: the streams it closes, and the stream
      open after it. */
  datatype Scan = Scan(emitted: seq<Stream>, open: Option<Stream>)

  /** The body of the scanner loop: a header closes the open stream and
      opens a new one with no events; any other line adds its event, if it
      decodes, to the open stream, and is dropped when none is open. */
  function Feed(current: Option<Stream>, line: string): (r: Scan)
    ensures |r.emitted| <= 1
    ensures r.open.None? ==> r.open == current && r.emitted == []
  {
    var t := Strip(GoSpace, line);
    if HasPrefix(t, HeaderPrefix) then
      Scan(if current.Some? then [current.value] else [], Some(Stream(HeaderId(line), [])))
    else if current.Some? then
      var e := ParseEvent(t);
      Scan([], Some(Stream(current.value.id, current.value.events + (if e.Some? then [e.value] else []))))
    else
      Scan([], None)
  }

  /** Reading a line loses nothing and adds nothing: what it emits, followed
      by what is then pending, is what was pending before it. */
  lemma FeedPending(current: Option<Stream>, line: string, rest: seq<string>)
    ensures var r := Feed(current, line);
            r.emitted + Pending(r.open, rest) == Pending(current, [line] + rest)
  {
    var r := Feed(current, line);
    if IsHeader(line) {
      ScanHeader(current, line, rest);
    } else {
      ScanEventLine(current, line, rest);
    }
    if r.emitted == [] {
      assert r.emitted + Pending(r.open, rest) == Pending(r.open, rest);
    }
  }

  /** `ParseStreams`, line by line as the scanner loop does it. */
  method ParseStreams(lines: seq<string>) returns (streams: seq<Stream>)
    ensures streams == Streams(lines)
  {
    streams := [];
    var current: Option<Stream> := None;
    var i := 0;
    while i < |lines|
      invariant 0 <= i <= |lines|
      invariant streams + Pending(current, lines[i..]) == Streams(lines)
    {
      var step := Feed(current, lines[i]);
      FeedStep(streams, current, lines, i);
      streams := streams + step.emitted;
      current := step.open;
      i := i + 1;
    }
    PendingAtEnd(current);
    assert lines[i..] == [];
    if current.Some? {
      streams := streams + [current.value];
    } else {
      assert streams + [] == streams;
    }
  }

  /** One turn of the scanner loop keeps what was emitted plus what is
      pending unchanged. */
  lemma FeedStep(streams: seq<Stream>, current: Option<Stream>, lines: seq<string>, i: nat)
    requires i < |lines|
    ensures var r := Feed(current, lines[i]);
            (streams + r.emitted) + Pending(r.open, lines[i + 1..]) == streams + Pending(current, lines[i..])
  {
    var r := Feed(current, lines[i]);
    var rest := lines[i + 1..];
    FeedPending(current, lines[i], rest);
    assert lines[i..] == [lines[i]] + rest;
    Associate(streams, r.emitted, Pending(r.open, rest));
  }

  /** Once the lines run out, only the open stream is pending. */
  lemma PendingAtEnd(current: Option<Stream>)
    ensures Pending(current, []) == if current.Some? then [current.value] else []
  {
    if current.Some? {
      var c := current.value;
      assert Stream(c.id, c.events + []) == c;
    }
  }

  /** Lines before the first header are ignored. */
  lemma {:induction false} PreambleIgnored(preamble: seq<string>, rest: seq<string>)
    requires forall k :: 0 <= k < |preamble| ==> !IsHeader(preamble[k])
    ensures Streams(preamble + rest) == Streams(rest)
  {
    if preamble != [] {
      assert (preamble + rest)[0] == preamble[0];
      assert (preamble + rest)[1..] == preamble[1..] + rest;
      PreambleIgnored(preamble[1..], rest);
    } else {
      assert preamble + rest == rest;
    }
  }

  /** The stream a header opens is the one at that header's position among
      all headers: it carries that header's id and the events of the lines
      between it and the next header. */
  lemma {:induction false} StreamOfHeader(lines: seq<string>, h: nat)
    requires h < |lines| && IsHeader(lines[h])
    ensures HeaderCount(lines[..h]) < |Streams(lines)|
    ensures Streams(lines)[HeaderCount(lines[..h])] == Stream(HeaderId(lines[h]), Body(lines[h + 1..]))
  {
    var target := Stream(HeaderId(lines[h]), Body(lines[h + 1..]));
    StreamsCons(lines);
    if h > 0 {
      var tail := lines[1..];
      StreamOfHeader(tail, h - 1);
      HeaderCountCons(lines, h);
      assert tail[h - 1] == lines[h];
      assert tail[h..] == lines[h + 1..];
      var n := HeaderCount(tail[..h - 1]);
      var st := Streams(tail);
      assert n < |st| && st[n] == target;
      if IsHeader(lines[0]) {
        var x := Stream(HeaderId(lines[0]), Body(tail));
        assert Streams(lines) == [x] + st;
        assert HeaderCount(lines[..h]) == 1 + n;
        IndexAfter([x], st, n);
      } else {
        assert Streams(lines) == st;
        assert HeaderCount(lines[..h]) == n;
      }
    } else {
      assert lines[..0] == [];
      assert Streams(lines) == [target] + Streams(lines[1..]);
    }
  }

  lemma StreamsCons(lines: seq<string>)
    requires lines != []
    ensures Streams(lines)
            == (if IsHeader(lines[0]) then [Stream(HeaderId(lines[0]), Body(lines[1..]))] else [])
               + Streams(lines[1..])
  {
  }

  lemma HeaderCountCons(lines: seq<string>, h: nat)
    requires 0 < h <= |lines|
    ensures HeaderCount(lines[..h]) == (if IsHeader(lines[0]) then 1 else 0) + HeaderCount(lines[1..][..h - 1])
  {
    assert lines[..h][0] == lines[0];
    assert lines[..h][1..] == lines[1..][..h - 1];
  }

  // ---- Writing streams as lines, the inverse of parsing ----

  predicate AllWritable(events: seq<Event>) {
    forall k :: 0 <= k < |events| ==> Writable(events[k], SudoInPasswd, GoSpace)
  }

  /** A stream that survives being written as lines and parsed back. */
  predicate WritableStream(s: Stream) {
    && HasPrefix(s.id, "stream-")
    && !IsSpace(GoSpace, s.id[|s.id| - 1])
    && AllWritable(s.events)
  }

  function EventLines(events: seq<Event>): (lines: seq<string>)
    requires AllWritable(events)
    ensures |lines| == |events|
  {
    if events == [] then [] else [FormatLine(events[0], SudoInPasswd)] + EventLines(events[1..])
  }

  /** The lines of several streams: a `#`-prefixed id line, then one line per
      event. */
  function Format(ss: seq<Stream>): seq<string>
    requires forall s :: s in ss ==> WritableStream(s)
  {
    if ss == [] then []
    else
      assert ss[0] in ss;
      assert WritableStream(ss[0]);
      ["#" + ss[0].id] + EventLines(ss[0].events) + Format(ss[1..])
  }

  /** A written event line is not a header and decodes to its event. */
  lemma FormatLineParse(e: Event)
    requires Writable(e, SudoInPasswd, GoSpace)
    ensures !IsHeader(FormatLine(e, SudoInPasswd))
    ensures ParseEvent(Strip(GoSpace, FormatLine(e, SudoInPasswd))) == Some(e)
  {
    var line := FormatLine(e, SudoInPasswd);
    FormatLineTrimmed(e);
    FormatLineNotHeader(line);
    FormatLineRoundTrip(e, SudoInPasswd, GoSpace);
    ParseEventOfTrimmed(line);
  }

  /** A written event line starts with its type's first letter and is left
      alone by trimming. */
  lemma FormatLineTrimmed(e: Event)
    requires Writable(e, SudoInPasswd, GoSpace)
    ensures var line := FormatLine(e, SudoInPasswd);
            line != "" && line[0] != '#' && Strip(GoSpace, line) == line
  {
    var line := FormatLine(e, SudoInPasswd);
    FormatLineShape(e, SudoInPasswd, GoSpace);
    assert line[0] == e.kind[0];
    assert !IsSpace(GoSpace, line[0]);
    StripUnchanged(GoSpace, line);
  }

  lemma FormatLineNotHeader(line: string)
    requires line != "" && line[0] != '#' && Strip(GoSpace, line) == line
    ensures !IsHeader(line)
  {
    if |HeaderPrefix| <= |line| {
      assert line[..|HeaderPrefix|][0] == line[0];
    }
  }

  lemma ParseEventOfTrimmed(t: string)
    requires t != "" && Strip(GoSpace, t) == t
    ensures ParseEvent(Strip(GoSpace, t)) == FromFields(Split(t, ','), SudoInPasswd)
  {
  }

  /** The written event lines are read back as exactly those events, up to
      whatever comes next if that is empty or a header. */
  lemma {:induction false} EventLinesBody(events: seq<Event>, rest: seq<string>)
    requires AllWritable(events)
    requires rest == [] || IsHeader(rest[0])
    ensures Body(EventLines(events) + rest) == events
    ensures Streams(EventLines(events) + rest) == Streams(rest)
  {
    if events == [] {
      assert EventLines(events) + rest == rest;
    } else {
      var line := FormatLine(events[0], SudoInPasswd);
      var tail := EventLines(events[1..]);
      FormatLineParse(events[0]);
      EventLinesBody(events[1..], rest);
      assert EventLines(events) == [line] + tail;
      ConsAppend(line, tail, rest);
      EventLineCons(line, tail + rest);
    }
  }

  /** The id line written for a stream is a header naming that stream. */
  lemma HeaderLineOf(s: Stream)
    requires WritableStream(s)
    ensures IsHeader("#" + s.id) && HeaderId("#" + s.id) == s.id
  {
    var header := "#" + s.id;
    assert header[0] == '#' && header[|header| - 1] == s.id[|s.id| - 1];
    StripUnchanged(GoSpace, header);
    HashPrefix(s.id);
    assert header[1..] == s.id;
  }

  lemma HashPrefix(id: string)
    requires HasPrefix(id, "stream-")
    ensures HasPrefix("#" + id, HeaderPrefix)
  {
    assert ("#" + id)[..|HeaderPrefix|] == "#" + id[..7];
  }

  lemma FormatCons(ss: seq<Stream>)
    requires forall s :: s in ss ==> WritableStream(s)
    requires ss != []
    ensures WritableStream(ss[0])
    ensures Format(ss) == ["#" + ss[0].id] + (EventLines(ss[0].events) + Format(ss[1..]))
  {
    assert ss[0] in ss;
  }

  /** The lines written for streams start with a header, if with anything. */
  lemma FormatStartsWithHeader(ss: seq<Stream>)
    requires forall s :: s in ss ==> WritableStream(s)
    ensures Format(ss) == [] || IsHeader(Format(ss)[0])
  {
    if ss != [] {
      FormatCons(ss);
      HeaderLineOf(ss[0]);
    }
  }

  /** Parsing the lines written for well-formed streams gives the streams
      back: ids, events and their order. */
  lemma {:induction false} RoundTrip(ss: seq<Stream>)
    requires forall s :: s in ss ==> WritableStream(s)
    ensures Streams(Format(ss)) == ss
  {
    if ss != [] {
      FormatCons(ss);
      assert forall t :: t in ss[1..] ==> WritableStream(t);
      RoundTrip(ss[1..]);
      FormatStartsWithHeader(ss[1..]);
      StreamLines(ss[0], Format(ss[1..]));
      assert [ss[0]] + ss[1..] == ss;
    }
  }

  /** A stream's header and event lines, followed by nothing or by another
      header, read back as that stream. */
  lemma StreamLines(s: Stream, rest: seq<string>)
    requires WritableStream(s)
    requires rest == [] || IsHeader(rest[0])
    ensures Streams(["#" + s.id] + (EventLines(s.events) + rest)) == [s] + Streams(rest)
  {
    var header := "#" + s.id;
    var body := EventLines(s.events);
    HeaderLineOf(s);
    EventLinesBody(s.events, rest);
    HeaderLineCons(header, body + rest);
    assert Stream(HeaderId(header), Body(body + rest)) == s;
  }
}
