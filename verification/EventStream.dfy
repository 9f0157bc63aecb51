// Server-sent events: the frames the server writes (apps/server/src/routes/sse.ts)
// and the client that takes the stream apart (apps/web/src/stores/deploy.ts).
module EventStream {
  import opened Outcome
  import opened Text

  // ----- frames -----

  datatype Frame =
    | EventFrame(name: string, payload: string)
    | CommentFrame(text: string)

  // The text of a frame up to the blank line that ends it.
  function Body(f: Frame): string {
    match f
    case EventFrame(name, payload) => "event: " + name + "\n" + ("data: " + payload)
    case CommentFrame(text) => ": " + text
  }

  function FrameText(f: Frame): string {
    Body(f) + "\n\n"
  }

  function StreamText(frames: seq<Frame>): string {
    if frames == [] then "" else FrameText(frames[0]) + StreamText(frames[1..])
  }

  function Concat(chunks: seq<string>): string {
    if chunks == [] then "" else Concat(chunks[..|chunks| - 1]) + chunks[|chunks| - 1]
  }

  // ----- blocks -----

  // Index of the first blank line, or -1.
  function FindBlank(s: string): (i: int)
    ensures i == -1 || 0 <= i <= |s| - 2
  {
    if |s| < 2 then -1
    else if s[0] == '\n' && s[1] == '\n' then 0
    else
      var k := FindBlank(s[1..]);
      if k == -1 then -1 else k + 1
  }

  // The blocks of s that a blank line ends, and what follows the last of them.
  function Blocks(s: string): seq<string>
    decreases |s|
  {
    var i := FindBlank(s);
    if i == -1 then [] else [s[..i]] + Blocks(s[i + 2..])
  }

  function Rest(s: string): string
    decreases |s|
  {
    var i := FindBlank(s);
    if i == -1 then s else Rest(s[i + 2..])
  }

  // Everything processed from a complete stream.
  function Processed(s: string): seq<string> {
    Blocks(s) + if Trim(Rest(s)) != "" then [Rest(s)] else []
  }

  lemma {:induction false} FindBlankAppend(s: string, t: string)
    ensures FindBlank(s) != -1 ==> FindBlank(s + t) == FindBlank(s)
  {
    if |s| >= 2 && !(s[0] == '\n' && s[1] == '\n') {
      assert (s + t)[1..] == s[1..] + t;
      FindBlankAppend(s[1..], t);
    }
  }

  // More text never changes the blocks already cut.
  lemma {:induction false} BlocksAppend(s: string, t: string)
    ensures Blocks(s + t) == Blocks(s) + Blocks(Rest(s) + t)
    ensures Rest(s + t) == Rest(Rest(s) + t)
    decreases |s|
  {
    var i := FindBlank(s);
    if i != -1 {
      FindBlankAppend(s, t);
      hide FindBlank;
      assert (s + t)[..i] == s[..i] && (s + t)[i + 2..] == s[i + 2..] + t;
      BlocksAppend(s[i + 2..], t);
      ConcatAssoc([s[..i]], Blocks(s[i + 2..]), Blocks(Rest(s) + t));
    } else {
      assert [] + Blocks(s + t) == Blocks(s + t);
    }
  }

  // The client loop: however the stream is cut into chunks, the same blocks are
  // processed as on the whole text.
  method ConsumeStream(chunks: seq<string>) returns (processed: seq<string>)
    ensures processed == Processed(Concat(chunks))
  {
    hide FindBlank, Trim, Concat;
    processed := [];
    var buffer := "";
    ConcatNothing();
    for k := 0 to |chunks|
      invariant processed == Blocks(Concat(chunks[..k])) && buffer == Rest(Concat(chunks[..k]))
    {
      ConcatNext(chunks, k);
      BlocksAppend(Concat(chunks[..k]), chunks[k]);
      buffer := buffer + chunks[k];
      ghost var whole := processed + Blocks(buffer);
      ghost var left := Rest(buffer);
      var idx := FindBlank(buffer);
      while idx != -1
        invariant idx == FindBlank(buffer)
        invariant processed + Blocks(buffer) == whole && Rest(buffer) == left
        decreases |buffer|
      {
        var block := buffer[..idx];
        ConcatAssoc(processed, [block], Blocks(buffer[idx + 2..]));
        buffer := buffer[idx + 2..];
        processed := processed + [block];
        idx := FindBlank(buffer);
      }
    }
    assert chunks[..|chunks|] == chunks;
    if |Trim(buffer)| > 0 {
      processed := processed + [buffer];
    }
  }

  lemma ConcatNothing()
    ensures Concat([]) == "" && Blocks("") == [] && Rest("") == ""
  {
  }

  lemma ConcatNext(chunks: seq<string>, k: nat)
    requires k < |chunks|
    ensures Concat(chunks[..k + 1]) == Concat(chunks[..k]) + chunks[k]
  {
    assert chunks[..k + 1][..k] == chunks[..k];
  }

  // ----- events -----

  datatype StreamEvent = StreamEvent(name: string, data: string)

  const EVENT: string := "event:"
  const DATA: string := "data:"

  // The name given by the last event line.
  function NameOf(lines: seq<string>): string {
    if lines == [] then "message"
    else
      var line := lines[|lines| - 1];
      if !StartsWith(line, ":") && StartsWith(line, EVENT) then Trim(line[|EVENT|..])
      else NameOf(lines[..|lines| - 1])
  }

  function DataOf(lines: seq<string>): seq<string> {
    if lines == [] then []
    else
      var line := lines[|lines| - 1];
      DataOf(lines[..|lines| - 1]) +
      if !StartsWith(line, ":") && !StartsWith(line, EVENT) && StartsWith(line, DATA) then [Trim(line[|DATA|..])] else []
  }

  // The event of a block; a block without data lines has none.
  function ParseBlock(block: string): Option<StreamEvent> {
    var lines := SplitChar(block, '\n');
    if DataOf(lines) == [] then None else Some(StreamEvent(NameOf(lines), Join(DataOf(lines), "\n")))
  }

  method ProcessBlock(block: string) returns (event: Option<StreamEvent>)
    ensures event == ParseBlock(block)
  {
    hide Trim, Join, SplitChar;
    var name := "message";
    var dataLines: seq<string> := [];
    var lines := SplitChar(block, '\n');
    for i := 0 to |lines|
      invariant name == NameOf(lines[..i]) && dataLines == DataOf(lines[..i])
    {
      var line := lines[i];
      assert lines[..i + 1][..i] == lines[..i];
      if StartsWith(line, ":") {
        continue;
      }
      if StartsWith(line, EVENT) {
        name := Trim(line[|EVENT|..]);
      } else if StartsWith(line, DATA) {
        dataLines := dataLines + [Trim(line[|DATA|..])];
      }
    }
    assert lines[..|lines|] == lines;
    if |dataLines| == 0 {
      return None;
    }
    return Some(StreamEvent(name, Join(dataLines, "\n")));
  }

  predicate NamesEvent(line: string) {
    "event:" <= line
  }

  predicate CarriesData(line: string) {
    "data:" <= line
  }

  // The data of a block: what stands behind "data:" on its data lines, trimmed, in order.
  function Payloads(lines: seq<string>): seq<string> {
    if lines == [] then []
    else if CarriesData(lines[0]) then [Trim(lines[0][5..])] + Payloads(lines[1..])
    else Payloads(lines[1..])
  }

  // A line starts with a colon, with "event:" or with "data:", or is ignored.
  lemma LineKinds(line: string)
    ensures StartsWith(line, EVENT) <==> NamesEvent(line)
    ensures StartsWith(line, DATA) <==> CarriesData(line)
    ensures NamesEvent(line) ==> !CarriesData(line) && !StartsWith(line, ":")
    ensures CarriesData(line) ==> !StartsWith(line, ":")
  {
    if StartsWith(line, EVENT) {
      assert line[0] == 'e';
    }
    if StartsWith(line, DATA) {
      assert line[0] == 'd';
    }
    if StartsWith(line, ":") {
      assert line[0] == ':';
    }
  }

  lemma {:induction false} PayloadsSnoc(lines: seq<string>, line: string)
    ensures Payloads(lines + [line]) == Payloads(lines) + if CarriesData(line) then [Trim(line[5..])] else []
  {
    hide Trim, CarriesData;
    if lines == [] {
      assert lines + [line] == [line] && [line][1..] == [];
    } else {
      assert (lines + [line])[1..] == lines[1..] + [line];
      PayloadsSnoc(lines[1..], line);
    }
  }

  lemma {:induction false} DataIsPayloads(lines: seq<string>)
    ensures DataOf(lines) == Payloads(lines)
    decreases |lines|
  {
    hide Trim, StartsWith, CarriesData, NamesEvent;
    if lines != [] {
      var n := |lines| - 1;
      DataIsPayloads(lines[..n]);
      PayloadsSnoc(lines[..n], lines[n]);
      LineKinds(lines[n]);
      assert lines == lines[..n] + [lines[n]];
    }
  }

  lemma {:induction false} PayloadsSome(lines: seq<string>)
    ensures Payloads(lines) == [] <==> forall i :: 0 <= i < |lines| ==> !CarriesData(lines[i])
  {
    hide Trim, CarriesData;
    if lines != [] {
      PayloadsSome(lines[1..]);
    }
  }

  ghost predicate IsLastName(lines: seq<string>, i: int) {
    0 <= i < |lines| && NamesEvent(lines[i]) && forall j :: i < j < |lines| ==> !NamesEvent(lines[j])
  }

  lemma {:induction false} NameIsLast(lines: seq<string>)
    ensures forall i :: IsLastName(lines, i) ==> NameOf(lines) == Trim(lines[i][6..])
    ensures (forall i :: 0 <= i < |lines| ==> !NamesEvent(lines[i])) ==> NameOf(lines) == "message"
    decreases |lines|
  {
    hide Trim, StartsWith, CarriesData;
    if lines != [] {
      var n := |lines| - 1;
      NameIsLast(lines[..n]);
      LineKinds(lines[n]);
      forall i | IsLastName(lines, i)
        ensures NameOf(lines) == Trim(lines[i][6..])
      {
        if i < n {
          assert IsLastName(lines[..n], i);
        }
      }
    }
  }

  // What any block gives: nothing without a data line; otherwise the name is that of the
  // last event line, or "message", and the data are its data lines, trimmed and joined
  // by line breaks. Comments and all other lines are ignored.
  lemma BlockGives(block: string)
    ensures var lines, event := SplitChar(block, '\n'), ParseBlock(block);
            && (event.Some? <==> exists i :: 0 <= i < |lines| && CarriesData(lines[i]))
            && (event.Some? ==>
                  && event.value.data == Join(Payloads(lines), "\n")
                  && (forall i :: IsLastName(lines, i) ==> event.value.name == Trim(lines[i][6..]))
                  && ((forall i :: 0 <= i < |lines| ==> !NamesEvent(lines[i])) ==> event.value.name == "message"))
  {
    hide SplitChar, Trim, Join, NamesEvent, CarriesData, DataOf, NameOf, Payloads;
    var lines := SplitChar(block, '\n');
    DataIsPayloads(lines);
    PayloadsSome(lines);
    NameIsLast(lines);
  }

  function Events(blocks: seq<string>): seq<StreamEvent> {
    if blocks == [] then []
    else (match ParseBlock(blocks[0]) case Some(e) => [e] case None => []) + Events(blocks[1..])
  }

  // ----- reading the frames back -----

  // The texts of a frame contain no line break.
  predicate OneLine(f: Frame) {
    match f
    case EventFrame(name, payload) => '\n' !in name && '\n' !in payload
    case CommentFrame(text) => '\n' !in text
  }

  predicate AllOneLine(frames: seq<Frame>) {
    frames != [] ==> OneLine(frames[0]) && AllOneLine(frames[1..])
  }

  // The events of the frames, trimmed as the client does; comments disappear.
  function Received(frames: seq<Frame>): seq<StreamEvent> {
    if frames == [] then []
    else
      (match frames[0]
       case EventFrame(name, payload) => [StreamEvent(Trim(name), Trim(payload))]
       case CommentFrame(_) => [])
      + Received(frames[1..])
  }

  function Sent(frames: seq<Frame>): seq<StreamEvent> {
    if frames == [] then []
    else
      (match frames[0]
       case EventFrame(name, payload) => [StreamEvent(name, payload)]
       case CommentFrame(_) => [])
      + Sent(frames[1..])
  }

  predicate AllTrimmed(frames: seq<Frame>) {
    frames != [] ==>
      && (frames[0].EventFrame? ==> Trimmed(frames[0].name) && Trimmed(frames[0].payload))
      && AllTrimmed(frames[1..])
  }

  // The first blank line after text without line breaks, then more text.
  lemma {:induction false} SkipLine(line: string, rest: string)
    requires '\n' !in line
    ensures FindBlank(line + rest) == if FindBlank(rest) == -1 then -1 else |line| + FindBlank(rest)
  {
    if line == "" {
      assert line + rest == rest;
    } else {
      assert line[0] in line;
      assert (line + rest)[1..] == line[1..] + rest;
      SkipLine(line[1..], rest);
      if |line + rest| < 2 {
        assert rest == "";
      }
    }
  }

  // A line, a line break, and text that starts with neither: only that text can
  // hold a blank line.
  lemma SkipLineBreak(first: string, s: string)
    requires '\n' !in first && s != "" && s[0] != '\n' && FindBlank(s) != -1
    ensures FindBlank(first + ("\n" + s)) == |first| + 1 + FindBlank(s)
  {
    hide FindBlank;
    SkipLine(first, "\n" + s);
    BlankAhead(s, "");
  }

  lemma BlankAhead(s: string, rest: string)
    ensures FindBlank("\n\n" + rest) == 0
    ensures s != "" && s[0] != '\n' ==> FindBlank("\n" + s) == if FindBlank(s) == -1 then -1 else FindBlank(s) + 1
  {
    assert ("\n" + s)[1..] == s;
  }

  lemma FrameEndsBlock(f: Frame, rest: string)
    requires OneLine(f)
    ensures FindBlank(FrameText(f) + rest) == |Body(f)|
  {
    hide FindBlank;
    var tail := "\n\n" + rest;
    assert FrameText(f) + rest == Body(f) + tail;
    match f
    case CommentFrame(text) =>
      SkipLine(": " + text, tail);
      BlankAhead("", rest);
    case EventFrame(name, payload) =>
      var first, second := "event: " + name, "data: " + payload;
      SkipLine(second, tail);
      BlankAhead("", rest);
      SkipLineBreak(first, second + tail);
      ConcatAssoc(first, "\n", second);
      ConcatAssoc(first, "\n" + second, tail);
      ConcatAssoc("\n", second, tail);
  }

  lemma BlocksOfFrame(f: Frame, rest: string)
    requires OneLine(f)
    ensures Blocks(FrameText(f) + rest) == [Body(f)] + Blocks(rest)
    ensures Rest(FrameText(f) + rest) == Rest(rest)
  {
    FrameEndsBlock(f, rest);
    hide FindBlank;
    var s, n := FrameText(f) + rest, |Body(f)|;
    assert s[..n] == Body(f) && s[n + 2..] == rest;
  }

  lemma LinesOfBody(f: Frame)
    requires OneLine(f)
    ensures SplitChar(Body(f), '\n') ==
            match f
            case EventFrame(name, payload) => ["event: " + name, "data: " + payload]
            case CommentFrame(text) => [": " + text]
  {
    match f
    case CommentFrame(text) => SplitCharJoin([": " + text], '\n');
    case EventFrame(name, payload) =>
      var lines := ["event: " + name, "data: " + payload];
      assert lines[1..] == ["data: " + payload];
      assert '\n' !in lines[0] && AllFree(lines[1..], '\n');
      SplitCharJoin(lines, '\n');
      assert Join(lines, "\n") == Body(f);
  }

  lemma TrimAfterSpace(s: string)
    ensures Trim(" " + s) == Trim(s)
  {
    TrimPadFront(" ", s);
  }

  lemma ParseFrame(f: Frame)
    requires OneLine(f)
    ensures ParseBlock(Body(f)) ==
            match f
            case EventFrame(name, payload) => Some(StreamEvent(Trim(name), Trim(payload)))
            case CommentFrame(_) => None
  {
    LinesOfBody(f);
    hide SplitChar, Trim, Body;
    match f
    case CommentFrame(text) =>
      var lines := [": " + text];
      assert lines[0][..1] == ":";
      assert DataOf(lines) == DataOf([]) + [];
    case EventFrame(name, payload) =>
      EventLines(name, payload);
  }

  lemma EventLines(name: string, payload: string)
    ensures var lines := ["event: " + name, "data: " + payload];
            NameOf(lines) == Trim(name) && DataOf(lines) == [Trim(payload)]
  {
    hide Trim;
    var first, second := "event: " + name, "data: " + payload;
    assert first[..6] == EVENT && first[6..] == " " + name && first[0] == 'e';
    assert second[..5] == DATA && second[5..] == " " + payload && second[0] == 'd';
    TrimAfterSpace(name);
    TrimAfterSpace(payload);
    var lines := [first, second];
    assert lines[..1] == [first] && [first][..0] == [];
    assert StartsWith(first, EVENT) && !StartsWith(first, ":") && !StartsWith(second, ":");
    assert NameOf([first]) == Trim(first[|EVENT|..]) && DataOf([first]) == DataOf([]) + [];
  }

  lemma {:induction false} StreamEndsClean(frames: seq<Frame>)
    requires AllOneLine(frames)
    ensures Rest(StreamText(frames)) == ""
  {
    if frames != [] {
      StreamEndsClean(frames[1..]);
      BlocksOfFrame(frames[0], StreamText(frames[1..]));
    } else {
      ConcatNothing();
    }
  }

  // The blocks of a stream are the bodies of its frames.
  lemma {:induction false} StreamBlocks(frames: seq<Frame>)
    requires AllOneLine(frames)
    ensures Blocks(StreamText(frames)) == Bodies(frames)
  {
    if frames != [] {
      StreamBlocks(frames[1..]);
      BlocksOfFrame(frames[0], StreamText(frames[1..]));
    } else {
      ConcatNothing();
    }
  }

  function Bodies(frames: seq<Frame>): seq<string> {
    if frames == [] then [] else [Body(frames[0])] + Bodies(frames[1..])
  }

  lemma {:induction false} BodiesReceived(frames: seq<Frame>)
    requires AllOneLine(frames)
    ensures Events(Bodies(frames)) == Received(frames)
  {
    if frames != [] {
      BodiesReceived(frames[1..]);
      ParseFrame(frames[0]);
      hide Trim, ParseBlock, Body;
      assert Bodies(frames)[1..] == Bodies(frames[1..]);
    }
  }

  // However a stream of one-line frames is cut, the client receives the events in
  // order, trimmed, and nothing else.
  lemma FramesAreReceived(frames: seq<Frame>, chunks: seq<string>)
    requires AllOneLine(frames) && Concat(chunks) == StreamText(frames)
    ensures Events(Processed(Concat(chunks))) == Received(frames)
  {
    StreamEndsClean(frames);
    StreamBlocks(frames);
    BodiesReceived(frames);
    assert Trim("") == "";
    hide Blocks, Rest, Trim, Events, Received;
    assert Blocks(StreamText(frames)) + [] == Blocks(StreamText(frames));
  }

  // The events arrive unchanged exactly when every name and payload is trimmed.
  lemma {:induction false} ReceivedUnchangedIff(frames: seq<Frame>)
    ensures Received(frames) == Sent(frames) <==> AllTrimmed(frames)
  {
    if frames != [] {
      ReceivedUnchangedIff(frames[1..]);
      var f := frames[0];
      if f.EventFrame? {
        TrimFixed(f.name);
        TrimFixed(f.payload);
        hide Trim, Trimmed;
        var r, s := Received(frames), Sent(frames);
        assert r[0] == StreamEvent(Trim(f.name), Trim(f.payload)) && s[0] == StreamEvent(f.name, f.payload);
        assert r[1..] == Received(frames[1..]) && s[1..] == Sent(frames[1..]);
        assert r == [r[0]] + r[1..] && s == [s[0]] + s[1..];
      } else {
        assert Received(frames) == Received(frames[1..]) && Sent(frames) == Sent(frames[1..]);
      }
    }
  }

  lemma TrimFixed(s: string)
    ensures Trim(s) == s <==> Trimmed(s)
  {
    var lead, trail := TrimParts(s);
    if Trimmed(s) {
      TrimTrimmed(s);
    }
  }
}
