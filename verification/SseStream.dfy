// Server-sent events: the frames the server prints (api/routes/agent.py, _sse) and
// the client that reads them back chunk by chunk (frontend/src/api/sse.ts).
module SseStream {
  import opened Lists

  // How values are written and read: JSON on both sides.
  datatype Codec<!T> = Codec(encode: T -> string, decode: string -> Option<T>, truthy: T -> bool)

  // ---- Text ----------------------------------------------------------------------

  predicate IsBlank(c: char) {
    || c == ' ' || c == '\t' || c == '\n' || c == '\r' || c as int == 11 || c as int == 12 || c as int == 0xA0
    || c as int == 0x1680 || 0x2000 <= c as int <= 0x200A || c as int == 0x2028 || c as int == 0x2029
    || c as int == 0x202F || c as int == 0x205F || c as int == 0x3000 || c as int == 0xFEFF
  }

  function TrimStart(s: string): string {
    if s != [] && IsBlank(s[0]) then TrimStart(s[1..]) else s
  }

  function TrimEnd(s: string): string {
    if s != [] && IsBlank(s[|s| - 1]) then TrimEnd(s[..|s| - 1]) else s
  }

  function Trim(s: string): string {
    TrimEnd(TrimStart(s))
  }

  // Position of the first empty line: the first "\n\n".
  function FirstBreak(text: string): (found: Option<nat>)
    ensures found.Some? ==> BreakAt(text, found.value) && forall i: nat | i < found.value :: !BreakAt(text, i)
    ensures found.None? ==> forall i: nat :: !BreakAt(text, i)
  {
    if |text| < 2 then None
    else if BreakAt(text, 0) then Some(0)
    else
      BreaksShift(text);
      match FirstBreak(text[1..])
      case Some(i) => Some(i + 1)
      case None => None
  }

  predicate BreakAt(text: string, i: nat) {
    i + 1 < |text| && text[i] == '\n' && text[i + 1] == '\n'
  }

  lemma BreaksShift(text: string)
    requires text != ""
    ensures forall i: nat | i > 0 :: BreakAt(text, i) <==> BreakAt(text[1..], i - 1)
  {
  }

  // text.split("\n\n"): leftmost, never overlapping
  function Split(text: string): (parts: seq<string>)
    ensures parts != []
    decreases |text|
  {
    match FirstBreak(text)
    case Some(i) => [text[..i]] + Split(text[i + 2..])
    case None => [text]
  }

  function Frames(text: string): seq<string> {
    var parts := Split(text);
    parts[..|parts| - 1]
  }

  function Rest(text: string): string {
    var parts := Split(text);
    parts[|parts| - 1]
  }

  // ---- One frame --------------------------------------------------------------------

  // The first line that starts with "data:".
  function DataLine(frame: string): (line: Option<string>)
    ensures line.Some? ==> "data:" <= line.value
    decreases |frame|
  {
    var end := LineEnd(frame, 0);
    if "data:" <= frame[..end] then Some(frame[..end])
    else if end == |frame| then None
    else DataLine(frame[end + 1..])
  }

  function LineEnd(s: string, i: nat): (end: nat)
    requires i <= |s|
    ensures i <= end <= |s| && (end < |s| ==> s[end] == '\n') && '\n' !in s[i..end]
    decreases |s| - i
  {
    if i == |s| || s[i] == '\n' then i
    else
      var end := LineEnd(s, i + 1);
      assert s[i..end] == [s[i]] + s[i + 1..end];
      end
  }

  // parseSseChunk; None when there is no data line or it is not JSON
  function ParseFrame<T>(codec: Codec<T>, frame: string): Option<T> {
    match DataLine(frame)
    case Some(line) => codec.decode(Trim(line[5..]))
    case None => None
  }

  // What the client yields for one frame.
  function Yield<T>(codec: Codec<T>, frame: string): seq<T> {
    match ParseFrame(codec, frame)
    case Some(event) => if codec.truthy(event) then [event] else []
    case None => []
  }

  function YieldOf<T>(codec: Codec<T>): string -> seq<T> {
    (frame: string) => Yield(codec, frame)
  }

  function Events<T>(codec: Codec<T>, frames: seq<string>): seq<T> {
    FlatMap(frames, YieldOf(codec))
  }

  function Concat(chunks: seq<string>): string {
    if chunks == [] then "" else Concat(chunks[..|chunks| - 1]) + chunks[|chunks| - 1]
  }

  // ---- The client ---------------------------------------------------------------------

  method ConsumeSseStream<T>(codec: Codec<T>, chunks: seq<string>) returns (events: seq<T>, buffer: string)
    ensures events == Events(codec, Frames(Concat(chunks)))
    ensures buffer == Rest(Concat(chunks))
  {
    events, buffer := [], "";
    for i := 0 to |chunks|
      invariant events == Events(codec, Frames(Concat(chunks[..i])))
      invariant buffer == Rest(Concat(chunks[..i]))
    {
      assert chunks[..i + 1][..i] == chunks[..i];
      SplitAppend(Concat(chunks[..i]), chunks[i]);
      ghost var text, frames0 := Concat(chunks[..i + 1]), Frames(Concat(chunks[..i]));
      buffer := buffer + chunks[i];
      var rawEvents := Split(buffer);
      assert Split(text) == frames0 + rawEvents;
      assert Frames(text) == frames0 + rawEvents[..|rawEvents| - 1];
      FlatMapAppend(frames0, rawEvents[..|rawEvents| - 1], YieldOf(codec));
      buffer := rawEvents[|rawEvents| - 1];
      var added := YieldAll(codec, rawEvents[..|rawEvents| - 1]);
      events := events + added;
    }
    assert chunks[..|chunks|] == chunks;
  }

  method YieldAll<T>(codec: Codec<T>, frames: seq<string>) returns (events: seq<T>)
    ensures events == Events(codec, frames)
  {
    events := [];
    ghost var yielded := YieldOf(codec);
    for i := 0 to |frames|
      invariant events == FlatMap(frames[..i], yielded)
    {
      FlatMapTake(frames, yielded, i);
      var event := ParseFrame(codec, frames[i]);
      if event.Some? && codec.truthy(event.value) {
        events := events + [event.value];
      }
    }
    assert frames[..|frames|] == frames;
  }

  // ---- Splitting and chunks --------------------------------------------------------------

  // A break found in a prefix is the one found in the whole.
  lemma FirstBreakPrefix(s: string, t: string)
    requires FirstBreak(s).Some?
    ensures FirstBreak(s + t) == FirstBreak(s)
  {
    var i := FirstBreak(s).value;
    assert BreakAt(s + t, i);
    forall j: nat | j < i ensures !BreakAt(s + t, j) {
      assert !BreakAt(s, j);
    }
  }

  lemma SplitStep(s: string, i: nat)
    requires FirstBreak(s) == Some(i)
    ensures Split(s) == [s[..i]] + Split(s[i + 2..])
    ensures Frames(s) == [s[..i]] + Frames(s[i + 2..]) && Rest(s) == Rest(s[i + 2..])
  {
    var parts := Split(s[i + 2..]);
    assert Split(s) == [s[..i]] + parts;
    assert ([s[..i]] + parts)[..|parts|] == [s[..i]] + parts[..|parts| - 1];
  }

  lemma AppendAfter(s: string, t: string, i: nat)
    requires i + 2 <= |s|
    ensures (s + t)[..i] == s[..i] && (s + t)[i + 2..] == s[i + 2..] + t
  {
  }

  lemma Regroup<T>(a: seq<T>, b: seq<T>, c: seq<T>)
    ensures a + (b + c) == a + b + c
  {
  }

  // Splitting may resume from the unfinished part.
  lemma {:induction false} SplitAppend(s: string, t: string)
    ensures Split(s + t) == Frames(s) + Split(Rest(s) + t)
    decreases |s|
  {
    match FirstBreak(s) {
      case Some(i) =>
        FirstBreakPrefix(s, t);
        AppendAfter(s, t, i);
        SplitStep(s, i);
        SplitStep(s + t, i);
        SplitAppend(s[i + 2..], t);
        Regroup([s[..i]], Frames(s[i + 2..]), Split(Rest(s[i + 2..]) + t));
      case None =>
        assert Frames(s) == [] && Rest(s) == s;
    }
  }

  // ---- Any frame -------------------------------------------------------------------------

  // Lines, with line feeds between them.
  function Joined(lines: seq<string>): string
    decreases |lines|
  {
    if lines == [] then "" else if |lines| == 1 then lines[0] else lines[0] + "\n" + Joined(lines[1..])
  }

  ghost predicate AreLines(lines: seq<string>) {
    lines != [] && forall line | line in lines :: '\n' !in line
  }

  lemma {:induction false} LineEndAt(s: string, i: nat, n: nat)
    requires i <= n <= |s| && '\n' !in s[i..n] && (n == |s| || s[n] == '\n')
    ensures LineEnd(s, i) == n
    decreases n - i
  {
    if i < n {
      assert s[i] == s[i..n][0];
      assert s[i + 1..n] == s[i..n][1..];
      LineEndAt(s, i + 1, n);
    }
  }

  // The k-th line is the first one that starts with "data:".
  predicate FirstData(lines: seq<string>, k: nat) {
    k < |lines| && "data:" <= lines[k] && forall i | 0 <= i < k :: !("data:" <= lines[i])
  }

  lemma {:induction false} DataLineExact(lines: seq<string>, k: nat)
    requires AreLines(lines)
    ensures FirstData(lines, k) ==> DataLine(Joined(lines)) == Some(lines[k])
    ensures (forall line | line in lines :: !("data:" <= line)) ==> DataLine(Joined(lines)) == None
    decreases |lines|
  {
    var frame, first := Joined(lines), lines[0];
    assert first in lines;
    if |lines| == 1 {
      LineEndAt(frame, 0, |frame|);
      assert frame[..|frame|] == first;
    } else {
      var rest := lines[1..];
      assert forall line | line in rest :: line in lines;
      assert frame[0..|first|] == first && frame[|first|] == '\n' && frame[|first| + 1..] == Joined(rest);
      LineEndAt(frame, 0, |first|);
      DataLineExact(rest, if k > 0 then k - 1 else 0);
      assert k > 0 && FirstData(lines, k) ==> FirstData(rest, k - 1) by {
        if k > 0 && FirstData(lines, k) {
          assert forall i | 0 <= i < k - 1 :: rest[i] == lines[i + 1];
        }
      }
    }
  }

  ghost predicate Blank(s: string) {
    forall i | 0 <= i < |s| :: IsBlank(s[i])
  }

  ghost predicate Bare(s: string) {
    s != "" && !IsBlank(s[0]) && !IsBlank(s[|s| - 1])
  }

  lemma {:induction false} TrimStartBlank(left: string, s: string)
    requires Blank(left) && s != "" && !IsBlank(s[0])
    ensures TrimStart(left + s) == s
    decreases |left|
  {
    if left == "" {
      assert left + s == s;
    } else {
      assert (left + s)[1..] == left[1..] + s;
      TrimStartBlank(left[1..], s);
    }
  }

  lemma {:induction false} TrimEndBlank(s: string, right: string)
    requires Blank(right) && s != "" && !IsBlank(s[|s| - 1])
    ensures TrimEnd(s + right) == s
    decreases |right|
  {
    if right == "" {
      assert s + right == s;
    } else {
      assert (s + right)[..|s + right| - 1] == s + right[..|right| - 1];
      TrimEndBlank(s, right[..|right| - 1]);
    }
  }

  lemma TrimExact(left: string, s: string, right: string)
    requires Blank(left) && Bare(s) && Blank(right)
    ensures Trim(left + (s + right)) == s
  {
    TrimStartBlank(left, s + right);
    TrimEndBlank(s, right);
  }

  // Of any frame only the first data line counts: it is read without the blanks around it,
  // and the event is yielded if it reads as one. A frame without such a line yields nothing.
  lemma FrameExact<T>(codec: Codec<T>, lines: seq<string>, k: nat, left: string, text: string, right: string)
    requires AreLines(lines) && FirstData(lines, k)
    requires lines[k] == "data:" + (left + (text + right)) && Blank(left) && Bare(text) && Blank(right)
    ensures Yield(codec, Joined(lines))
         == match codec.decode(text)
            case Some(event) => if codec.truthy(event) then [event] else []
            case None => []
  {
    DataLineExact(lines, k);
    assert lines[k][5..] == left + (text + right);
    TrimExact(left, text, right);
  }

  lemma NoDataNoEvent<T>(codec: Codec<T>, lines: seq<string>)
    requires AreLines(lines) && forall line | line in lines :: !("data:" <= line)
    ensures Yield(codec, Joined(lines)) == []
  {
    DataLineExact(lines, 0);
  }

  // ---- The server ------------------------------------------------------------------------

  function Frame<T>(codec: Codec<T>, event: T): string {
    "data: " + codec.encode(event)
  }

  // _sse: one frame and an empty line per event
  function Printed<T>(codec: Codec<T>, events: seq<T>): string {
    if events == [] then ""
    else Printed(codec, events[..|events| - 1]) + (Frame(codec, events[|events| - 1]) + "\n\n")
  }

  // JSON text of an event: one line, no blank at either end, read back as the event,
  // and an object, hence truthy.
  ghost predicate Encodes<T>(codec: Codec<T>, event: T) {
    var text := codec.encode(event);
    && '\n' !in text && text != [] && !IsBlank(text[0]) && !IsBlank(text[|text| - 1])
    && codec.decode(text) == Some(event) && codec.truthy(event)
  }

  lemma FrameYields<T>(codec: Codec<T>, event: T)
    requires Encodes(codec, event)
    ensures Yield(codec, Frame(codec, event)) == [event]
  {
    var frame, text := Frame(codec, event), codec.encode(event);
    var end := LineEnd(frame, 0);
    assert '\n' !in frame;
    assert end == |frame| && frame[..end] == frame;
    assert frame[5..] == " " + text;
    assert (" " + text)[1..] == text;
    assert TrimStart(" " + text) == TrimStart(text) == text;
  }

  lemma NoBreakInside<T>(codec: Codec<T>, event: T)
    requires Encodes(codec, event)
    ensures FirstBreak(Frame(codec, event) + "\n\n") == Some(|Frame(codec, event)|)
  {
    var frame := Frame(codec, event);
    var text := frame + "\n\n";
    assert forall i | 0 <= i < |frame| :: text[i] == frame[i] != '\n';
    assert BreakAt(text, |frame|);
    assert forall i: nat | i < |frame| :: !BreakAt(text, i);
  }

  lemma {:induction false} PrintedSplits<T>(codec: Codec<T>, events: seq<T>)
    requires forall e | e in events :: Encodes(codec, e)
    ensures Rest(Printed(codec, events)) == "" && Events(codec, Frames(Printed(codec, events))) == events
  {
    if events != [] {
      var init, last := events[..|events| - 1], events[|events| - 1];
      var before, frame := Printed(codec, init), Frame(codec, last);
      PrintedSplits(codec, init);
      SplitAppend(before, frame + "\n\n");
      OneFrame(codec, last);
      FramesSnoc(before, frame, Printed(codec, events));
      FlatMapSnoc(Frames(before), YieldOf(codec), frame);
      FrameYields(codec, last);
      InitLast(events);
    }
  }

  lemma OneFrame<T>(codec: Codec<T>, event: T)
    requires Encodes(codec, event)
    ensures Split("" + (Frame(codec, event) + "\n\n")) == [Frame(codec, event), ""]
  {
    var frame := Frame(codec, event);
    NoBreakInside(codec, event);
    assert "" + (frame + "\n\n") == frame + "\n\n";
    assert (frame + "\n\n")[..|frame|] == frame && (frame + "\n\n")[|frame| + 2..] == "";
  }

  lemma FramesSnoc(before: string, frame: string, text: string)
    requires Split(text) == Frames(before) + [frame, ""]
    ensures Frames(text) == Frames(before) + [frame] && Rest(text) == ""
  {
  }

  // However the printed stream is cut, and whatever unfinished frame follows it, the
  // client yields exactly the events sent, in order.
  lemma RoundTrip<T>(codec: Codec<T>, sent: seq<T>, tail: string, chunks: seq<string>)
    requires forall e | e in sent :: Encodes(codec, e)
    requires Concat(chunks) == Printed(codec, sent) + tail && FirstBreak(tail).None?
    ensures Events(codec, Frames(Concat(chunks))) == sent
    ensures Rest(Concat(chunks)) == tail
  {
    PrintedSplits(codec, sent);
    SplitAppend(Printed(codec, sent), tail);
    assert "" + tail == tail;
    assert Split(Concat(chunks)) == Frames(Printed(codec, sent)) + [tail];
    assert Frames(Concat(chunks)) == Frames(Printed(codec, sent));
  }

  // At every moment of the transfer, what has been yielded is a prefix of what was
  // sent, and nothing beyond the frames that have fully arrived.
  lemma PrefixSafety<T>(codec: Codec<T>, sent: seq<T>, arrived: string, missing: string)
    requires forall e | e in sent :: Encodes(codec, e)
    requires arrived + missing == Printed(codec, sent)
    ensures Events(codec, Frames(arrived)) <= sent
  {
    PrintedSplits(codec, sent);
    FramesGrow(arrived, missing);
    EventsGrow(codec, Frames(arrived), Frames(Rest(arrived) + missing));
  }

  // What arrives later only adds frames.
  lemma FramesGrow(arrived: string, missing: string)
    ensures Frames(arrived + missing) == Frames(arrived) + Frames(Rest(arrived) + missing)
  {
    SplitAppend(arrived, missing);
  }

  lemma EventsGrow<T>(codec: Codec<T>, frames: seq<string>, more: seq<string>)
    ensures Events(codec, frames) <= Events(codec, frames + more)
  {
    FlatMapAppend(frames, more, YieldOf(codec));
  }
}
