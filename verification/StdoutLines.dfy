/** The chunked stdout of an agent process and its busy flag (`_onStdout`, `_handleAgentMessage` of `executor/session-slot.js`). */
module StdoutLines {
  import opened Options
  import opened Actions

  /** `text.split('\n')`. */
  function Split(text: string): (pieces: seq<string>)
    ensures |pieces| > 0
  {
    if text == "" then [""] else Prepend(text[0], Split(text[1..]))
  }

  function Prepend(c: char, pieces: seq<string>): (r: seq<string>)
    requires |pieces| > 0
    ensures |r| > 0
  {
    if c == '\n' then [""] + pieces else [[c] + pieces[0]] + pieces[1..]
  }

  function Front(pieces: seq<string>): seq<string>
    requires pieces != []
  {
    pieces[..|pieces| - 1]
  }

  function Last(pieces: seq<string>): string
    requires pieces != []
  {
    pieces[|pieces| - 1]
  }

  function Complete(text: string): seq<string> {
    Front(Split(text))
  }

  function Tail(text: string): string {
    Last(Split(text))
  }

  function Join(lines: seq<string>, tail: string): string {
    if lines == [] then tail else lines[0] + "\n" + Join(lines[1..], tail)
  }

  /** A parsed message; `data` stands for everything but the event name. */
  datatype Message = Message(event: string, data: string)

  /** Blank lines, unparsable lines and messages without an event are passed over. */
  function Parsed(parse: string -> Option<Message>, line: string): Option<Message> {
    if Trim(line) != "" && parse(line).Some? && parse(line).value.event != "" then parse(line) else None
  }

  /** The messages in the first `n` lines. */
  function MessagesTo(parse: string -> Option<Message>, lines: seq<string>, n: nat): seq<Message>
    requires n <= |lines|
  {
    if n == 0 then [] else Received(MessagesTo(parse, lines, n - 1), Parsed(parse, lines[n - 1]))
  }

  function Messages(parse: string -> Option<Message>, lines: seq<string>): seq<Message> {
    MessagesTo(parse, lines, |lines|)
  }

  function Received(ms: seq<Message>, m: Option<Message>): seq<Message> {
    if m.None? then ms else ms + [m.value]
  }

  predicate Starts(event: string) { event == "phase_start" || event == "step" }

  predicate Ends(event: string) { event in {"phase_done", "done", "phase_error", "error"} }

  function BusyAfter(busy: bool, m: Message): bool {
    if Ends(m.event) then false else busy || Starts(m.event)
  }

  function Busy(initial: bool, ms: seq<Message>): bool {
    if ms == [] then initial else BusyAfter(Busy(initial, ms[..|ms| - 1]), ms[|ms| - 1])
  }

  // ---------------------------------------------------------------- splitting

  /** Lines and tail are the text itself, cut at its newlines and nowhere else. */
  lemma {:induction false} SplitIsExact(text: string)
    ensures Join(Complete(text), Tail(text)) == text
    ensures '\n' !in Tail(text) && forall l <- Complete(text) :: '\n' !in l
  {
    if text != "" {
      SplitIsExact(text[1..]);
      var rest := Split(text[1..]);
      var pieces := Split(text);
      if text[0] == '\n' {
        assert Complete(text) == [""] + Complete(text[1..]);
        assert text == "" + "\n" + text[1..];
      } else if |rest| == 1 {
        assert Complete(text) == [] && Complete(text[1..]) == [];
        assert Tail(text) == [text[0]] + Tail(text[1..]);
      } else {
        var lines := Complete(text[1..]);
        assert Complete(text) == [[text[0]] + lines[0]] + lines[1..];
        assert Join(lines, Tail(text[1..])) == lines[0] + "\n" + Join(lines[1..], Tail(text[1..]));
        assert text == [text[0]] + text[1..];
      }
    }
  }

  lemma PrependConcat(c: char, p: seq<string>, q: seq<string>)
    requires p != []
    ensures Prepend(c, p + q) == Prepend(c, p) + q
  {
    assert (p + q)[1..] == p[1..] + q;
  }

  lemma PrependFront(c: char, p: seq<string>, last: string)
    requires p != []
    ensures Prepend(c, p + [last])[..|Prepend(c, p + [last])| - 1] == Prepend(c, p)
    ensures Prepend(c, p + [last])[|Prepend(c, p + [last])| - 1] == last
  {
    PrependConcat(c, p, [last]);
  }

  /** Prepending a character to a text in progress, of which only the last piece can still grow. */
  lemma PrependStep(c: char, pieces: seq<string>, b: string)
    requires pieces != []
    ensures Prepend(c, Front(pieces) + Split(Last(pieces) + b))
            == Front(Prepend(c, pieces)) + Split(Last(Prepend(c, pieces)) + b)
  {
    var p, t := Front(pieces), Last(pieces);
    var q := Split(t + b);
    assert pieces == p + [t];
    if p != [] {
      PrependConcat(c, p, q);
      PrependFront(c, p, t);
    } else {
      assert [] + [t] == [t] && [] + q == q;
      if c == '\n' { FrontOfTwo("", t, q); } else { FrontOfOne([c] + t, Prepend(c, q)); PrependText(c, t, b); }
    }
  }

  lemma FrontOfTwo(x: string, t: string, q: seq<string>)
    ensures ([x] + [t])[..1] + q == [x] + q && ([x] + [t])[1] == t
  {
  }

  lemma FrontOfOne(x: string, q: seq<string>)
    ensures [x][..0] + q == q
  {
  }

  lemma PrependText(c: char, t: string, b: string)
    ensures Split([c] + t + b) == Prepend(c, Split(t + b))
  {
    assert ([c] + t + b)[1..] == t + b;
  }

  lemma {:induction false} SplitConcat(a: string, b: string)
    ensures Split(a + b) == Complete(a) + Split(Tail(a) + b)
  {
    if a == "" {
      assert a + b == b && Complete(a) == [] && Tail(a) + b == b;
    } else {
      var c, a' := a[0], a[1..];
      assert a == [c] + a';
      SplitConcat(a', b);
      PrependText(c, a', b);
      PrependStep(c, Split(a'), b);
    }
  }

  lemma LinesConcat(a: string, b: string)
    ensures Complete(a + b) == Complete(a) + Complete(Tail(a) + b) && Tail(a + b) == Tail(Tail(a) + b)
  {
    SplitConcat(a, b);
    LastOf(Complete(a), Split(Tail(a) + b));
  }

  lemma LastOf(p: seq<string>, q: seq<string>)
    requires q != []
    ensures (p + q)[..|p + q| - 1] == p + q[..|q| - 1] && (p + q)[|p + q| - 1] == q[|q| - 1]
  {
  }

  function Concat(chunks: seq<string>): string {
    if chunks == [] then "" else Concat(chunks[..|chunks| - 1]) + chunks[|chunks| - 1]
  }

  lemma ConcatSnoc(chunks: seq<string>, chunk: string)
    ensures Concat(chunks + [chunk]) == Concat(chunks) + chunk
  {
    assert (chunks + [chunk])[..|chunks + [chunk]| - 1] == chunks;
  }

  /** The buffer and all lines seen after a sequence of chunks. */
  function Feed(chunks: seq<string>): (string, seq<string>) {
    if chunks == [] then ("", [])
    else
      var (buf, lines) := Feed(chunks[..|chunks| - 1]);
      var text := buf + chunks[|chunks| - 1];
      (Tail(text), lines + Complete(text))
  }

  /** However the stream is cut into chunks, the lines and the buffer are those of the whole text. */
  lemma {:induction false} ChunkingIsIrrelevant(chunks: seq<string>)
    ensures Feed(chunks) == (Tail(Concat(chunks)), Complete(Concat(chunks)))
  {
    if chunks != [] {
      var front, last := chunks[..|chunks| - 1], chunks[|chunks| - 1];
      ChunkingIsIrrelevant(front);
      LinesConcat(Concat(front), last);
    }
  }

  // ---------------------------------------------------------------- messages

  lemma {:induction false} MessagesPrefix(parse: string -> Option<Message>, a: seq<string>, b: seq<string>, n: nat)
    requires n <= |a|
    ensures MessagesTo(parse, a + b, n) == MessagesTo(parse, a, n)
  {
    if n > 0 { MessagesPrefix(parse, a, b, n - 1); }
  }

  lemma {:induction false} MessagesRest(parse: string -> Option<Message>, a: seq<string>, b: seq<string>, n: nat)
    requires n <= |b|
    ensures MessagesTo(parse, a + b, |a| + n) == Messages(parse, a) + MessagesTo(parse, b, n)
  {
    if n == 0 {
      MessagesPrefix(parse, a, b, |a|);
    } else {
      MessagesRest(parse, a, b, n - 1);
      assert (a + b)[|a| + n - 1] == b[n - 1];
      ReceivedAppends(Messages(parse, a), MessagesTo(parse, b, n - 1), Parsed(parse, b[n - 1]));
    }
  }

  lemma ReceivedAppends(x: seq<Message>, y: seq<Message>, m: Option<Message>)
    ensures Received(x + y, m) == x + Received(y, m)
  {
  }

  lemma MessagesConcat(parse: string -> Option<Message>, a: seq<string>, b: seq<string>)
    ensures Messages(parse, a + b) == Messages(parse, a) + Messages(parse, b)
  {
    MessagesRest(parse, a, b, |b|);
  }

  lemma BusySnoc(ms: seq<Message>, m: Message)
    ensures Busy(false, ms + [m]) == BusyAfter(Busy(false, ms), m)
  {
    assert (ms + [m])[..|ms + [m]| - 1] == ms;
  }

  /** The flag reports whether the newest starting event is newer than every ending one. */
  lemma {:induction false} BusyExactly(ms: seq<Message>)
    ensures Busy(false, ms) <==>
            exists i | 0 <= i < |ms| :: Starts(ms[i].event) && forall j | i < j < |ms| :: !Ends(ms[j].event)
  {
    if ms != [] {
      var front, last := ms[..|ms| - 1], ms[|ms| - 1];
      BusyExactly(front);
      if Busy(false, ms) && !Starts(last.event) {
        var i :| 0 <= i < |front| && Starts(front[i].event) && forall j | i < j < |front| :: !Ends(front[j].event);
        assert Starts(ms[i].event) && forall j | i < j < |ms| :: !Ends(ms[j].event);
      }
      if i :| 0 <= i < |ms| && Starts(ms[i].event) && forall j | i < j < |ms| :: !Ends(ms[j].event) {
        if i < |front| {
          assert Starts(front[i].event) && forall j | i < j < |front| :: !Ends(front[j].event);
        }
      }
    }
  }

  /** The agent's own words for the flag: busy from a phase start or a step until a phase or run is done or fails. */
  lemma BusyByEvents(ms: seq<Message>)
    ensures Busy(false, ms) <==>
            exists i | 0 <= i < |ms| ::
              && (ms[i].event == "phase_start" || ms[i].event == "step")
              && forall j | i < j < |ms| ::
                   ms[j].event != "phase_done" && ms[j].event != "done" && ms[j].event != "phase_error" && ms[j].event != "error"
  {
    BusyExactly(ms);
    forall e: string ensures Ends(e) <==> e == "phase_done" || e == "done" || e == "phase_error" || e == "error" {}
    if Busy(false, ms) {
      var i :| 0 <= i < |ms| && Starts(ms[i].event) && forall j | i < j < |ms| :: !Ends(ms[j].event);
      assert ms[i].event == "phase_start" || ms[i].event == "step";
    }
    if i :| && 0 <= i < |ms| && (ms[i].event == "phase_start" || ms[i].event == "step")
            && forall j | i < j < |ms| ::
                 ms[j].event != "phase_done" && ms[j].event != "done" && ms[j].event != "phase_error" && ms[j].event != "error" {
      assert Starts(ms[i].event);
    }
  }

  /** A line speaks when it is not blank, parses, and names an event. */
  ghost predicate Speaks(parse: string -> Option<Message>, line: string) {
    (exists c <- line :: !(c == ' ' || '\t' <= c <= '\r')) && parse(line).Some? && parse(line).value.event != ""
  }

  lemma SpeaksMeans(parse: string -> Option<Message>, line: string)
    ensures Parsed(parse, line) == if Speaks(parse, line) then parse(line) else None
  {
    TrimExact(line);
    var left, right :| Blank(left) && Blank(right) && line == left + Trim(line) + right;
    if Trim(line) == "" {
      assert line == left + right;
      assert Blank(line);
    } else {
      assert Trim(line)[0] in Trim(line)[..1];
      assert line[|left|] == Trim(line)[0] && line[|left|] in line;
    }
  }

  /** How many of the first `n` lines speak. */
  ghost function SpokenBefore(parse: string -> Option<Message>, lines: seq<string>, n: nat): nat
    requires n <= |lines|
  {
    if n == 0 then 0 else SpokenBefore(parse, lines, n - 1) + if Speaks(parse, lines[n - 1]) then 1 else 0
  }

  lemma {:induction false} SpokenLength(parse: string -> Option<Message>, lines: seq<string>, n: nat)
    requires n <= |lines|
    ensures |MessagesTo(parse, lines, n)| == SpokenBefore(parse, lines, n)
  {
    if n > 0 {
      SpokenLength(parse, lines, n - 1);
      SpeaksMeans(parse, lines[n - 1]);
    }
  }

  /** The messages are those of the speaking lines and no others, each behind exactly the ones spoken before it. */
  lemma {:induction false} MessagesExactly(parse: string -> Option<Message>, lines: seq<string>, n: nat, k: nat)
    requires k < n <= |lines|
    ensures |MessagesTo(parse, lines, n)| == SpokenBefore(parse, lines, n)
    ensures Speaks(parse, lines[k]) ==>
              && SpokenBefore(parse, lines, k) < |MessagesTo(parse, lines, n)|
              && MessagesTo(parse, lines, n)[SpokenBefore(parse, lines, k)] == parse(lines[k]).value
  {
    SpokenLength(parse, lines, n);
    SpeaksMeans(parse, lines[n - 1]);
    if k == n - 1 {
      SpokenLength(parse, lines, k);
    } else {
      MessagesExactly(parse, lines, n - 1, k);
    }
  }

  class SessionStdout {
    const parse: string -> Option<Message>
    var stdoutBuf: string
    var busy: bool
    var emitted: seq<Message>
    ghost var chunks: seq<string>

    /** Everything observable is a function of the text received so far. */
    ghost predicate Valid()
      reads this
    {
      && stdoutBuf == Tail(Concat(chunks))
      && emitted == Messages(parse, Complete(Concat(chunks)))
      && busy == Busy(false, emitted)
    }

    constructor (parse: string -> Option<Message>)
      ensures Valid() && chunks == [] && this.parse == parse
    {
      this.parse, stdoutBuf, busy, emitted, chunks := parse, "", false, [], [];
    }

    method OnStdout(chunk: string)
      requires Valid()
      modifies this
      ensures Valid() && chunks == old(chunks) + [chunk]
    {
      ghost var text := Concat(chunks);
      ConcatSnoc(chunks, chunk);
      LinesConcat(text, chunk);
      chunks := chunks + [chunk];
      var pieces := Split(stdoutBuf + chunk);
      var lines := Front(pieces);
      stdoutBuf := Last(pieces);
      MessagesConcat(parse, Complete(text), lines);
      HandleLines(lines);
    }

    method HandleLines(lines: seq<string>)
      requires busy == Busy(false, emitted)
      modifies `busy, `emitted
      ensures emitted == old(emitted) + Messages(parse, lines) && busy == Busy(false, emitted)
    {
      for i := 0 to |lines|
        invariant emitted == old(emitted) + MessagesTo(parse, lines, i) && busy == Busy(false, emitted)
      {
        var line := lines[i];
        ReceivedAppends(old(emitted), MessagesTo(parse, lines, i), Parsed(parse, line));
        if Trim(line) != "" && parse(line).Some? {
          HandleAgentMessage(parse(line).value);
        }
      }
    }

    method HandleAgentMessage(m: Message)
      requires busy == Busy(false, emitted)
      modifies `busy, `emitted
      ensures emitted == if m.event == "" then old(emitted) else old(emitted) + [m]
      ensures busy == Busy(false, emitted)
    {
      if m.event == "" { return; }
      if Starts(m.event) { busy := true; }
      if Ends(m.event) { busy := false; }
      BusySnoc(emitted, m);
      emitted := emitted + [m];
    }
  }
}
