/**
 The edge's incremental reader of server-sent events: find the end of the first
 complete frame, parse it, keep the tail. Section 9.2.6 of the WHATWG HTML
 Living Standard describes the format.
 */
module Sse {
  import opened Prelude
  import opened Decimal

  datatype SseEvent = SseEvent(id: Option<U64>, event: string, data: string)

  // ---- Where a frame ends ----

  /** The two terminators: a blank line after LF or after CRLF. */
  datatype Mark = Lf | CrLf

  predicate At(s: string, m: Mark, i: nat) {
    match m
    case Lf => i + 2 <= |s| && s[i] == '\n' && s[i + 1] == '\n'
    case CrLf => i + 4 <= |s| && s[i] == '\r' && s[i + 1] == '\n' && s[i + 2] == '\r' && s[i + 3] == '\n'
  }

  /** `buf.find(..)` for one of the terminators, from position `i` on. */
  function FindFrom(s: string, m: Mark, i: nat): (r: Option<nat>)
    requires i <= |s|
    ensures r.Some? ==> i <= r.value && At(s, m, r.value)
    decreases |s| - i
  {
    if At(s, m, i) then Some(i)
    else if i == |s| then None
    else FindFrom(s, m, i + 1)
  }

  lemma {:induction false} FindsFirst(s: string, m: Mark, i: nat, j: nat)
    requires i <= j && At(s, m, j)
    ensures FindFrom(s, m, i).Some? && FindFrom(s, m, i).value <= j
    decreases j - i
  {
    if !At(s, m, i) {
      FindsFirst(s, m, i + 1, j);
    }
  }

  /** End offset of the first complete frame, past its terminator. */
  function FrameEnd(buf: string): Option<nat> {
    var lf := FindFrom(buf, Lf, 0);
    var crlf := FindFrom(buf, CrLf, 0);
    match (lf, crlf)
    case (Some(a), Some(b)) => Some(if a + 2 <= b + 4 then a + 2 else b + 4)
    case (Some(a), None) => Some(a + 2)
    case (None, Some(b)) => Some(b + 4)
    case (None, None) => None
  }

  /** A terminator ends at offset `e`. */
  predicate Terminates(s: string, e: nat) {
    (e >= 2 && At(s, Lf, e - 2)) || (e >= 4 && At(s, CrLf, e - 4))
  }

  lemma FrameEndTerminates(s: string)
    requires FrameEnd(s).Some?
    ensures 2 <= FrameEnd(s).value <= |s| && Terminates(s, FrameEnd(s).value)
  {
  }

  /** No terminator ends before the one that is found. */
  lemma FrameEndLeast(s: string, e: nat)
    requires Terminates(s, e)
    ensures FrameEnd(s).Some? && FrameEnd(s).value <= e
  {
    if e >= 2 && At(s, Lf, e - 2) {
      FindsFirst(s, Lf, 0, e - 2);
    } else {
      FindsFirst(s, CrLf, 0, e - 4);
    }
  }

  // ---- One frame ----

  /** Unicode White_Space, which `trim_start` removes. */
  predicate IsWhitespace(c: char) {
    var n := c as int;
    || 0x09 <= n <= 0x0D || n == 0x20 || n == 0x85 || n == 0xA0 || n == 0x1680
    || 0x2000 <= n <= 0x200A || n == 0x2028 || n == 0x2029 || n == 0x202F || n == 0x205F || n == 0x3000
  }

  function TrimStart(s: string): string {
    if s != "" && IsWhitespace(s[0]) then TrimStart(s[1..]) else s
  }

  function StripCr(s: string): string {
    if s != "" && s[|s| - 1] == '\r' then s[..|s| - 1] else s
  }

  /** `trim_end_matches(['\n', '\r'])` */
  function TrimEnd(s: string): string {
    if s != "" && s[|s| - 1] in "\n\r" then TrimEnd(s[..|s| - 1]) else s
  }

  /** Index of the first `c` in `s`, or |s|. */
  function IndexOf(s: string, c: char): (i: nat)
    ensures i <= |s| && (i < |s| ==> s[i] == c)
    ensures forall j | 0 <= j < i :: s[j] != c
  {
    if s == "" || s[0] == c then 0 else 1 + IndexOf(s[1..], c)
  }

  /** `str::lines`: a line feed, with a carriage return before it if there is one, ends a line. */
  function Lines(s: string): seq<string> {
    if s == "" then []
    else
      var i := IndexOf(s, '\n');
      if i == |s| then [s] else [StripCr(s[..i])] + Lines(s[i + 1..])
  }

  function JoinLines(ls: seq<string>): string {
    if ls == [] then ""
    else if |ls| == 1 then ls[0]
    else ls[0] + "\n" + JoinLines(ls[1..])
  }

  /** The parser's variables after some lines. */
  datatype Acc = Acc(id: Option<U64>, event: string, data: seq<string>, sawField: bool)

  const START: Acc := Acc(None, "message", [], false)

  function SetField(acc: Acc, field: string, value: string): Acc {
    if field == "id" then
      var n := ParseU64(value);
      if n.Some? then acc.(id := n) else acc
    else if field == "event" then
      if value != "" then acc.(event := value) else acc
    else if field == "data" then acc.(data := acc.data + [value])
    else acc
  }

  function Feed(acc: Acc, rawLine: string): Acc {
    var line := StripCr(rawLine);
    if line == "" || line[0] == ':' then acc
    else
      var i := IndexOf(line, ':');
      var value := if i < |line| then TrimStart(line[i + 1..]) else "";
      SetField(acc.(sawField := true), line[..i], value)
  }

  function FeedAll(acc: Acc, lines: seq<string>): Acc
    decreases |lines|
  {
    if lines == [] then acc else FeedAll(Feed(acc, lines[0]), lines[1..])
  }

  function Finish(acc: Acc): Option<SseEvent> {
    if !acc.sawField || (acc.event == "message" && acc.data == []) then None
    else Some(SseEvent(acc.id, acc.event, JoinLines(acc.data)))
  }

  function ParseFrame(block: string): Option<SseEvent> {
    Finish(FeedAll(START, Lines(block)))
  }

  /** The line loop of the frame parser. */
  method ParseBlock(block: string) returns (r: Option<SseEvent>)
    ensures r == ParseFrame(block)
  {
    var lines := Lines(block);
    var id: Option<U64>, event, data, sawField := None, "message", [], false;
    assert lines[0..] == lines;
    for k := 0 to |lines|
      invariant FeedAll(START, lines) == FeedAll(Acc(id, event, data, sawField), lines[k..])
    {
      assert lines[k..][0] == lines[k] && lines[k..][1..] == lines[k + 1..];
      var line := StripCr(lines[k]);
      if line == "" || line[0] == ':' {
        continue;
      }
      sawField := true;
      var i := IndexOf(line, ':');
      var field, value := line[..i], if i < |line| then TrimStart(line[i + 1..]) else "";
      if field == "id" {
        var n := ParseU64(value);
        if n.Some? {
          id := n;
        }
      } else if field == "event" {
        if value != "" {
          event := value;
        }
      } else if field == "data" {
        data := data + [value];
      }
    }
    if !sawField || (event == "message" && data == []) {
      return None;
    }
    return Some(SseEvent(id, event, JoinLines(data)));
  }

  lemma {:induction false} FeedAllAppend(acc: Acc, a: seq<string>, b: seq<string>)
    ensures FeedAll(acc, a + b) == FeedAll(FeedAll(acc, a), b)
    decreases |a|
  {
    if a == [] {
      assert a + b == b;
    } else {
      assert (a + b)[1..] == a[1..] + b;
      FeedAllAppend(Feed(acc, a[0]), a[1..], b);
    }
  }

  /** A comment line anywhere in a frame changes nothing. */
  lemma CommentsIgnored(acc: Acc, a: seq<string>, text: string, b: seq<string>)
    ensures FeedAll(acc, a + [":" + text] + b) == FeedAll(acc, a + b)
  {
    var comment := ":" + text;
    FeedAllAppend(acc, a + [comment], b);
    FeedAllAppend(acc, a, [comment]);
    FeedAllAppend(acc, a, b);
    assert [comment][1..] == [];
    assert Feed(FeedAll(acc, a), comment) == FeedAll(acc, a);
  }

  /**
   The line gives a field a value: the name, a colon and the value after any white
   space, or the name alone. A carriage return at the end does not count, and a blank
   line or a comment gives nothing.
   */
  ghost predicate Says(line: string, field: string, value: string) {
    && field != "" && ':' !in field
    && ((StripCr(line) == field && value == "")
        || exists rest :: StripCr(line) == field + ":" + rest && value == TrimStart(rest))
  }

  lemma SaysAt(line: string, field: string, value: string)
    ensures var l := StripCr(line);
            Says(line, field, value) <==>
            && l != "" && l[0] != ':' && field == l[..IndexOf(l, ':')]
            && value == if IndexOf(l, ':') < |l| then TrimStart(l[IndexOf(l, ':') + 1..]) else ""
  {
    var l := StripCr(line);
    var i := IndexOf(l, ':');
    if Says(line, field, value) {
      if l == field {
        assert l[..i] == l;
      } else {
        var rest :| l == field + ":" + rest && value == TrimStart(rest);
        assert l[|field|] == ':' && l[..|field|] == field;
        assert forall j | 0 <= j < |field| :: l[j] == field[j];
        assert i == |field| && l[i + 1..] == rest;
      }
    } else if l != "" && l[0] != ':' && i < |l| {
      assert l == l[..i] + ":" + l[i + 1..];
    }
  }

  /** What a line does: at most one field changes, data accumulates, and an unusable id or event name is ignored. */
  lemma FieldEffect(acc: Acc, line: string, field: string, value: string)
    requires Says(line, field, value)
    ensures Feed(acc, line) ==
            Acc(if field == "id" && ParseU64(value).Some? then ParseU64(value) else acc.id,
                if field == "event" && value != "" then value else acc.event,
                if field == "data" then acc.data + [value] else acc.data, true)
  {
    SaysAt(line, field, value);
    assert "id"[0] != "event"[0] && "event"[0] != "data"[0] && "data"[0] != "id"[0];
  }

  /** ... and a line that gives no field a value does nothing. */
  lemma SilentLine(acc: Acc, line: string)
    requires forall field, value :: !Says(line, field, value)
    ensures Feed(acc, line) == acc
  {
    var l := StripCr(line);
    if l != "" && l[0] != ':' {
      var i := IndexOf(l, ':');
      SaysAt(line, l[..i], if i < |l| then TrimStart(l[i + 1..]) else "");
    }
  }

  /** The line sets the id. */
  ghost predicate SetsId(line: string) {
    exists value :: Says(line, "id", value) && ParseU64(value).Some?
  }

  ghost predicate SetsEvent(line: string) {
    exists value :: Says(line, "event", value) && value != ""
  }

  lemma FeedKeeps(acc: Acc, line: string)
    ensures !SetsId(line) ==> Feed(acc, line).id == acc.id
    ensures !SetsEvent(line) ==> Feed(acc, line).event == acc.event
  {
    if field, value :| Says(line, field, value) {
      FieldEffect(acc, line, field, value);
    } else {
      SilentLine(acc, line);
    }
  }

  lemma {:induction false} FeedAllKeeps(acc: Acc, lines: seq<string>)
    ensures (forall i | 0 <= i < |lines| :: !SetsId(lines[i])) ==> FeedAll(acc, lines).id == acc.id
    ensures (forall i | 0 <= i < |lines| :: !SetsEvent(lines[i])) ==> FeedAll(acc, lines).event == acc.event
    decreases |lines|
  {
    if lines != [] {
      FeedKeeps(acc, lines[0]);
      FeedAllKeeps(Feed(acc, lines[0]), lines[1..]);
      assert forall i | 0 <= i < |lines| - 1 :: lines[1..][i] == lines[i + 1];
    }
  }

  /** The last usable id and the last usable event name of a frame are the ones that count. */
  lemma LastWins(acc: Acc, before: seq<string>, line: string, field: string, value: string, after: seq<string>)
    requires Says(line, field, value)
    ensures var t := FeedAll(acc, before + [line] + after);
            && (field == "id" && ParseU64(value).Some? && (forall i | 0 <= i < |after| :: !SetsId(after[i]))
                ==> t.id == ParseU64(value))
            && (field == "event" && value != "" && (forall i | 0 <= i < |after| :: !SetsEvent(after[i]))
                ==> t.event == value)
  {
    FeedAllAppend(acc, before + [line], after);
    FeedAllAppend(acc, before, [line]);
    assert [line][1..] == [];
    FieldEffect(FeedAll(acc, before), line, field, value);
    FeedAllKeeps(FeedAll(acc, before + [line]), after);
  }

  // ---- The stream ----

  /** The complete frames of `s`, terminators included, and the tail that is left. */
  function Split(s: string): (seq<string>, string)
    decreases |s|
  {
    var end := FrameEnd(s);
    if end.None? then ([], s)
    else
      FrameEndTerminates(s);
      var rest := Split(s[end.value..]);
      ([s[..end.value]] + rest.0, rest.1)
  }

  function Emit(block: string): seq<SseEvent> {
    var r := ParseFrame(TrimEnd(block));
    if r.Some? then [r.value] else []
  }

  function FlatMap(blocks: seq<string>, f: string -> seq<SseEvent>): seq<SseEvent> {
    if blocks == [] then [] else f(blocks[0]) + FlatMap(blocks[1..], f)
  }

  /** All events of the complete frames in `s`, and the tail that is left. */
  function Drain(s: string): (seq<SseEvent>, string) {
    (FlatMap(Split(s).0, Emit), Split(s).1)
  }

  lemma FlatMapCons(block: string, blocks: seq<string>, f: string -> seq<SseEvent>)
    ensures FlatMap([block] + blocks, f) == f(block) + FlatMap(blocks, f)
  {
    assert ([block] + blocks)[1..] == blocks;
  }

  lemma {:induction false} FlatMapAppend(a: seq<string>, b: seq<string>, f: string -> seq<SseEvent>)
    ensures FlatMap(a + b, f) == FlatMap(a, f) + FlatMap(b, f)
  {
    if a == [] {
      assert a + b == b;
    } else {
      FlatMapAppend(a[1..], b, f);
      assert a + b == [a[0]] + (a[1..] + b);
      FlatMapCons(a[0], a[1..] + b, f);
      EventsAssoc(f(a[0]), FlatMap(a[1..], f), FlatMap(b, f));
    }
  }

  lemma EventsAssoc(a: seq<SseEvent>, b: seq<SseEvent>, c: seq<SseEvent>)
    ensures a + b + c == a + (b + c)
  {
  }

  lemma FlatMapSnoc(blocks: seq<string>, block: string, f: string -> seq<SseEvent>)
    ensures FlatMap(blocks + [block], f) == FlatMap(blocks, f) + f(block)
  {
    FlatMapAppend(blocks, [block], f);
    FlatMapCons(block, [], f);
    assert [block] + [] == [block];
  }

  lemma SplitStep(done: seq<string>, s: string)
    requires FrameEnd(s).Some? && FrameEnd(s).value <= |s|
    ensures var e := FrameEnd(s).value;
            && done + Split(s).0 == done + [s[..e]] + Split(s[e..]).0
            && Split(s).1 == Split(s[e..]).1
  {
    var e := FrameEnd(s).value;
    assert Split(s).0 == [s[..e]] + Split(s[e..]).0;
  }

  /** The stream thread's buffer, drained in place. */
  class FrameBuffer {
    var buf: string

    constructor ()
      ensures buf == ""
    {
      buf := "";
    }

    /** Every turn removes a frame of at least two characters. */
    method DrainFrames() returns (events: seq<SseEvent>)
      modifies this
      ensures (events, buf) == Drain(old(buf))
    {
      events := [];
      ghost var done: seq<string> := [];
      var end := FrameEnd(buf);
      assert done + Split(buf).0 == Split(buf).0;
      while end.Some?
        invariant end == FrameEnd(buf)
        invariant Split(old(buf)) == (done + Split(buf).0, Split(buf).1)
        invariant events == FlatMap(done, Emit)
        decreases |buf|
      {
        FrameEndTerminates(buf);
        var block := buf[..end.value];
        SplitStep(done, buf);
        FlatMapSnoc(done, block, Emit);
        var ev := ParseBlock(TrimEnd(block));
        if ev.Some? {
          events := events + [ev.value];
        }
        done := done + [block];
        buf := buf[end.value..];
        end := FrameEnd(buf);
      }
      assert done + [] == done;
    }

    /** One read: append what arrived, then drain. */
    method Receive(chunk: string) returns (events: seq<SseEvent>)
      modifies this
      ensures (events, buf) == Drain(old(buf) + chunk)
    {
      buf := buf + chunk;
      events := DrainFrames();
    }
  }

  // ---- Chunks do not matter ----

  lemma TerminatesPrefix(s: string, t: string, e: nat)
    requires e <= |s|
    ensures Terminates(s + t, e) == Terminates(s, e)
  {
  }

  /** More text after a complete frame does not change where that frame ends. */
  lemma FrameEndStable(s: string, t: string)
    requires FrameEnd(s).Some?
    ensures FrameEnd(s + t) == FrameEnd(s)
  {
    var e := FrameEnd(s).value;
    FrameEndTerminates(s);
    TerminatesPrefix(s, t, e);
    FrameEndLeast(s + t, e);
    var f := FrameEnd(s + t).value;
    FrameEndTerminates(s + t);
    TerminatesPrefix(s, t, f);
    FrameEndLeast(s, f);
  }

  lemma {:induction false} SplitTail(s: string)
    ensures FrameEnd(Split(s).1).None?
    decreases |s|
  {
    var end := FrameEnd(s);
    if end.Some? {
      FrameEndTerminates(s);
      SplitTail(s[end.value..]);
    }
  }

  lemma BlocksAssoc(a: seq<string>, b: seq<string>, c: seq<string>)
    ensures a + b + c == a + (b + c)
  {
  }

  lemma {:induction false} SplitChunks(s: string, t: string)
    ensures var first := Split(s);
            var second := Split(first.1 + t);
            Split(s + t) == (first.0 + second.0, second.1)
    decreases |s|
  {
    if FrameEnd(s).Some? {
      var e := FrameEnd(s).value;
      FrameEndTerminates(s);
      FrameEndStable(s, t);
      assert (s + t)[..e] == s[..e];
      assert (s + t)[e..] == s[e..] + t;
      SplitChunks(s[e..], t);
      BlocksAssoc([s[..e]], Split(s[e..]).0, Split(Split(s).1 + t).0);
    } else {
      assert [] + Split(s + t).0 == Split(s + t).0;
    }
  }

  /** Reading `s` and then `t` gives the same events and the same tail as reading both at once. */
  lemma ChunkIndependent(s: string, t: string)
    ensures var first := Drain(s);
            var second := Drain(first.1 + t);
            Drain(s + t) == (first.0 + second.0, second.1)
  {
    SplitChunks(s, t);
    FlatMapAppend(Split(s).0, Split(Split(s).1 + t).0, Emit);
  }

  /** The events of a stream that arrives in pieces. */
  function DrainAll(buf: string, chunks: seq<string>): (seq<SseEvent>, string)
    decreases |chunks|
  {
    if chunks == [] then ([], buf)
    else
      var first := Drain(buf + chunks[0]);
      var rest := DrainAll(first.1, chunks[1..]);
      (first.0 + rest.0, rest.1)
  }

  function Concat(chunks: seq<string>): string {
    if chunks == [] then "" else chunks[0] + Concat(chunks[1..])
  }

  lemma ConcatAssoc(a: string, b: string, c: string)
    ensures a + b + c == a + (b + c)
  {
  }

  /** Any way of cutting a stream into pieces yields the events of the whole. */
  lemma {:induction false} AnyChunking(buf: string, chunks: seq<string>)
    requires FrameEnd(buf).None?
    ensures DrainAll(buf, chunks) == Drain(buf + Concat(chunks))
    decreases |chunks|
  {
    if chunks == [] {
      assert buf + Concat(chunks) == buf;
      assert Split(buf) == ([], buf);
    } else {
      var head, tail := buf + chunks[0], Concat(chunks[1..]);
      SplitTail(head);
      AnyChunking(Drain(head).1, chunks[1..]);
      ChunkIndependent(head, tail);
      ConcatAssoc(buf, chunks[0], tail);
    }
  }
}
