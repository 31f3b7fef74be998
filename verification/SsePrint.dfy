/**
 The control plane's SSE printer against the edge's reader. The main result is
 exact: printing an event and reading it back gives that event if and only if
 `RoundTrips` holds of it, and then any number of printed frames read back in
 order with nothing left over.
 */
module SsePrint {
  import opened Prelude
  import opened Decimal
  import opened Sse

  // ---- Printing ----

  function Unlines(ls: seq<string>): string {
    if ls == [] then "" else ls[0] + "\n" + Unlines(ls[1..])
  }

  function DataLines(ds: seq<string>): (ls: seq<string>)
    ensures |ls| == |ds|
  {
    if ds == [] then [] else ["data: " + ds[0]] + DataLines(ds[1..])
  }

  function IdLines(id: Option<U64>): seq<string> {
    if id.Some? then ["id: " + Digits(id.value)] else []
  }

  function FrameLines(e: SseEvent): seq<string> {
    IdLines(e.id) + (["event: " + e.event] + DataLines(Lines(e.data)))
  }

  /** The text of one frame. */
  function Print(e: SseEvent): string {
    Unlines(FrameLines(e)) + "\n"
  }

  lemma {:induction false} UnlinesAppend(a: seq<string>, b: seq<string>)
    ensures Unlines(a + b) == Unlines(a) + Unlines(b)
  {
    if a == [] {
      assert a + b == b;
    } else {
      assert (a + b)[1..] == a[1..] + b && (a + b)[0] == a[0];
      UnlinesAppend(a[1..], b);
      ConcatAssoc(a[0] + "\n", Unlines(a[1..]), Unlines(b));
    }
  }

  lemma UnlinesOne(l: string)
    ensures Unlines([l]) == l + "\n"
  {
    assert [l][1..] == [];
    assert Unlines([l][1..]) == "";
  }

  /** The printer: a string that grows line by line. */
  method SseFrame(id: Option<U64>, event: string, data: string) returns (s: string)
    ensures s == Print(SseEvent(id, event, data))
  {
    s := "";
    if id.Some? {
      s := s + ("id: " + Digits(id.value) + "\n");
    }
    s := s + ("event: " + event + "\n");
    var lines := Lines(data);
    ghost var head := IdLines(id) + ["event: " + event];
    PrintedHead(id, event);
    for k := 0 to |lines|
      invariant s == Unlines(head) + Unlines(DataLines(lines[..k]))
    {
      s := s + ("data: " + lines[k] + "\n");
      DataSnoc(lines, k);
      ConcatAssoc(Unlines(head), Unlines(DataLines(lines[..k])), "data: " + lines[k] + "\n");
    }
    assert lines[..|lines|] == lines;
    PrintedWhole(id, event, data);
    s := s + "\n";
  }

  lemma PrintedWhole(id: Option<U64>, event: string, data: string)
    ensures Unlines(IdLines(id) + ["event: " + event]) + Unlines(DataLines(Lines(data)))
         == Unlines(FrameLines(SseEvent(id, event, data)))
  {
    var head, tail := IdLines(id) + ["event: " + event], DataLines(Lines(data));
    UnlinesAppend(head, tail);
    assert head + tail == FrameLines(SseEvent(id, event, data));
  }

  lemma PrintedHead(id: Option<U64>, event: string)
    ensures Unlines(IdLines(id) + ["event: " + event])
         == (if id.Some? then "" + ("id: " + Digits(id.value) + "\n") else "") + ("event: " + event + "\n")
    ensures Unlines(DataLines([])) == ""
  {
    UnlinesAppend(IdLines(id), ["event: " + event]);
    UnlinesOne("event: " + event);
    if id.Some? {
      UnlinesOne("id: " + Digits(id.value));
    }
  }

  lemma DataSnoc(lines: seq<string>, k: nat)
    requires k < |lines|
    ensures Unlines(DataLines(lines[..k + 1]))
         == Unlines(DataLines(lines[..k])) + ("data: " + lines[k] + "\n")
  {
    assert lines[..k + 1] == lines[..k] + [lines[k]];
    DataAppend(lines[..k], [lines[k]]);
    assert [lines[k]][1..] == [];
    assert DataLines([lines[k]]) == ["data: " + lines[k]];
    UnlinesAppend(DataLines(lines[..k]), ["data: " + lines[k]]);
    UnlinesOne("data: " + lines[k]);
  }

  lemma {:induction false} DataAppend(a: seq<string>, b: seq<string>)
    ensures DataLines(a + b) == DataLines(a) + DataLines(b)
  {
    if a == [] {
      assert a + b == b;
    } else {
      assert (a + b)[1..] == a[1..] + b;
      DataAppend(a[1..], b);
    }
  }

  // ---- Where a printed frame ends ----

  /** A non-empty line that does not start with a line break or hold a line feed. */
  predicate Solid(l: string) {
    l != "" && l[0] != '\r' && '\n' !in l
  }

  predicate AllSolid(ls: seq<string>) {
    forall i | 0 <= i < |ls| :: Solid(ls[i])
  }

  /** No terminator ends inside solid lines. */
  lemma {:induction false} NoEarlyEnd(ls: seq<string>, rest: string, e: nat)
    requires AllSolid(ls) && e <= |Unlines(ls)|
    ensures !Terminates(Unlines(ls) + ("\n" + rest), e)
    decreases |ls|
  {
    if ls != [] {
      var l, tail := ls[0], Unlines(ls[1..]) + ("\n" + rest);
      var s := Unlines(ls) + ("\n" + rest);
      assert Solid(l);
      assert s == l + "\n" + tail by {
        ConcatAssoc(l + "\n", Unlines(ls[1..]), "\n" + rest);
      }
      if e > |l| + 1 {
        assert AllSolid(ls[1..]);
        NoEarlyEnd(ls[1..], rest, e - |l| - 1);
        assert ls[1..] != [] && Solid(ls[1..][0]);
        assert tail[0] == ls[1..][0][0];
      }
      if Terminates(s, e) {
        OneLineOff(l, tail, s, e);
      }
    }
  }

  /** A terminator that ends in `l + "\n" + tail` ends in `tail`, if `tail` starts in mid-line. */
  lemma OneLineOff(l: string, tail: string, s: string, e: nat)
    requires Solid(l) && s == l + "\n" + tail && Terminates(s, e)
    requires e > |l| + 1 ==> tail != "" && tail[0] != '\r' && tail[0] != '\n'
    ensures e > |l| + 1 && Terminates(tail, e - |l| - 1)
  {
    assert s[|l|] == '\n';
    assert forall i | 0 <= i < |l| :: s[i] == l[i] && s[i] != '\n';
    assert forall i | |l| < i < |s| :: s[i] == tail[i - |l| - 1];
  }

  lemma FirstBlank(ls: seq<string>, rest: string)
    requires AllSolid(ls) && ls != []
    ensures FrameEnd(Unlines(ls) + "\n" + rest) == Some(|Unlines(ls)| + 1)
  {
    var u := Unlines(ls);
    var s := u + ("\n" + rest);
    ConcatAssoc(u, "\n", rest);
    UnlinesEnds(ls);
    var e := |u| + 1;
    assert s[e - 2] == '\n' && s[e - 1] == '\n';
    assert Terminates(s, e);
    FrameEndLeast(s, e);
    FrameEndTerminates(s);
    if FrameEnd(s).value < e {
      NoEarlyEnd(ls, rest, FrameEnd(s).value);
    }
  }

  lemma {:induction false} UnlinesEnds(ls: seq<string>)
    requires ls != []
    ensures Unlines(ls) != "" && Unlines(ls)[|Unlines(ls)| - 1] == '\n'
  {
    if |ls| > 1 {
      UnlinesEnds(ls[1..]);
    } else {
      assert ls == [ls[0]];
      UnlinesOne(ls[0]);
    }
  }

  // ---- Lines of a printed frame ----

  /** What is left of each line when the block is trimmed and cut into lines. */
  function Cuts(ls: seq<string>): seq<string> {
    if ls == [] then []
    else if |ls| == 1 then [TrimEnd(ls[0])]
    else [StripCr(ls[0])] + Cuts(ls[1..])
  }

  lemma {:induction false} TrimEndSolid(l: string)
    requires Solid(l)
    ensures TrimEnd(l) != "" && '\n' !in TrimEnd(l) && TrimEnd(l) <= l
    decreases |l|
  {
    if l[|l| - 1] in "\n\r" {
      TrimEndSolid(l[..|l| - 1]);
    }
  }

  lemma {:induction false} TrimEndPrefix(a: string, b: string)
    requires TrimEnd(b) != ""
    ensures TrimEnd(a + b) == a + TrimEnd(b)
    decreases |b|
  {
    if b[|b| - 1] in "\n\r" {
      assert (a + b)[..|a + b| - 1] == a + b[..|b| - 1];
      TrimEndPrefix(a, b[..|b| - 1]);
    }
  }

  lemma TrimEndBreak(s: string)
    ensures TrimEnd(s + "\n") == TrimEnd(s)
  {
    assert (s + "\n")[..|s|] == s;
  }

  lemma {:induction false} IndexOfAfter(a: string, c: char, b: string)
    requires c !in a
    ensures IndexOf(a + [c] + b, c) == |a|
  {
    var s := a + [c] + b;
    if a == "" {
      assert s[0] == c;
    } else {
      assert s[0] == a[0];
      assert s[1..] == a[1..] + [c] + b;
      IndexOfAfter(a[1..], c, b);
    }
  }

  lemma {:induction false} IndexOfAbsent(a: string, c: char)
    requires c !in a
    ensures IndexOf(a, c) == |a|
  {
    if a != "" {
      IndexOfAbsent(a[1..], c);
    }
  }

  lemma LinesCons(l: string, rest: string)
    requires '\n' !in l
    ensures Lines(l + "\n" + rest) == [StripCr(l)] + Lines(rest)
  {
    var s := l + "\n" + rest;
    IndexOfAfter(l, '\n', rest);
    assert s[..|l|] == l && s[|l| + 1..] == rest;
  }

  lemma LinesLast(l: string)
    requires l != "" && '\n' !in l
    ensures Lines(l) == [l]
  {
    IndexOfAbsent(l, '\n');
  }

  /** Trimming a printed block and cutting it into lines gives `Cuts`. */
  lemma {:induction false} LinesOfBlock(ls: seq<string>)
    requires AllSolid(ls) && ls != []
    ensures TrimEnd(Unlines(ls) + "\n") != ""
    ensures Lines(TrimEnd(Unlines(ls) + "\n")) == Cuts(ls)
  {
    TrimEndBreak(Unlines(ls));
    assert Solid(ls[0]);
    if |ls| == 1 {
      assert ls == [ls[0]];
      UnlinesOne(ls[0]);
      TrimEndBreak(ls[0]);
      TrimEndSolid(ls[0]);
      LinesLast(TrimEnd(ls[0]));
    } else {
      var rest := ls[1..];
      assert AllSolid(rest);
      LinesOfBlock(rest);
      TrimEndBreak(Unlines(rest));
      TrimEndPrefix(ls[0] + "\n", Unlines(rest));
      LinesCons(ls[0], TrimEnd(Unlines(rest)));
    }
  }

  // ---- Feeding those lines to the parser ----

  lemma StripPrefix(a: string, b: string)
    requires a != "" && a[|a| - 1] != '\r'
    ensures StripCr(a + b) == a + StripCr(b)
  {
    if b == "" {
      assert a + b == a;
    } else {
      assert (a + b)[|a + b| - 1] == b[|b| - 1];
      assert (a + b)[..|a + b| - 1] == a + b[..|b| - 1];
    }
  }

  lemma {:induction false} TrimEndKeeps(a: string, b: string)
    requires a != "" && a[|a| - 1] !in "\n\r"
    ensures TrimEnd(a + b) == a + TrimEnd(b)
    decreases |b|
  {
    if b == "" {
      assert a + b == a;
    } else {
      assert (a + b)[|a + b| - 1] == b[|b| - 1];
      if b[|b| - 1] in "\n\r" {
        assert (a + b)[..|a + b| - 1] == a + b[..|b| - 1];
        TrimEndKeeps(a, b[..|b| - 1]);
      }
    }
  }

  lemma {:induction false} TrimEndNoCr(s: string)
    ensures StripCr(TrimEnd(s)) == TrimEnd(s)
  {
    if s != "" && s[|s| - 1] in "\n\r" {
      TrimEndNoCr(s[..|s| - 1]);
    }
  }

  /** What the parser makes of the text after a field name, in mid-block or at its end. */
  function Kept(v: string, last: bool): string {
    TrimStart(Shorn(v, last))
  }

  predicate FieldName(f: string) {
    f != "" && ':' !in f && f[0] != ':'
  }

  function Cut(l: string, last: bool): string {
    if last then TrimEnd(l) else StripCr(l)
  }

  function Shorn(v: string, last: bool): string {
    if last then TrimEnd(v) else StripCr(StripCr(v))
  }

  lemma CutPrefix(p: string, v: string, last: bool)
    requires p != "" && p[|p| - 1] == ' '
    ensures StripCr(Cut(p + v, last)) == p + Shorn(v, last)
  {
    if last {
      TrimEndKeeps(p, v);
      TrimEndNoCr(v);
      StripPrefix(p, TrimEnd(v));
    } else {
      StripPrefix(p, v);
      StripPrefix(p, StripCr(v));
    }
  }

  lemma SpaceTrims(w: string)
    ensures TrimStart(" " + w) == TrimStart(w)
  {
    assert (" " + w)[1..] == w;
  }

  /** A printed field line, after cutting and stripping, is the field with its kept value. */
  lemma FieldLine(f: string, v: string, last: bool)
    requires FieldName(f)
    ensures var line := StripCr(Cut(f + ": " + v, last));
            && line != "" && line[0] != ':'
            && IndexOf(line, ':') == |f| && |f| < |line|
            && line[..|f|] == f
            && TrimStart(line[|f| + 1..]) == Kept(v, last)
  {
    CutPrefix(f + ": ", v, last);
    var w := Shorn(v, last);
    var line := f + ": " + w;
    assert line == f + [':'] + (" " + w);
    IndexOfAfter(f, ':', " " + w);
    assert line[|f| + 1..] == " " + w;
    SpaceTrims(w);
  }

  function WithEvent(acc: Acc, v: string): Acc {
    if v == "" then acc.(sawField := true) else acc.(sawField := true, event := v)
  }

  lemma FeedField(acc: Acc, f: string, v: string, last: bool)
    requires FieldName(f)
    ensures Feed(acc, Cut(f + ": " + v, last)) == SetField(acc.(sawField := true), f, Kept(v, last))
  {
    FieldLine(f, v, last);
  }

  lemma FeedEvent(acc: Acc, v: string, last: bool)
    ensures Feed(acc, Cut("event: " + v, last)) == WithEvent(acc, Kept(v, last))
  {
    FeedField(acc, "event", v, last);
    assert "event" + ": " + v == "event: " + v;
  }

  lemma FeedData(acc: Acc, v: string, last: bool)
    ensures Feed(acc, Cut("data: " + v, last)) == acc.(sawField := true, data := acc.data + [Kept(v, last)])
  {
    FeedField(acc, "data", v, last);
    assert "data" + ": " + v == "data: " + v;
  }

  lemma DigitsKept(n: nat)
    ensures Kept(Digits(n), false) == Digits(n)
  {
    var d := Digits(n);
    assert IsDigit(d[|d| - 1]) && IsDigit(d[0]);
  }

  lemma FeedIdText(acc: Acc, v: string, last: bool)
    ensures Feed(acc, Cut("id: " + v, last)) == SetField(acc.(sawField := true), "id", Kept(v, last))
  {
    FeedField(acc, "id", v, last);
    assert "id" + ": " + v == "id: " + v;
  }

  lemma SetId(acc: Acc, v: string, n: U64)
    requires ParseU64(v) == Some(n)
    ensures SetField(acc, "id", v) == acc.(id := Some(n))
  {
  }

  lemma FeedId(acc: Acc, n: U64)
    ensures Feed(acc, Cut("id: " + Digits(n), false)) == acc.(sawField := true, id := Some(n))
  {
    FeedIdText(acc, Digits(n), false);
    DigitsKept(n);
    ParsePrinted(n);
    SetId(acc.(sawField := true), Digits(n), n);
  }

  /** The values kept of the data lines. */
  function Values(ds: seq<string>): seq<string> {
    if ds == [] then []
    else [Kept(ds[0], |ds| == 1)] + Values(ds[1..])
  }

  lemma FeedAllCons(acc: Acc, l: string, ls: seq<string>)
    ensures FeedAll(acc, [l] + ls) == FeedAll(Feed(acc, l), ls)
  {
    assert ([l] + ls)[1..] == ls;
  }

  lemma CutsCons(l: string, ls: seq<string>)
    ensures Cuts([l] + ls) == [Cut(l, ls == [])] + Cuts(ls)
  {
    assert ([l] + ls)[1..] == ls;
  }

  function WithData(acc: Acc, vs: seq<string>): Acc {
    if vs == [] then acc else acc.(sawField := true, data := acc.data + vs)
  }

  lemma WithDataAppend(acc: Acc, v: string, vs: seq<string>)
    ensures WithData(WithData(acc, [v]), vs) == WithData(acc, [v] + vs)
  {
    assert acc.data + [v] + vs == acc.data + ([v] + vs);
  }

  lemma DataStep(acc: Acc, v: string, rest: seq<string>)
    ensures FeedAll(acc, Cuts(["data: " + v] + rest)) == FeedAll(WithData(acc, [Kept(v, rest == [])]), Cuts(rest))
  {
    CutsCons("data: " + v, rest);
    FeedAllCons(acc, Cut("data: " + v, rest == []), Cuts(rest));
    FeedData(acc, v, rest == []);
  }

  lemma {:induction false} FeedAllData(acc: Acc, ds: seq<string>)
    ensures FeedAll(acc, Cuts(DataLines(ds))) == WithData(acc, Values(ds))
    decreases |ds|
  {
    if ds != [] {
      var v := Kept(ds[0], |ds| == 1);
      DataStep(acc, ds[0], DataLines(ds[1..]));
      FeedAllData(WithData(acc, [v]), ds[1..]);
      WithDataAppend(acc, v, Values(ds[1..]));
    }
  }

  /** What reading a printed event back gives, for any event name without a line feed. */
  function Decoded(e: SseEvent): Option<SseEvent> {
    var ds := Lines(e.data);
    Finish(WithData(WithEvent(START.(id := e.id), Kept(e.event, ds == [])), Values(ds)))
  }

  lemma FeedFrame(e: SseEvent)
    ensures Finish(FeedAll(START, Cuts(FrameLines(e)))) == Decoded(e)
  {
    var ds := Lines(e.data);
    var body := ["event: " + e.event] + DataLines(ds);
    var withId := if e.id.Some? then START.(sawField := true, id := e.id) else START;
    if e.id.Some? {
      var l := "id: " + Digits(e.id.value);
      assert FrameLines(e) == [l] + body;
      CutsCons(l, body);
      FeedAllCons(START, Cut(l, false), Cuts(body));
      FeedId(START, e.id.value);
    } else {
      assert FrameLines(e) == body;
    }
    assert FeedAll(START, Cuts(FrameLines(e))) == FeedAll(withId, Cuts(body));
    CutsCons("event: " + e.event, DataLines(ds));
    FeedAllCons(withId, Cut("event: " + e.event, ds == []), Cuts(DataLines(ds)));
    FeedEvent(withId, e.event, ds == []);
    FeedAllData(WithEvent(withId, Kept(e.event, ds == [])), ds);
    assert [] + Values(ds) == Values(ds);
  }

  // ---- One printed frame, followed by anything ----

  lemma {:induction false} LinesSolid(s: string, i: nat)
    requires i < |Lines(s)|
    ensures '\n' !in Lines(s)[i]
    decreases |s|
  {
    var k := IndexOf(s, '\n');
    if k < |s| && i > 0 {
      LinesSolid(s[k + 1..], i - 1);
    }
  }

  lemma {:induction false} DataLineAt(ds: seq<string>, i: nat)
    requires i < |ds|
    ensures DataLines(ds)[i] == "data: " + ds[i]
  {
    if i > 0 {
      DataLineAt(ds[1..], i - 1);
    }
  }

  lemma FrameLinesSolid(e: SseEvent)
    requires '\n' !in e.event
    ensures AllSolid(FrameLines(e)) && FrameLines(e) != []
  {
    var ls, ds := FrameLines(e), Lines(e.data);
    var head := IdLines(e.id) + ["event: " + e.event];
    assert ls == head + DataLines(ds);
    forall i | 0 <= i < |ls| ensures Solid(ls[i]) {
      if i >= |head| {
        DataLineAt(ds, i - |head|);
        LinesSolid(e.data, i - |head|);
      }
    }
  }

  lemma PrintedFirst(e: SseEvent, rest: string)
    requires '\n' !in e.event
    ensures Split(Print(e) + rest) == ([Print(e)] + Split(rest).0, Split(rest).1)
    ensures Emit(Print(e)) == AsSeq(Decoded(e))
  {
    var ls := FrameLines(e);
    FrameLinesSolid(e);
    FirstBlank(ls, rest);
    var s := Print(e) + rest;
    assert s[..|Print(e)|] == Print(e) && s[|Print(e)|..] == rest;
    LinesOfBlock(ls);
    FeedFrame(e);
  }

  function AsSeq(e: Option<SseEvent>): seq<SseEvent> {
    if e.Some? then [e.value] else []
  }

  lemma PrintedDrain(e: SseEvent, rest: string)
    requires '\n' !in e.event
    ensures Drain(Print(e) + rest) == (AsSeq(Decoded(e)) + Drain(rest).0, Drain(rest).1)
  {
    PrintedFirst(e, rest);
    FlatMapCons(Print(e), Split(rest).0, Emit);
  }

  // ---- When the event survives ----

  predicate CleanLine(l: string) {
    l == "" || (!IsWhitespace(l[0]) && l[|l| - 1] != '\r')
  }

  /** Every line clean, and no line feed at the end. */
  predicate CleanText(s: string)
    decreases |s|
  {
    var i := IndexOf(s, '\n');
    CleanLine(s[..i]) && (i == |s| || (i + 1 < |s| && CleanText(s[i + 1..])))
  }

  predicate RoundTrips(e: SseEvent) {
    && e.event != "" && '\n' !in e.event && CleanLine(e.event)
    && CleanText(e.data)
    && (e.event == "message" ==> e.data != "")
  }

  lemma {:induction false} TrimStartShrinks(s: string)
    ensures |TrimStart(s)| <= |s|
    ensures TrimStart(s) == s <==> s == "" || !IsWhitespace(s[0])
  {
    if s != "" && IsWhitespace(s[0]) {
      TrimStartShrinks(s[1..]);
    }
  }

  lemma {:induction false} TrimEndShrinks(s: string)
    requires '\n' !in s
    ensures TrimEnd(s) == s || |TrimEnd(s)| < |s|
    ensures TrimEnd(s) == s <==> s == "" || s[|s| - 1] != '\r'
  {
    if s != "" && s[|s| - 1] in "\n\r" {
      assert '\n' !in s[..|s| - 1];
      TrimEndShrinks(s[..|s| - 1]);
    }
  }

  lemma KeptShrinks(v: string, last: bool)
    requires '\n' !in v
    ensures |Kept(v, last)| <= |v|
    ensures Kept(v, last) == v <==> CleanLine(v)
  {
    TrimEndShrinks(v);
    var w := Shorn(v, last);
    TrimStartShrinks(w);
    assert w == v || |w| < |v|;
  }

  lemma {:induction false} ValuesCons(ds: seq<string>)
    requires |ds| > 1
    ensures JoinLines(Values(ds)) == Kept(ds[0], false) + "\n" + JoinLines(Values(ds[1..]))
  {
    var vs := Values(ds);
    assert vs[1..] == Values(ds[1..]);
    assert |Values(ds[1..])| >= 1;
  }

  /** What is kept of the data is the data itself exactly when the text is clean. */
  lemma {:induction false} DataKept(s: string)
    ensures |JoinLines(Values(Lines(s)))| <= |s|
    ensures JoinLines(Values(Lines(s))) == s <==> CleanText(s)
    decreases |s|
  {
    var i := IndexOf(s, '\n');
    if s == "" {
    } else if i == |s| {
      KeptShrinks(s, true);
      assert s[..i] == s;
      assert Lines(s) == [s] && [s][1..] == [];
      assert Values([s]) == [Kept(s, true)];
    } else {
      var l, rest := s[..i], s[i + 1..];
      var c := StripCr(l);
      assert s == l + "\n" + rest;
      DataKept(rest);
      if rest == "" {
        assert Lines(s) == [c] && [c][1..] == [];
        KeptShrinks(c, true);
        assert Values([c]) == [Kept(c, true)];
      } else {
        LinesNonEmpty(rest);
        assert Lines(s)[1..] == Lines(rest);
        ValuesCons(Lines(s));
        KeptShrinks(c, false);
        SplitEqual(Kept(c, false), JoinLines(Values(Lines(rest))), l, rest);
      }
    }
  }

  lemma LinesNonEmpty(s: string)
    requires s != ""
    ensures Lines(s) != []
  {
  }

  /** Two texts cut by a line feed, neither part longer than its counterpart. */
  lemma SplitEqual(a: string, b: string, c: string, d: string)
    requires |a| <= |c| && |b| <= |d|
    ensures a + "\n" + b == c + "\n" + d <==> a == c && b == d
  {
    var x, y := a + "\n" + b, c + "\n" + d;
    if x == y {
      assert |a| == |c| && |b| == |d|;
      assert a == x[..|a|] && c == y[..|c|];
      assert b == x[|a| + 1..] && d == y[|c| + 1..];
    }
  }

  lemma FinishParts(id: Option<U64>, w: string, vs: seq<string>)
    ensures Finish(WithData(WithEvent(START.(id := id), w), vs))
         == if (w == "" || w == "message") && vs == [] then None
            else Some(SseEvent(id, if w == "" then "message" else w, JoinLines(vs)))
  {
    assert [] + vs == vs;
  }

  lemma ValuesEmpty(s: string)
    ensures Values(Lines(s)) == [] <==> s == ""
  {
    if s != "" {
      LinesNonEmpty(s);
    }
  }

  /** The default event name is kept as it is. */
  lemma DefaultName(last: bool)
    ensures Kept("message", last) == "message"
  {
    var m := "message";
    assert m[0] == 'm' && m[|m| - 1] == 'e' && m != "";
  }

  lemma DecodedIff(e: SseEvent)
    requires '\n' !in e.event
    ensures Decoded(e) == Some(e) <==> RoundTrips(e)
  {
    var last := Lines(e.data) == [];
    var w, vs := Kept(e.event, last), Values(Lines(e.data));
    FinishParts(e.id, w, vs);
    ValuesEmpty(e.data);
    DataKept(e.data);
    KeptShrinks(e.event, last);
    DefaultName(last);
  }

  lemma {:induction false} ParsedName(acc: Acc, lines: seq<string>)
    requires '\n' !in acc.event && forall i | 0 <= i < |lines| :: '\n' !in lines[i]
    ensures '\n' !in FeedAll(acc, lines).event
    decreases |lines|
  {
    if lines != [] {
      FedName(acc, lines[0]);
      ParsedName(Feed(acc, lines[0]), lines[1..]);
    }
  }

  lemma FedName(acc: Acc, line: string)
    requires '\n' !in acc.event && '\n' !in line
    ensures '\n' !in Feed(acc, line).event
  {
    var l := StripCr(line);
    assert '\n' !in l;
    var i := IndexOf(l, ':');
    if i < |l| {
      TrimStartPart(l[i + 1..]);
    }
  }

  lemma {:induction false} TrimStartPart(s: string)
    ensures '\n' !in s ==> '\n' !in TrimStart(s)
  {
    if s != "" && IsWhitespace(s[0]) {
      TrimStartPart(s[1..]);
    }
  }

  /** No event the reader yields has a line feed in its name. */
  lemma {:induction false} EmittedName(blocks: seq<string>, i: nat)
    requires i < |FlatMap(blocks, Emit)|
    ensures '\n' !in FlatMap(blocks, Emit)[i].event
  {
    var lines := Lines(TrimEnd(blocks[0]));
    forall k | 0 <= k < |lines| ensures '\n' !in lines[k] {
      LinesSolid(TrimEnd(blocks[0]), k);
    }
    ParsedName(START, lines);
    if i >= |Emit(blocks[0])| {
      EmittedName(blocks[1..], i - |Emit(blocks[0])|);
    }
  }

  /** Exactly the events in `RoundTrips` survive printing and reading. */
  lemma RoundTripIff(e: SseEvent)
    ensures Drain(Print(e)) == ([e], "") <==> RoundTrips(e)
  {
    if '\n' in e.event {
      if Drain(Print(e)) == ([e], "") {
        EmittedName(Split(Print(e)).0, 0);
      }
    } else {
      PrintedDrain(e, "");
      assert Print(e) + "" == Print(e);
      assert Drain("") == ([], "");
      var read := AsSeq(Decoded(e));
      assert read + [] == read;
      assert read == [e] ==> read[0] == e;
      DecodedIff(e);
    }
  }

  function PrintAll(events: seq<SseEvent>): string {
    if events == [] then "" else Print(events[0]) + PrintAll(events[1..])
  }

  /** Any number of printed frames read back in order, with nothing left over. */
  lemma {:induction false} StreamRoundTrip(events: seq<SseEvent>)
    requires forall i | 0 <= i < |events| :: RoundTrips(events[i])
    ensures Drain(PrintAll(events)) == (events, "")
  {
    if events == [] {
      assert Split("") == ([], "");
    } else {
      var e, rest := events[0], PrintAll(events[1..]);
      StreamRoundTrip(events[1..]);
      PrintedDrain(e, rest);
      DecodedIff(e);
      assert [e] + events[1..] == events;
    }
  }

  /** The text of an event with one line of data: id if there is one, name, data, blank line. */
  lemma PrintedText(id: Option<U64>, event: string, data: string)
    requires data != "" && '\n' !in data
    ensures Print(SseEvent(id, event, data)) ==
            (if id.Some? then "id: " + Digits(id.value) + "\n" else "")
            + ("event: " + event + "\n") + ("data: " + data + "\n") + "\n"
  {
    LinesLast(data);
    PrintedHead(id, event);
    var head := IdLines(id) + ["event: " + event];
    assert [data][1..] == [] && DataLines([data]) == ["data: " + data];
    UnlinesOne("data: " + data);
    UnlinesAppend(head, ["data: " + data]);
    assert head + ["data: " + data] == FrameLines(SseEvent(id, event, data));
  }
}
