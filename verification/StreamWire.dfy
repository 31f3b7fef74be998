/** What the control plane writes to a change stream, and what the edge makes of the bytes. */
module StreamWire {
  import opened Prelude
  import opened Decimal
  import opened Sse
  import opened SsePrint
  import Plane = ConfigStream

  /** One message of the stream with its JSON body. */
  datatype Message = Announce(frame: Plane.Frame, body: string) | Heartbeat(body: string)

  predicate Printable(m: Message) {
    CleanText(m.body) && (m.Announce? && m.frame.Changed? ==> m.frame.revision < U64_LIMIT)
  }

  function EventOf(m: Message): SseEvent
    requires Printable(m)
  {
    match m
    case Announce(Changed(revision), body) => SseEvent(Some(revision), "config_changed", body)
    case Announce(Stale(_), body) => SseEvent(None, "config_stale", body)
    case Heartbeat(body) => SseEvent(None, "heartbeat", body)
  }

  /** What the edge does about an event. */
  datatype Notice = Consider(revision: nat) | Resync | Ignored

  /** The edge's dispatch; the revision is the event's id, or else read from its JSON body. */
  function NoticeOf(e: SseEvent, fromJson: string -> Option<U64>): Notice {
    if e.event == "config_stale" then Resync
    else if e.event == "config_changed" then
      Consider(if e.id.Some? then e.id.value else if fromJson(e.data).Some? then fromJson(e.data).value else 0)
    else Ignored
  }

  function Meant(m: Message): Notice {
    match m
    case Announce(Changed(revision), _) => Consider(revision)
    case Announce(Stale(_), _) => Resync
    case Heartbeat(_) => Ignored
  }

  function EventsOf(messages: seq<Message>): (es: seq<SseEvent>)
    requires forall i | 0 <= i < |messages| :: Printable(messages[i])
    ensures |es| == |messages| && forall i | 0 <= i < |es| :: es[i] == EventOf(messages[i])
  {
    seq(|messages|, i requires 0 <= i < |messages| => EventOf(messages[i]))
  }

  // ---- The reconnect hint ----

  /** The wait before reconnecting, in milliseconds. */
  function RetryFrame(ms: nat): string {
    "retry: " + Digits(ms) + "\n" + "\n"
  }

  lemma FeedRetry(acc: Acc, v: string)
    ensures Feed(acc, Cut("retry: " + v, true)) == acc.(sawField := true)
  {
    FeedField(acc, "retry", v, true);
    assert "retry" + ": " + v == "retry: " + v;
  }

  lemma RetryParses(ms: nat)
    ensures ParseFrame(TrimEnd(RetryFrame(ms))) == None
  {
    var l := "retry: " + Digits(ms);
    UnlinesOne(l);
    assert '\n' !in Digits(ms);
    assert AllSolid([l]);
    LinesOfBlock([l]);
    FeedRetry(START, Digits(ms));
    CutsCons(l, []);
    assert [l] + [] == [l];
    FeedAllCons(START, Cut(l, true), []);
  }

  /** The hint at the head of the stream is read and yields no event. */
  lemma RetryIsSilent(ms: nat, rest: string)
    ensures Drain(RetryFrame(ms) + rest) == Drain(rest)
  {
    var l := "retry: " + Digits(ms);
    var r := RetryFrame(ms);
    UnlinesOne(l);
    assert '\n' !in Digits(ms);
    assert AllSolid([l]);
    FirstBlank([l], rest);
    assert (r + rest)[..|r|] == r && (r + rest)[|r|..] == rest;
    RetryParses(ms);
    FlatMapCons(r, Split(rest).0, Emit);
    assert [] + FlatMap(Split(rest).0, Emit) == FlatMap(Split(rest).0, Emit);
  }

  // ---- Main result ----

  lemma NamesClean()
    ensures CleanLine("config_changed") && CleanLine("config_stale") && CleanLine("heartbeat")
    ensures '\n' !in "config_changed" && '\n' !in "config_stale" && '\n' !in "heartbeat"
  {
    var a, b, c := "config_changed", "config_stale", "heartbeat";
    assert a[0] == 'c' && a[|a| - 1] == 'd' && b[0] == 'c' && b[|b| - 1] == 'e' && c[0] == 'h' && c[|c| - 1] == 't';
  }

  lemma MessageRoundTrips(m: Message)
    requires Printable(m)
    ensures RoundTrips(EventOf(m))
  {
    NamesClean();
    assert EventOf(m).event[0] != 'm';
  }

  lemma WireReads(ms: nat, messages: seq<Message>, chunks: seq<string>)
    requires forall i | 0 <= i < |messages| :: Printable(messages[i])
    requires Concat(chunks) == RetryFrame(ms) + PrintAll(EventsOf(messages))
    ensures DrainAll("", chunks) == (EventsOf(messages), "")
  {
    var events := EventsOf(messages);
    AnyChunking("", chunks);
    assert "" + Concat(chunks) == Concat(chunks);
    RetryIsSilent(ms, PrintAll(events));
    forall i | 0 <= i < |events| ensures RoundTrips(events[i]) {
      MessageRoundTrips(messages[i]);
    }
    StreamRoundTrip(events);
  }

  lemma NoticeIsMeant(m: Message, fromJson: string -> Option<U64>)
    requires Printable(m)
    ensures NoticeOf(EventOf(m), fromJson) == Meant(m)
  {
    assert "config_stale"[7] == 's' && "config_changed"[7] == 'c' && "heartbeat"[0] == 'h';
  }

  /** The body's revision counts only where there is no id, and a missing one is 0. */
  lemma IdBeforeBody(id: Option<U64>, body: string, fromJson: string -> Option<U64>, revision: nat)
    ensures NoticeOf(SseEvent(id, "config_changed", body), fromJson) == Consider(revision) <==>
            || id == Some(revision)
            || (id == None && fromJson(body) == Some(revision))
            || (id == None && fromJson(body) == None && revision == 0)
  {
    assert "config_stale"[7] == 's' && "config_changed"[7] == 'c';
  }

  /**
   However the stream is cut into pieces on its way, the edge acts on exactly the
   messages the control plane sent, in order, and nothing is left in its buffer.
   */
  lemma WireCarries(ms: nat, messages: seq<Message>, chunks: seq<string>, fromJson: string -> Option<U64>)
    requires forall i | 0 <= i < |messages| :: Printable(messages[i])
    requires Concat(chunks) == RetryFrame(ms) + PrintAll(EventsOf(messages))
    ensures var (read, tail) := DrainAll("", chunks);
            && tail == "" && |read| == |messages|
            && forall i | 0 <= i < |messages| :: NoticeOf(read[i], fromJson) == Meant(messages[i])
  {
    WireReads(ms, messages, chunks);
    forall i | 0 <= i < |messages| ensures NoticeOf(EventsOf(messages)[i], fromJson) == Meant(messages[i]) {
      NoticeIsMeant(messages[i], fromJson);
    }
  }
}
