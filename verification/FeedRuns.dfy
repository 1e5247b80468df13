// Feed sessions over any sequence of calls: the session history, the single delivery of
// gaps, and the accounting of sequence gaps.

module FeedRuns {
  import opened Wrappers
  import opened FeedValues

  /** One call on the manager, with the clock readings it takes. */
  datatype Call =
    | Open(id: string, now: int, closeNow: int)
    | Close(now: int)
    | Message(channel: string, sequence: Option<int>, strong: bool, now: int)
    | Stale(now: int)
    | DrainNew

  type Tracking = map<string, seq<int>>

  /** The manager, with what it does not keep: the sequences tracked in each session, by channel and in order of
      arrival, and everything drained so far. */
  datatype History = History(manager: Manager, tracked: seq<Tracking>, drained: seq<GapRecord>)

  function Sequences(t: Tracking, channel: string): seq<int> {
    if channel in t then t[channel] else []
  }

  function Track(t: Tracking, channel: string, sequence: int): Tracking {
    t[channel := Sequences(t, channel) + [sequence]]
  }

  function Apply(h: History, call: Call): History
    requires h.manager.Valid() && |h.tracked| == |h.manager.sessions|
  {
    match call
    case Open(id, now, closeNow) => h.(manager := OpenSession(h.manager, id, now, closeNow), tracked := h.tracked + [map[]])
    case Close(now) => h.(manager := CloseSession(h.manager, now))
    case Stale(now) => h.(manager := RecordStale(h.manager, now))
    case DrainNew =>
      var (m, handed) := Drain(h.manager);
      h.(manager := m, drained := h.drained + handed)
    case Message(channel, sequence, strong, now) =>
      // With no session ever opened the original raises, and nothing changes.
      if h.manager.sessions == [] then h else
        var n := |h.tracked| - 1;
        h.(manager := RecordMessage(h.manager, channel, sequence, strong, now).0,
           tracked := if strong && sequence.Some?
                      then h.tracked[n := Track(h.tracked[n], channel, sequence.value)] else h.tracked)
  }

  function Start(): History {
    History(NO_SESSIONS, [], [])
  }

  // ------------------------------------------------------------------- records

  /** The gaps of one kind, in order. */
  function OfKind(gaps: seq<GapRecord>, kind: GapKind): seq<GapRecord> {
    if gaps == [] then [] else
      var last := gaps[|gaps| - 1];
      OfKind(gaps[..|gaps| - 1], kind) + if last.kind == kind then [last] else []
  }

  predicate JumpOf(g: GapRecord, id: string, channel: string) {
    && g.kind.WebsocketGap? && g.sessionId == Some(id) && g.channel == Some(channel)
    && g.expectedSequence.Some? && g.observedSequence.Some?
  }

  /** The sequence gaps recorded for one session and channel: what was expected, what was seen. */
  function JumpsIn(gaps: seq<GapRecord>, id: string, channel: string): seq<(int, int)> {
    if gaps == [] then [] else
      var g := gaps[|gaps| - 1];
      JumpsIn(gaps[..|gaps| - 1], id, channel)
      + if JumpOf(g, id, channel) then [(g.expectedSequence.value, g.observedSequence.value)] else []
  }

  /** How many messages the sequence gaps of one session and channel report missing. */
  function Reported(gaps: seq<GapRecord>, id: string, channel: string): int {
    if gaps == [] then 0 else
      var g := gaps[|gaps| - 1];
      Reported(gaps[..|gaps| - 1], id, channel) + if JumpOf(g, id, channel) then g.MissingCount().value else 0
  }

  // ------------------------------------------------- the batch reading of a feed

  function Watermark(sequences: seq<int>): int
    requires sequences != []
  {
    var n := |sequences| - 1;
    if n == 0 || sequences[n] > Watermark(sequences[..n]) then sequences[n] else Watermark(sequences[..n])
  }

  /** Each arrival that leaves a hole above everything before it. */
  function Jumps(sequences: seq<int>): seq<(int, int)> {
    if |sequences| <= 1 then [] else
      var n := |sequences| - 1;
      var mark := Watermark(sequences[..n]);
      Jumps(sequences[..n]) + if sequences[n] > mark + 1 then [(mark + 1, sequences[n])] else []
  }

  /** How many later arrivals raised the watermark. */
  function Advances(sequences: seq<int>): nat {
    if |sequences| <= 1 then 0 else
      var n := |sequences| - 1;
      Advances(sequences[..n]) + if sequences[n] > Watermark(sequences[..n]) then 1 else 0
  }

  function Missing(jumps: seq<(int, int)>): int {
    if jumps == [] then 0 else
      var (expected, observed) := jumps[|jumps| - 1];
      Missing(jumps[..|jumps| - 1]) + if observed > expected then observed - expected else 0
  }

  /** The watermark is the largest sequence seen. */
  lemma {:induction false} WatermarkIsMaximum(sequences: seq<int>)
    requires sequences != []
    ensures Watermark(sequences) in sequences
    ensures forall x | x in sequences :: x <= Watermark(sequences)
  {
    var n := |sequences| - 1;
    if n == 0 {
      assert Watermark(sequences) == sequences[0];
    } else {
      var before, last := sequences[..n], sequences[n];
      WatermarkIsMaximum(before);
      var mark := Watermark(before);
      assert Watermark(sequences) == if last > mark then last else mark;
      hide Watermark;
      assert forall x :: x in sequences <==> x in before || x == last by {
        assert sequences == before + [last];
      }
    }
  }

  /** Whatever the order, repetition or loss: the watermark rose from the first sequence by one for each
      advance, plus everything reported missing. */
  lemma {:induction false} MissingAccounts(sequences: seq<int>)
    requires sequences != []
    ensures Watermark(sequences) - sequences[0] == Advances(sequences) + Missing(Jumps(sequences))
  {
    var n := |sequences| - 1;
    if n > 0 {
      var mark := Watermark(sequences[..n]);
      MissingAccounts(sequences[..n]);
      if sequences[n] > mark + 1 {
      } else {
        assert Jumps(sequences) == Jumps(sequences[..n]);
      }
    }
  }

  lemma MissingAppend(jumps: seq<(int, int)>, expected: int, observed: int)
    ensures Missing(jumps + [(expected, observed)]) == Missing(jumps) + if observed > expected then observed - expected else 0
    ensures jumps + [] == jumps
  {
    assert (jumps + [(expected, observed)])[..|jumps|] == jumps;
  }

  lemma {:induction false} ReportedIsMissing(gaps: seq<GapRecord>, id: string, channel: string)
    ensures Reported(gaps, id, channel) == Missing(JumpsIn(gaps, id, channel))
  {
    if gaps != [] {
      var g, before := gaps[|gaps| - 1], JumpsIn(gaps[..|gaps| - 1], id, channel);
      ReportedIsMissing(gaps[..|gaps| - 1], id, channel);
      hide Missing;
      if JumpOf(g, id, channel) {
        MissingAppend(before, g.expectedSequence.value, g.observedSequence.value);
      } else {
        MissingAppend(before, 0, 0);
      }
    }
  }

  // ------------------------------------------------------------------ invariants

  /** Ordinals are positions, and every session but the last is closed. */
  ghost predicate SessionsOk(m: Manager) {
    && (forall i | 0 <= i < |m.sessions| :: m.sessions[i].ordinal == i)
    && forall i | 0 <= i < |m.sessions| - 1 :: m.sessions[i].closedAt.Some?
  }

  /** The record of the outage between two sessions. */
  predicate Links(g: GapRecord, earlier: Session, later: Session) {
    && g.sessionId == Some(earlier.id)
    && g.windowStart == earlier.closedAt
    && g.windowEnd == Some(later.openedAt)
    && g.MissingCount() == None
  }

  /** One reconnect gap per adjacent pair of sessions, in order. */
  ghost predicate ReconnectsOk(m: Manager) {
    var gaps := OfKind(m.gaps, ReconnectGap);
    && |gaps| == (if m.sessions == [] then 0 else |m.sessions| - 1)
    && forall i | 0 <= i < |gaps| :: Links(gaps[i], m.sessions[i], m.sessions[i + 1])
  }

  /** Draining hands out a prefix of the record, each gap once, in order. */
  ghost predicate DrainOk(h: History) {
    h.manager.Valid() && h.drained == h.manager.gaps[..h.manager.drained]
  }

  ghost predicate HistoryOk(h: History) {
    && |h.tracked| == |h.manager.sessions|
    && SessionsOk(h.manager)
    && ReconnectsOk(h.manager)
    && DrainOk(h)
  }

  lemma CloseOk(m: Manager, now: int)
    ensures SessionsOk(m) && ReconnectsOk(m) ==>
              SessionsOk(CloseSession(m, now)) && ReconnectsOk(CloseSession(m, now))
  {
  }

  lemma OpenOk(m: Manager, id: string, now: int, closeNow: int)
    requires SessionsOk(m) && ReconnectsOk(m)
    ensures SessionsOk(OpenSession(m, id, now, closeNow)) && ReconnectsOk(OpenSession(m, id, now, closeNow))
  {
    CloseOk(m, closeNow);
    ReconnectOpened(CloseSession(m, closeNow), OpenSession(m, id, now, closeNow), now);
  }

  lemma ReconnectOpened(closed: Manager, after: Manager, now: int)
    requires ReconnectsOk(closed) && (closed.sessions != [] ==> Last(closed).closedAt.Some?)
    requires |after.sessions| == |closed.sessions| + 1 && closed.sessions <= after.sessions
    requires Last(after).openedAt == now
    requires after.gaps == closed.gaps + if closed.sessions == [] then [] else [ReconnectRecord(Last(closed), now)]
    ensures ReconnectsOk(after)
  {
    if closed.sessions != [] {
    } else {
      assert closed.gaps + [] == closed.gaps;
    }
  }

  lemma MessageOk(m: Manager, channel: string, sequence: Option<int>, strong: bool, now: int)
    requires SessionsOk(m) && ReconnectsOk(m) && m.sessions != []
    ensures var after := RecordMessage(m, channel, sequence, strong, now).0;
            SessionsOk(after) && ReconnectsOk(after)
  {
    var (after, gap) := RecordMessage(m, channel, sequence, strong, now);
    if gap.Some? {
    } else {
      assert m.gaps + [] == m.gaps;
    }
  }

  lemma StaleOk(m: Manager, now: int)
    ensures SessionsOk(m) && ReconnectsOk(m) ==>
              SessionsOk(RecordStale(m, now)) && ReconnectsOk(RecordStale(m, now))
  {
  }

  lemma ApplyOk(h: History, call: Call)
    requires HistoryOk(h)
    ensures HistoryOk(Apply(h, call))
  {
    hide SessionsOk, ReconnectsOk;
    var m := h.manager;
    match call
    case Open(id, now, closeNow) => OpenOk(m, id, now, closeNow);
    case Close(now) => CloseOk(m, now);
    case Stale(now) => StaleOk(m, now);
    case DrainNew => DrainKeeps(m);
    case Message(channel, sequence, strong, now) =>
      if m.sessions != [] {
        MessageOk(m, channel, sequence, strong, now);
      }
  }

  lemma DrainKeeps(m: Manager)
    ensures m.Valid() && SessionsOk(m) && ReconnectsOk(m) ==>
              SessionsOk(Drain(m).0) && ReconnectsOk(Drain(m).0)
  {
  }

  /** The state after a sequence of calls. */
  function Run(calls: seq<Call>): (h: History)
    ensures h.manager.Valid() && |h.tracked| == |h.manager.sessions|
  {
    if calls == [] then Start()
    else Apply(Run(calls[..|calls| - 1]), calls[|calls| - 1])
  }

  /** Over any sequence of calls: at most the last session is open, ordinals are positions, n sessions carry n - 1
      reconnect gaps, one per adjacent pair, and the drains concatenate to a prefix of the record. */
  lemma {:induction false} SessionHistory(calls: seq<Call>)
    ensures HistoryOk(Run(calls))
  {
    hide HistoryOk, Apply;
    if calls == [] {
      StartOk();
    } else {
      SessionHistory(calls[..|calls| - 1]);
      ApplyOk(Run(calls[..|calls| - 1]), calls[|calls| - 1]);
    }
  }

  lemma StartOk()
    ensures HistoryOk(Start())
  {
  }

  // ------------------------------------------------------------------- silence

  /** When the last session was opened, if one was. */
  ghost function LastOpening(calls: seq<Call>): Option<int> {
    if calls == [] then None else
      var last := calls[|calls| - 1];
      if last.Open? then Some(last.now) else LastOpening(calls[..|calls| - 1])
  }

  /** When each message since then arrived. */
  ghost function Heard(calls: seq<Call>): seq<int> {
    if calls == [] then [] else
      var before, last := Heard(calls[..|calls| - 1]), calls[|calls| - 1];
      if last.Open? then [] else if last.Message? then before + [last.now] else before
  }

  ghost predicate Hears(m: Manager, opening: Option<int>, heard: seq<int>) {
    && (m.sessions == [] <==> opening == None)
    && (m.sessions != [] ==>
          && opening == Some(Last(m).openedAt)
          && Last(m).messageCount == |heard|
          && Last(m).lastMessageAt == if heard == [] then None else Some(heard[|heard| - 1]))
  }

  lemma MessageHears(m: Manager, channel: string, sequence: Option<int>, strong: bool, now: int,
                     opening: Option<int>, heard: seq<int>)
    requires m.sessions != [] && Hears(m, opening, heard)
    ensures Hears(RecordMessage(m, channel, sequence, strong, now).0, opening, heard + [now])
  {
  }

  lemma OpenHears(m: Manager, id: string, now: int, closeNow: int)
    ensures Hears(OpenSession(m, id, now, closeNow), Some(now), [])
  {
  }

  lemma CloseHears(m: Manager, now: int, opening: Option<int>, heard: seq<int>)
    ensures Hears(m, opening, heard) ==> Hears(CloseSession(m, now), opening, heard)
  {
  }

  lemma SameHears(m: Manager, after: Manager, opening: Option<int>, heard: seq<int>, more: seq<int>)
    ensures Hears(NO_SESSIONS, None, [])
    ensures Hears(m, opening, heard) && after.sessions == m.sessions && (more == heard || m.sessions == []) ==>
              Hears(after, opening, more)
  {
  }

  /** The last session counts the messages since it was opened and knows when the last of them came. */
  lemma {:induction false} MessagesAreHeard(calls: seq<Call>)
    ensures Hears(Run(calls).manager, LastOpening(calls), Heard(calls))
  {
    if calls == [] {
      SameHears(NO_SESSIONS, NO_SESSIONS, None, [], []);
    } else {
      var before, last := calls[..|calls| - 1], calls[|calls| - 1];
      MessagesAreHeard(before);
      hide OpenSession, CloseSession, RecordMessage, Hears;
      var m := Run(before).manager;
      SameHears(m, Run(calls).manager, LastOpening(before), Heard(before), Heard(calls));
      match last
      case Open(id, now, closeNow) => OpenHears(m, id, now, closeNow);
      case Close(now) => CloseHears(m, now, LastOpening(before), Heard(before));
      case Stale(_) =>
      case DrainNew =>
      case Message(channel, sequence, strong, now) =>
        if m.sessions != [] {
          MessageHears(m, channel, sequence, strong, now, LastOpening(before), Heard(before));
        }
    }
  }

  /** A stale record spans the silence: from the last message of the session, or its opening where there was none, to now;
      with no session, nothing. */
  lemma StaleSpansTheSilence(calls: seq<Call>, now: int)
    ensures var m, after, heard := Run(calls).manager, Run(calls + [Stale(now)]).manager, Heard(calls);
            && |after.gaps| == |m.gaps| + 1 && after.gaps[..|m.gaps|] == m.gaps && after.sessions == m.sessions
            && var g := after.gaps[|m.gaps|];
               && g.kind == StaleFeed && g.channel == None && g.MissingCount() == None
               && g.detectedAt == now && g.windowEnd == Some(now)
               && g.windowStart == (if LastOpening(calls) == None then Some(now)
                                    else if heard == [] then LastOpening(calls) else Some(heard[|heard| - 1]))
               && g.sessionId == if m.sessions == [] then None else Some(m.sessions[|m.sessions| - 1].id)
  {
    hide Heard, LastOpening;
    assert (calls + [Stale(now)])[..|calls|] == calls;
    MessagesAreHeard(calls);
  }

  // ------------------------------------------------------------- gap accounting

  ghost predicate DistinctIds(m: Manager) {
    forall i, j | 0 <= i < j < |m.sessions| :: m.sessions[i].id != m.sessions[j].id
  }

  /** A session's channel tracks the watermark, and its recorded gaps are exactly the holes. */
  ghost predicate ChannelOk(m: Manager, i: nat, t: Tracking, channel: string) {
    i < |m.sessions| &&
    var s, sequences := m.sessions[i], Sequences(t, channel);
    && (channel in s.lastSequence <==> sequences != [])
    && (sequences != [] ==> s.lastSequence[channel] == Watermark(sequences))
    && JumpsIn(m.gaps, s.id, channel) == Jumps(sequences)
  }

  /** Sequence gaps name a session there is. */
  ghost predicate GapsNamed(m: Manager) {
    forall g | g in m.gaps && g.kind.WebsocketGap? :: exists s | s in m.sessions :: g.sessionId == Some(s.id)
  }

  ghost predicate Accounted(h: History) {
    && |h.tracked| == |h.manager.sessions|
    && GapsNamed(h.manager)
    && forall i, channel | 0 <= i < |h.tracked| :: ChannelOk(h.manager, i, h.tracked[i], channel)
  }

  lemma JumpsInAppend(gaps: seq<GapRecord>, g: GapRecord, id: string, channel: string)
    ensures JumpsIn(gaps + [g], id, channel)
              == JumpsIn(gaps, id, channel)
                 + if JumpOf(g, id, channel) then [(g.expectedSequence.value, g.observedSequence.value)] else []
  {
  }

  lemma {:induction false} NoJumpsUnnamed(gaps: seq<GapRecord>, id: string, channel: string)
    requires forall g | g in gaps && g.kind.WebsocketGap? :: g.sessionId != Some(id)
    ensures JumpsIn(gaps, id, channel) == []
  {
    if gaps != [] {
      NoJumpsUnnamed(gaps[..|gaps| - 1], id, channel);
    }
  }

  /** Sessions of `after` match those of `before`, up to what gap accounting does not read. */
  ghost predicate SameTracking(before: Session, after: Session) {
    before.id == after.id && before.lastSequence == after.lastSequence
  }

  lemma ChannelKept(before: Manager, after: Manager, i: nat, t: Tracking, channel: string)
    requires i < |before.sessions| && i < |after.sessions| && ChannelOk(before, i, t, channel)
    requires SameTracking(before.sessions[i], after.sessions[i])
    requires JumpsIn(after.gaps, before.sessions[i].id, channel) == JumpsIn(before.gaps, before.sessions[i].id, channel)
    ensures ChannelOk(after, i, t, channel)
  {
  }

  lemma GapsNamedKept(before: Manager, after: Manager)
    requires GapsNamed(before)
    requires |before.sessions| <= |after.sessions|
    requires forall i | 0 <= i < |before.sessions| :: before.sessions[i].id == after.sessions[i].id
    requires forall g | g in after.gaps && g.kind.WebsocketGap? ::
               g in before.gaps || exists s | s in after.sessions :: g.sessionId == Some(s.id)
    ensures GapsNamed(after)
  {
  }

  /** A change that leaves the tracking alone and records no sequence gap keeps the accounts. */
  lemma QuietOk(before: Manager, after: Manager, tracked: seq<Tracking>, extra: seq<GapRecord>)
    requires |tracked| == |before.sessions| == |after.sessions| && GapsNamed(before)
    requires forall i, channel | 0 <= i < |tracked| :: ChannelOk(before, i, tracked[i], channel)
    requires forall i | 0 <= i < |tracked| :: SameTracking(before.sessions[i], after.sessions[i])
    requires after.gaps == before.gaps + extra && |extra| <= 1
    requires forall g | g in extra :: !g.kind.WebsocketGap?
    ensures GapsNamed(after)
    ensures forall i, channel | 0 <= i < |tracked| :: ChannelOk(after, i, tracked[i], channel)
  {
    GapsNamedKept(before, after);
    forall i, channel | 0 <= i < |tracked| ensures ChannelOk(after, i, tracked[i], channel) {
      if extra == [] {
        assert after.gaps == before.gaps;
      } else {
        assert extra == [extra[0]];
        JumpsInAppend(before.gaps, extra[0], before.sessions[i].id, channel);
      }
      ChannelKept(before, after, i, tracked[i], channel);
    }
  }

  lemma CloseAccounted(h: History, now: int)
    requires Accounted(h)
    ensures Accounted(h.(manager := CloseSession(h.manager, now)))
  {
    hide ChannelOk, GapsNamed;
    assert h.manager.gaps + [] == h.manager.gaps;
    QuietOk(h.manager, CloseSession(h.manager, now), h.tracked, []);
  }

  lemma StaleAccounted(h: History, now: int)
    requires Accounted(h)
    ensures Accounted(h.(manager := RecordStale(h.manager, now)))
  {
    hide ChannelOk, GapsNamed;
    QuietOk(h.manager, RecordStale(h.manager, now), h.tracked, [StaleRecord(h.manager, now)]);
  }

  /** A new session starts with nothing tracked and nothing recorded, its id being its own. */
  lemma OpenAccounted(h: History, id: string, now: int, closeNow: int)
    requires Accounted(h) && DistinctIds(OpenSession(h.manager, id, now, closeNow))
    ensures Accounted(History(OpenSession(h.manager, id, now, closeNow), h.tracked + [map[]], h.drained))
  {
    CloseAccounted(h, closeNow);
    var closed, after := CloseSession(h.manager, closeNow), OpenSession(h.manager, id, now, closeNow);
    var n := |h.tracked|;
    assert after.sessions[..n] == closed.sessions;
    GapsNamedKept(closed, after);
    forall i, channel | 0 <= i < n + 1 ensures ChannelOk(after, i, (h.tracked + [map[]])[i], channel) {
      if closed.sessions != [] {
        JumpsInAppend(closed.gaps, ReconnectRecord(Last(closed), now), after.sessions[i].id, channel);
      } else {
        assert after.gaps == closed.gaps;
      }
      if i < n {
        ChannelKept(closed, after, i, h.tracked[i], channel);
      } else {
        assert forall s | s in closed.sessions :: s.id != id by {
          forall j | 0 <= j < n ensures closed.sessions[j].id != id {
            assert after.sessions[j].id != after.sessions[n].id;
          }
        }
        NoJumpsUnnamed(closed.gaps, id, channel);
      }
    }
  }

  lemma FirstSequence(x: int)
    ensures Watermark([x]) == x && Jumps([x]) == []
  {
  }

  lemma NextSequence(sequences: seq<int>, x: int)
    requires sequences != []
    ensures var mark := Watermark(sequences);
            && Watermark(sequences + [x]) == (if x > mark then x else mark)
            && Jumps(sequences + [x]) == Jumps(sequences) + if x > mark + 1 then [(mark + 1, x)] else []
  {
    var longer := sequences + [x];
    assert longer[..|longer| - 1] == sequences && longer[|longer| - 1] == x;
  }

  /** What a tracked message adds to the record of a session and channel. */
  lemma RecordedJumps(m: Manager, channel: string, sequence: int, now: int, id: string, other: string)
    requires m.sessions != []
    ensures var s, after := Last(m), RecordMessage(m, channel, Some(sequence), true, now).0;
            JumpsIn(after.gaps, id, other)
              == JumpsIn(m.gaps, id, other)
                 + if channel in s.lastSequence && sequence > s.lastSequence[channel] + 1 && s.id == id && channel == other
                   then [(s.lastSequence[channel] + 1, sequence)] else []
  {
    hide JumpsIn;
    var (after, gap) := RecordMessage(m, channel, Some(sequence), true, now);
    if gap.Some? {
      JumpsInAppend(m.gaps, gap.value, id, other);
    } else {
      assert after.gaps == m.gaps;
    }
  }

  lemma RecordedMark(m: Manager, channel: string, sequence: int, now: int)
    requires m.sessions != []
    ensures var s, after := Last(m), RecordMessage(m, channel, Some(sequence), true, now).0;
            && |after.sessions| == |m.sessions|
            && (forall i | 0 <= i < |m.sessions| - 1 :: after.sessions[i] == m.sessions[i])
            && Last(after).id == s.id
            && (forall c | c != channel :: c in Last(after).lastSequence <==> c in s.lastSequence)
            && (forall c | c != channel && c in s.lastSequence :: Last(after).lastSequence[c] == s.lastSequence[c])
            && channel in Last(after).lastSequence
            && Last(after).lastSequence[channel]
                 == if channel in s.lastSequence && sequence <= s.lastSequence[channel] then s.lastSequence[channel]
                    else sequence
  {
  }

  /** One tracked message, on the channel it came on. */
  lemma TrackedHere(m: Manager, t: Tracking, channel: string, sequence: int, now: int)
    requires m.sessions != [] && ChannelOk(m, |m.sessions| - 1, t, channel)
    ensures var after := RecordMessage(m, channel, Some(sequence), true, now).0;
            |after.sessions| == |m.sessions|
            && ChannelOk(after, |m.sessions| - 1, Track(t, channel, sequence), channel)
  {
    hide Jumps, Watermark, JumpsIn, RecordMessage;
    RecordedMark(m, channel, sequence, now);
    RecordedJumps(m, channel, sequence, now, Last(m).id, channel);
    var sequences := Sequences(t, channel);
    if sequences == [] {
      FirstSequence(sequence);
      NoSequences();
      assert [] + [sequence] == [sequence];
    } else {
      NextSequence(sequences, sequence);
    }
  }

  lemma NoSequences()
    ensures Jumps([]) == []
  {
  }

  /** And on every other channel and session. */
  lemma TrackedElsewhere(m: Manager, t: Tracking, i: nat, other: string, channel: string, sequence: int, now: int)
    requires m.sessions != [] && DistinctIds(m) && i < |m.sessions|
    requires ChannelOk(m, i, t, other) && (i != |m.sessions| - 1 || other != channel)
    ensures var after := RecordMessage(m, channel, Some(sequence), true, now).0;
            |after.sessions| == |m.sessions|
            && ChannelOk(after, i, if i == |m.sessions| - 1 then Track(t, channel, sequence) else t, other)
  {
    hide Jumps, Watermark, JumpsIn, RecordMessage;
    RecordedMark(m, channel, sequence, now);
    RecordedJumps(m, channel, sequence, now, m.sessions[i].id, other);
    assert i < |m.sessions| - 1 ==> m.sessions[i].id != m.sessions[|m.sessions| - 1].id;
  }

  lemma MessageNamed(m: Manager, channel: string, sequence: Option<int>, strong: bool, now: int)
    requires m.sessions != [] && GapsNamed(m)
    ensures GapsNamed(RecordMessage(m, channel, sequence, strong, now).0)
  {
    var (after, gap) := RecordMessage(m, channel, sequence, strong, now);
    assert after.sessions[|m.sessions| - 1] in after.sessions;
    assert after.gaps == m.gaps + (if gap.Some? then [gap.value] else []);
    GapsNamedKept(m, after);
  }

  lemma MessageAccounted(h: History, channel: string, sequence: Option<int>, strong: bool, now: int)
    requires Accounted(h) && DistinctIds(h.manager) && h.manager.Valid() && h.manager.sessions != []
    ensures Accounted(Apply(h, Message(channel, sequence, strong, now)))
  {
    var m, n := h.manager, |h.tracked| - 1;
    var after := Apply(h, Message(channel, sequence, strong, now));
    if strong && sequence.Some? {
      MessageNamed(m, channel, sequence, strong, now);
      forall i, other | 0 <= i <= n ensures ChannelOk(after.manager, i, after.tracked[i], other) {
        hide ChannelOk, DistinctIds;
        if i == n && other == channel {
          TrackedHere(m, h.tracked[n], channel, sequence.value, now);
        } else {
          TrackedElsewhere(m, h.tracked[i], i, other, channel, sequence.value, now);
        }
      }
    } else {
      assert m.gaps + [] == m.gaps;
      QuietOk(m, after.manager, h.tracked, []);
    }
  }

  lemma ApplyAccounted(h: History, call: Call)
    requires Accounted(h) && h.manager.Valid() && DistinctIds(h.manager) && DistinctIds(Apply(h, call).manager)
    ensures Accounted(Apply(h, call))
  {
    hide DistinctIds, ChannelOk, GapsNamed;
    match call
    case Open(id, now, closeNow) => OpenAccounted(h, id, now, closeNow);
    case Close(now) => CloseAccounted(h, now);
    case Stale(now) => StaleAccounted(h, now);
    case DrainNew =>
      assert h.manager.gaps + [] == h.manager.gaps;
      QuietOk(h.manager, Drain(h.manager).0, h.tracked, []);
    case Message(channel, sequence, strong, now) =>
      if h.manager.sessions != [] {
        MessageAccounted(h, channel, sequence, strong, now);
      }
  }

  lemma IdsKept(h: History, call: Call)
    requires h.manager.Valid() && |h.tracked| == |h.manager.sessions|
    requires DistinctIds(Apply(h, call).manager)
    ensures DistinctIds(h.manager)
  {
    var m, after := h.manager, Apply(h, call).manager;
    forall i, j | 0 <= i < j < |m.sessions| ensures m.sessions[i].id != m.sessions[j].id {
      assert after.sessions[i].id == m.sessions[i].id && after.sessions[j].id == m.sessions[j].id;
    }
  }

  lemma {:induction false} RunAccounted(calls: seq<Call>)
    requires DistinctIds(Run(calls).manager)
    ensures Accounted(Run(calls))
  {
    hide DistinctIds, Apply;
    if calls != [] {
      var before := calls[..|calls| - 1];
      IdsKept(Run(before), calls[|calls| - 1]);
      RunAccounted(before);
      ApplyAccounted(Run(before), calls[|calls| - 1]);
    }
  }

  /** Gap accounting over any sequence of calls with session ids of their own: in every session and channel the
      watermark is the largest tracked sequence, the recorded gaps are exactly the holes found there, and the rise
      of the watermark is the later advances plus all that was reported missing. */
  lemma GapAccounting(calls: seq<Call>, i: nat, channel: string)
    requires DistinctIds(Run(calls).manager) && i < |Run(calls).tracked|
    requires Sequences(Run(calls).tracked[i], channel) != []
    ensures var sequences := Sequences(Run(calls).tracked[i], channel);
            var s, gaps := Run(calls).manager.sessions[i], Run(calls).manager.gaps;
            && channel in s.lastSequence
            && s.lastSequence[channel] in sequences
            && (forall x | x in sequences :: x <= s.lastSequence[channel])
            && JumpsIn(gaps, s.id, channel) == Jumps(sequences)
            && s.lastSequence[channel] - sequences[0]
                 == Advances(sequences) + Reported(gaps, s.id, channel)
  {
    hide Run, DistinctIds;
    RunAccounted(calls);
    var sequences := Sequences(Run(calls).tracked[i], channel);
    assert ChannelOk(Run(calls).manager, i, Run(calls).tracked[i], channel);
    WatermarkIsMaximum(sequences);
    MissingAccounts(sequences);
    ReportedIsMissing(Run(calls).manager.gaps, Run(calls).manager.sessions[i].id, channel);
  }

  /** A message without a provider sequence, or of weak identity, records no gap. */
  lemma WeakRecordsNothing(m: Manager, channel: string, sequence: Option<int>, strong: bool, now: int)
    requires m.sessions != [] && (!strong || sequence.None?)
    ensures RecordMessage(m, channel, sequence, strong, now).1 == None
    ensures RecordMessage(m, channel, sequence, strong, now).0.gaps == m.gaps
    ensures Last(RecordMessage(m, channel, sequence, strong, now).0).lastSequence == Last(m).lastSequence
  {
  }

  /** The outage window is in order exactly when the previous session was closed first, or the clock
      gave one and the same reading for the new opening and the closing it forced. */
  lemma WindowOrderedIff(m: Manager, id: string, now: int, closeNow: int)
    requires m.sessions != [] && now <= closeNow
    requires Last(m).closedAt.Some? ==> Last(m).closedAt.value <= now
    ensures var gap := OpenSession(m, id, now, closeNow).gaps[|m.gaps|];
            && gap.windowStart.Some? && gap.windowEnd.Some?
            && (gap.windowStart.value <= gap.windowEnd.value <==> Last(m).closedAt.Some? || closeNow == now)
  {
  }
}
