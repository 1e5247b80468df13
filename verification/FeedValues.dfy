// Feed sessions as values: what each call on the session manager does to them.

module FeedValues {
  import opened Wrappers

  datatype GapKind = WebsocketGap | ReconnectGap | StaleFeed

  datatype GapRecord = GapRecord(
    kind: GapKind,
    channel: Option<string>,
    detectedAt: int,
    windowStart: Option<int>,
    windowEnd: Option<int>,
    expectedSequence: Option<int>,
    observedSequence: Option<int>,
    sessionId: Option<string>)
  {
    function MissingCount(): Option<int> {
      if expectedSequence.None? || observedSequence.None? then None
      else
        var n := observedSequence.value - expectedSequence.value;
        Some(if n > 0 then n else 0)
    }
  }

  datatype Session = Session(
    id: string,
    ordinal: nat,
    openedAt: int,
    lastSequence: map<string, int>,
    closedAt: Option<int>,
    lastMessageAt: Option<int>,
    messageCount: nat,
    strong: bool)

  /** The session manager's contents; the current session is the last one. */
  datatype Manager = Manager(sessions: seq<Session>, gaps: seq<GapRecord>, drained: nat) {
    predicate Valid() {
      drained <= |gaps|
    }
  }

  const NO_SESSIONS := Manager([], [], 0)

  function SetLast(sessions: seq<Session>, s: Session): seq<Session>
    requires sessions != []
  {
    sessions[|sessions| - 1 := s]
  }

  function Last(m: Manager): Session
    requires m.sessions != []
  {
    m.sessions[|m.sessions| - 1]
  }

  function CloseSession(m: Manager, now: int): Manager {
    if m.sessions == [] || Last(m).closedAt.Some? then m
    else m.(sessions := SetLast(m.sessions, Last(m).(closedAt := Some(now))))
  }

  function ReconnectRecord(previous: Session, now: int): GapRecord
    requires previous.closedAt.Some?
  {
    GapRecord(ReconnectGap, None, now, previous.closedAt, Some(now), None, None, Some(previous.id))
  }

  /** Open a session at `now`; a session still open is closed first, at a second clock reading. */
  function OpenSession(m: Manager, id: string, now: int, closeNow: int): Manager {
    var closed := CloseSession(m, closeNow);
    var session := Session(id, |m.sessions|, now, map[], None, None, 0, false);
    closed.(sessions := closed.sessions + [session],
            gaps := closed.gaps + if closed.sessions == [] then [] else [ReconnectRecord(Last(closed), now)])
  }

  /** The discontinuity a tracked message reveals, if it does. */
  function Discontinuity(s: Session, channel: string, sequence: int, now: int): Option<GapRecord> {
    if channel in s.lastSequence && sequence > s.lastSequence[channel] + 1 then
      Some(GapRecord(WebsocketGap, Some(channel), now, None, None,
                     Some(s.lastSequence[channel] + 1), Some(sequence), Some(s.id)))
    else None
  }

  function Advance(s: Session, channel: string, sequence: int): Session {
    if channel !in s.lastSequence || sequence > s.lastSequence[channel]
    then s.(lastSequence := s.lastSequence[channel := sequence])
    else s
  }

  /** Record a message of the current session. */
  function RecordMessage(m: Manager, channel: string, sequence: Option<int>, strong: bool, now: int)
    : (Manager, Option<GapRecord>)
    requires m.sessions != []
  {
    var s := Last(m).(messageCount := Last(m).messageCount + 1, lastMessageAt := Some(now), strong := strong);
    if !strong || sequence.None? then (m.(sessions := SetLast(m.sessions, s)), None) else
      var gap := Discontinuity(s, channel, sequence.value, now);
      (m.(sessions := SetLast(m.sessions, Advance(s, channel, sequence.value)),
          gaps := m.gaps + if gap.Some? then [gap.value] else []), gap)
  }

  function StaleRecord(m: Manager, now: int): GapRecord {
    if m.sessions == [] then GapRecord(StaleFeed, None, now, Some(now), Some(now), None, None, None) else
      var s := Last(m);
      GapRecord(StaleFeed, None, now, Some(if s.lastMessageAt.Some? then s.lastMessageAt.value else s.openedAt),
                Some(now), None, None, Some(s.id))
  }

  function RecordStale(m: Manager, now: int): Manager {
    m.(gaps := m.gaps + [StaleRecord(m, now)])
  }

  function Drain(m: Manager): (Manager, seq<GapRecord>)
    requires m.Valid()
  {
    (m.(drained := |m.gaps|), m.gaps[m.drained..])
  }
}
