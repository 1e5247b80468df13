// The session manager and its sessions, as objects.

module FeedSessions {
  import opened Wrappers
  import opened FeedValues

  datatype ConnectionState =
    | Idle
    | Connecting
    | Authenticating
    | Subscribing
    | Streaming
    | Recovering
    | Disconnected
    | Stopped

  function Permitted(from: ConnectionState): set<ConnectionState> {
    match from
    case Idle => {Connecting, Stopped}
    case Connecting => {Authenticating, Disconnected}
    case Authenticating => {Subscribing, Disconnected}
    case Subscribing => {Streaming, Disconnected}
    case Streaming => {Recovering, Disconnected, Stopped}
    case Recovering => {Streaming, Disconnected, Stopped}
    case Disconnected => {Connecting, Stopped}
    case Stopped => {}
  }

  /** The state a connection is in after these moves were asked for, the forbidden ones being refused. */
  function After(from: ConnectionState, moves: seq<ConnectionState>): ConnectionState {
    if moves == [] then from else
      var state, to := After(from, moves[..|moves| - 1]), moves[|moves| - 1];
      if to in Permitted(state) then to else state
  }

  /** Which states a state may be entered from. */
  lemma EnteredFrom(from: ConnectionState, to: ConnectionState)
    ensures to in Permitted(from) <==>
              || (to == Connecting && from in {Idle, Disconnected})
              || (to == Authenticating && from == Connecting)
              || (to == Subscribing && from == Authenticating)
              || (to == Streaming && from in {Subscribing, Recovering})
              || (to == Recovering && from == Streaming)
              || (to == Disconnected && from !in {Idle, Disconnected, Stopped})
              || (to == Stopped && from in {Idle, Streaming, Recovering, Disconnected})
  {
  }

  /** A stopped connection stays stopped, whatever is asked for. */
  lemma {:induction false} StoppedIsFinal(moves: seq<ConnectionState>)
    ensures After(Stopped, moves) == Stopped
  {
    if moves != [] {
      StoppedIsFinal(moves[..|moves| - 1]);
    }
  }

  /** After `n` moves the connection was in state `first`, and ever since in states of `upTo`. */
  ghost predicate EverSince(moves: seq<ConnectionState>, n: nat, first: ConnectionState, upTo: set<ConnectionState>) {
    && n <= |moves| && After(Idle, moves[..n]) == first
    && forall m | n < m <= |moves| :: After(Idle, moves[..m]) in upTo
  }

  lemma EverSinceOn(moves: seq<ConnectionState>, n: nat, first: ConnectionState, upTo: set<ConnectionState>)
    requires moves != [] && EverSince(moves[..|moves| - 1], n, first, upTo) && After(Idle, moves) in upTo
    ensures EverSince(moves, n, first, upTo)
  {
    var before := moves[..|moves| - 1];
    assert before[..n] == moves[..n];
    forall m | n < m <= |moves| ensures After(Idle, moves[..m]) in upTo {
      if m < |moves| {
        assert before[..m] == moves[..m];
      } else {
        assert moves[..m] == moves;
      }
    }
  }

  /** A connection streams, or recovers, only once it has been subscribing, and since then without a disconnection: each
      disconnection is followed by connecting, authenticating and subscribing before there is data again. */
  lemma {:induction false} StreamingIsEarned(moves: seq<ConnectionState>)
    ensures After(Idle, moves) in {Streaming, Recovering} ==>
              exists n: nat :: EverSince(moves, n, Subscribing, {Streaming, Recovering})
    ensures After(Idle, moves) == Subscribing ==>
              exists n: nat :: EverSince(moves, n, Authenticating, {Subscribing})
    ensures After(Idle, moves) == Authenticating ==>
              exists n: nat :: EverSince(moves, n, Connecting, {Authenticating})
    ensures After(Idle, moves) == Connecting ==>
              exists n: nat :: EverSince(moves, n, Idle, {Connecting}) || EverSince(moves, n, Disconnected, {Connecting})
  {
    if moves != [] {
      var before, n := moves[..|moves| - 1], |moves| - 1;
      StreamingIsEarned(before);
      var was, now := After(Idle, before), After(Idle, moves);
      assert moves[..n] == before && moves[..n + 1] == moves;
      hide EverSince;
      if was == now || (was in {Streaming, Recovering} && now in {Streaming, Recovering}) {
        forall first, upTo, k: nat | EverSince(before, k, first, upTo) && now in upTo ensures EverSince(moves, k, first, upTo) {
          EverSinceOn(moves, k, first, upTo);
        }
      } else {
        FirstSince(moves, was, {now});
        FirstSince(moves, was, {Streaming, Recovering});
      }
    }
  }

  lemma FirstSince(moves: seq<ConnectionState>, was: ConnectionState, upTo: set<ConnectionState>)
    ensures moves != [] && After(Idle, moves[..|moves| - 1]) == was && After(Idle, moves) in upTo ==>
              EverSince(moves, |moves| - 1, was, upTo)
  {
    assert moves[..|moves|] == moves;
  }

  /** One WebSocket connection's lifetime. */
  class FeedSession {
    const id: string
    const ordinal: nat
    const openedAt: int
    var lastSequence: map<string, int>
    var closedAt: Option<int>
    var lastMessageAt: Option<int>
    var messageCount: nat
    var strong: bool

    ghost function Value(): Session
      reads this
    {
      Session(id, ordinal, openedAt, lastSequence, closedAt, lastMessageAt, messageCount, strong)
    }

    constructor (id: string, ordinal: nat, openedAt: int)
      ensures Value() == Session(id, ordinal, openedAt, map[], None, None, 0, false)
    {
      this.id, this.ordinal, this.openedAt := id, ordinal, openedAt;
      lastSequence, closedAt, lastMessageAt, messageCount, strong := map[], None, None, 0, false;
    }
  }

  /** Owns session identity, sequence tracking and gap detection. Clock readings and new ids are arguments. */
  lemma LastIsClosed(m: Manager, now: int)
    ensures var closed := CloseSession(m, now);
            && |closed.sessions| == |m.sessions|
            && (closed.sessions != [] ==> Last(closed).closedAt.Some?)
  {
  }

  class SessionManager {
    var state: ConnectionState
    var sessions: seq<FeedSession>
    var current: FeedSession?
    var gaps: seq<GapRecord>
    var drained: nat

    ghost predicate Valid()
      reads this
    {
      && (forall i, j | 0 <= i < j < |sessions| :: sessions[i] != sessions[j])
      && (current == null <==> sessions == [])
      && (current != null ==> current == sessions[|sessions| - 1])
      && drained <= |gaps|
    }

    ghost function Contents(): Manager
      reads this, sessions
    {
      Manager(seq(|sessions|, i requires 0 <= i < |sessions| reads this, sessions => sessions[i].Value()), gaps, drained)
    }

    constructor ()
      ensures Valid() && Contents() == NO_SESSIONS && state == Idle
    {
      state, sessions, current, gaps, drained := Idle, [], null, [], 0;
    }

    /** Move to `to`, if the table permits it. */
    method Transition(to: ConnectionState) returns (legal: bool)
      modifies this`state
      ensures legal <==> to in Permitted(old(state))
      ensures state == (if legal then to else old(state)) == After(old(state), [to])
    {
      assert [to][..0] == [];
      legal := to in Permitted(state);
      if legal {
        state := to;
      }
    }

    /** Gaps detected since the last drain. */
    method DrainNewGaps() returns (handed: seq<GapRecord>)
      requires Valid()
      modifies this`drained
      ensures Valid() && Contents() == Drain(old(Contents())).0 && handed == Drain(old(Contents())).1
    {
      handed := gaps[drained..];
      drained := |gaps|;
      assert Contents().sessions == old(Contents()).sessions;
    }

    method Close(now: int)
      requires Valid()
      modifies sessions
      ensures Valid() && Contents() == CloseSession(old(Contents()), now)
    {
      if current == null || current.closedAt.Some? {
        return;
      }
      current.closedAt := Some(now);
    }

    method Open(id: string, now: int, closeNow: int) returns (session: FeedSession)
      requires Valid()
      modifies this, sessions
      ensures Valid() && Contents() == OpenSession(old(Contents()), id, now, closeNow)
      ensures fresh(session) && session == current
      ensures state == old(state)
    {
      if current != null && current.closedAt.None? {
        Close(closeNow);
      }
      ghost var closed := Contents();
      assert closed == CloseSession(old(Contents()), closeNow);
      LastIsClosed(old(Contents()), closeNow);
      hide CloseSession, SetLast;
      session := new FeedSession(id, |sessions|, now);
      if current != null && current.closedAt.Some? {
        gaps := gaps + [GapRecord(ReconnectGap, None, now, current.closedAt, Some(now), None, None, Some(current.id))];
      } else {
        assert gaps + [] == gaps;
      }
      sessions := sessions + [session];
      current := session;
      assert Contents().sessions == closed.sessions + [session.Value()];
    }

    /** Record a received message; the gap it reveals, or an error when no session was ever opened. */
    method Record(channel: string, sequence: Option<int>, strong: bool, now: int)
      returns (r: Result<Option<GapRecord>, ()>)
      requires Valid()
      modifies this`gaps, sessions
      ensures Valid()
      ensures r.Failure? <==> old(sessions) == []
      ensures r.Failure? ==> Contents() == old(Contents())
      ensures r.Success? ==>
                && Contents() == RecordMessage(old(Contents()), channel, sequence, strong, now).0
                && r.value == RecordMessage(old(Contents()), channel, sequence, strong, now).1
    {
      if current == null {
        return Failure(());
      }
      current.messageCount := current.messageCount + 1;
      current.lastMessageAt := Some(now);
      current.strong := strong;
      if !strong || sequence.None? {
        assert Contents().sessions == SetLast(old(Contents()).sessions, current.Value());
        return Success(None);
      }
      var gap: Option<GapRecord> := None;
      if channel in current.lastSequence && sequence.value > current.lastSequence[channel] + 1 {
        gap := Some(GapRecord(WebsocketGap, Some(channel), now, None, None,
                              Some(current.lastSequence[channel] + 1), Some(sequence.value), Some(current.id)));
        gaps := gaps + [gap.value];
      } else {
        assert gaps + [] == gaps;
      }
      if channel !in current.lastSequence || sequence.value > current.lastSequence[channel] {
        current.lastSequence := current.lastSequence[channel := sequence.value];
      }
      assert Contents().sessions == SetLast(old(Contents()).sessions, current.Value());
      return Success(gap);
    }

    method MarkStale(now: int) returns (gap: GapRecord)
      requires Valid()
      modifies this`gaps
      ensures Valid() && Contents() == RecordStale(old(Contents()), now)
      ensures gap == StaleRecord(old(Contents()), now)
    {
      if current == null {
        gap := GapRecord(StaleFeed, None, now, Some(now), Some(now), None, None, None);
      } else {
        var reference := if current.lastMessageAt.Some? then current.lastMessageAt.value else current.openedAt;
        gap := GapRecord(StaleFeed, None, now, Some(reference), Some(now), None, None, Some(current.id));
      }
      gaps := gaps + [gap];
    }
  }
}
